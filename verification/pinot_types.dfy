/** The Pinot side of the writer's input: field specs (already reduced to
    their stored type) and generic rows whose values are Java objects. */
module PinotTypes {
  import opened JavaLang

  /** `FieldSpec.getDataType().getStoredType()`. `Other` stands for every stored
      type the writer has no case for (BIG_DECIMAL, MAP, LIST, UNKNOWN, ...). */
  datatype StoredType = INT | LONG | FLOAT | DOUBLE | STRING | BYTES | Other(typeName: string)

  /** The parts of a `FieldSpec` the writer reads: name, stored type, and
      `isSingleValueField()`. */
  datatype FieldSpec = FieldSpec(name: string, storedType: StoredType, singleValue: bool)

  /** A Java object held by a `GenericRow`. Floating-point values are kept as
      their raw bit patterns and never interpreted. `ArrayObj` is an `Object[]`;
      `OtherObj` is any object of a class not listed here. */
  datatype Value =
    | Null
    | IntObj(i: int32)
    | LongObj(l: int64)
    | FloatObj(floatBits: bv32)
    | DoubleObj(doubleBits: bv64)
    | StringObj(s: string)
    | BytesObj(bytes: seq<bv8>)
    | ArrayObj(elems: seq<Value>)
    | OtherObj(token: nat)

  /** A `GenericRow`: field name to value. */
  type Row = map<string, Value>

  /** `row.getValue(name)`: an absent field reads as `null`. */
  function ValueOf(row: Row, name: string): (v: Value)
    ensures name !in row ==> v == Null
    ensures name in row ==> v == row[name]
  {
    if name in row then row[name] else Null
  }
}
