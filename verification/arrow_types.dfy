/** The Arrow side: field types, fields, the vector class Arrow allocates for
    a field, and the cells a vector holds. */
module ArrowTypes {
  import opened JavaLang
  import opened PinotTypes

  datatype Precision = SINGLE | DOUBLE

  /** The `ArrowType` classes the writer can produce. `List` is the list type,
      whose element type lives in the field's single child. */
  datatype ArrowType =
    | Int(bitWidth: nat, isSigned: bool)
    | FloatingPoint(precision: Precision)
    | Utf8
    | Binary
    | List

  /** `new Field(name, fieldType, children)`; `nullable` is the flag of its `FieldType`.
      A `null` children list is an empty one. */
  datatype ArrowField = ArrowField(name: string, nullable: bool, arrowType: ArrowType, children: seq<ArrowField>)

  /** The concrete `FieldVector` class that `VectorSchemaRoot.create` allocates. */
  datatype VectorKind =
    | IntVector
    | BigIntVector
    | Float4Vector
    | Float8Vector
    | VarCharVector
    | VarBinaryVector
    | ListVector
    | OtherVector

  /** The vector Arrow allocates for a field of this type. */
  function VectorFor(t: ArrowType): (k: VectorKind)
    ensures k == ListVector <==> t == List
    ensures k == IntVector <==> t == Int(32, true)
    ensures k == BigIntVector <==> t == Int(64, true)
  {
    match t
    case Int(bits, signed) =>
      if bits == 32 && signed then IntVector
      else if bits == 64 && signed then BigIntVector
      else OtherVector
    case FloatingPoint(p) => if p == SINGLE then Float4Vector else Float8Vector
    case Utf8 => VarCharVector
    case Binary => VarBinaryVector
    case List => ListVector
  }

  /** The vectors of a schema, in field order. */
  function VectorsFor(fields: seq<ArrowField>): (vs: seq<VectorKind>)
    ensures |vs| == |fields|
    ensures forall i :: 0 <= i < |fields| ==> vs[i] == VectorFor(fields[i].arrowType)
  {
    seq(|fields|, i requires 0 <= i < |fields| => VectorFor(fields[i].arrowType))
  }

  /** One slot of one vector. `VarCharCell(v)` holds the bytes of `v.toString()`
      in the platform charset, which the model leaves uninterpreted. */
  datatype Cell =
    | IntCell(i: int32)
    | BigIntCell(l: int64)
    | Float4Cell(floatBits: bv32)
    | Float8Cell(doubleBits: bv64)
    | VarCharCell(text: Value)
    | VarBinaryCell(bytes: seq<bv8>)
    | ListCell(elems: seq<Cell>)
}
