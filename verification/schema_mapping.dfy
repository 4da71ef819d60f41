/** `getArrowSchemaFromPinotSchema`: one nullable Arrow field per Pinot field
    spec, in order, or the first "Unsupported data type" failure. */
module SchemaMapping {
  import opened PinotTypes
  import opened ArrowTypes
  import opened Errors

  /** Stored types with an Arrow column type at all. */
  predicate IsScalarType(t: StoredType) {
    t.INT? || t.LONG? || t.FLOAT? || t.DOUBLE? || t.STRING? || t.BYTES?
  }

  /** The Arrow type a value of stored type `t` is stored as: the reference table
      the writer's two switches are checked against. */
  function ScalarType(t: StoredType): ArrowType
    requires IsScalarType(t)
  {
    match t
    case INT => Int(32, true)
    case LONG => Int(64, true)
    case FLOAT => FloatingPoint(SINGLE)
    case DOUBLE => FloatingPoint(Precision.DOUBLE)
    case STRING => Utf8
    case BYTES => Binary
  }

  /** Specs the mapping accepts: every scalar type when single-valued, every
      scalar type but BYTES when multi-valued. */
  predicate Supported(spec: FieldSpec) {
    IsScalarType(spec.storedType) && (spec.singleValue || !spec.storedType.BYTES?)
  }

  /** One iteration of the loop: the single-value switch or the multi-value switch.
      In the multi-value switch `ArrowType.List.Int`, `ArrowType.List.FloatingPoint`
      and `ArrowType.List.Utf8` are the nested classes `ArrowType.Int`,
      `ArrowType.FloatingPoint` and `ArrowType.Utf8` inherited by `ArrowType.List`,
      so no list type is built. */
  function FieldFor(spec: FieldSpec): Result<ArrowField> {
    if spec.singleValue then
      match spec.storedType
      case INT => Ok(ArrowField(spec.name, true, Int(32, true), []))
      case LONG => Ok(ArrowField(spec.name, true, Int(64, true), []))
      case FLOAT => Ok(ArrowField(spec.name, true, FloatingPoint(SINGLE), []))
      case DOUBLE => Ok(ArrowField(spec.name, true, FloatingPoint(Precision.DOUBLE), []))
      case STRING => Ok(ArrowField(spec.name, true, Utf8, []))
      case BYTES => Ok(ArrowField(spec.name, true, Binary, []))
      case Other(_) => Err(UnsupportedDataType(spec.storedType))
    else
      match spec.storedType
      case INT => Ok(ArrowField(spec.name, true, Int(32, true), []))
      case LONG => Ok(ArrowField(spec.name, true, Int(64, true), []))
      case FLOAT => Ok(ArrowField(spec.name, true, FloatingPoint(SINGLE), []))
      case DOUBLE => Ok(ArrowField(spec.name, true, FloatingPoint(Precision.DOUBLE), []))
      case STRING => Ok(ArrowField(spec.name, true, Utf8, []))
      case _ => Err(UnsupportedDataType(spec.storedType))
  }

  /** The field the mapping produces for a supported spec, whatever its multiplicity. */
  predicate IsScalarFieldOf(f: ArrowField, spec: FieldSpec)
    requires Supported(spec)
  {
    f == ArrowField(spec.name, true, ScalarType(spec.storedType), [])
  }

  /** `i` is the first position whose spec the mapping rejects. */
  predicate FirstUnsupported(specs: seq<FieldSpec>, i: int) {
    0 <= i < |specs| && !Supported(specs[i]) && forall j :: 0 <= j < i ==> Supported(specs[j])
  }

  /** Each spec maps on its own exactly as the reference table says, single- and
      multi-valued alike, and is rejected exactly when it is not supported. */
  lemma FieldForMatchesTable(spec: FieldSpec)
    ensures FieldFor(spec).Ok? <==> Supported(spec)
    ensures Supported(spec) ==> IsScalarFieldOf(FieldFor(spec).value, spec)
    ensures !Supported(spec) ==> FieldFor(spec) == Err(UnsupportedDataType(spec.storedType))
  {
  }

  /** A multi-value field gets exactly the type of the single-value field of the
      same stored type: the list wrapper the code names is never built. */
  lemma MultiValueSameAsSingleValue(name: string, t: StoredType)
    requires IsScalarType(t) && !t.BYTES?
    ensures FieldFor(FieldSpec(name, t, false)) == FieldFor(FieldSpec(name, t, true))
    ensures FieldFor(FieldSpec(name, t, false)).value.arrowType != List
  {
  }

  /** The single-value type table, entry by entry. */
  lemma SingleValueTable(name: string)
    ensures FieldFor(FieldSpec(name, INT, true)).value.arrowType == Int(32, true)
    ensures FieldFor(FieldSpec(name, LONG, true)).value.arrowType == Int(64, true)
    ensures FieldFor(FieldSpec(name, FLOAT, true)).value.arrowType == FloatingPoint(SINGLE)
    ensures FieldFor(FieldSpec(name, StoredType.DOUBLE, true)).value.arrowType == FloatingPoint(Precision.DOUBLE)
    ensures FieldFor(FieldSpec(name, STRING, true)).value.arrowType == Utf8
    ensures FieldFor(FieldSpec(name, BYTES, true)).value.arrowType == Binary
    ensures forall n :: FieldFor(FieldSpec(name, Other(n), true)) == Err(UnsupportedDataType(Other(n)))
  {
  }

  /** Multi-value BYTES and every unknown type are rejected. */
  lemma MultiValueRejects(name: string)
    ensures FieldFor(FieldSpec(name, BYTES, false)) == Err(UnsupportedDataType(BYTES))
    ensures forall n :: FieldFor(FieldSpec(name, Other(n), false)) == Err(UnsupportedDataType(Other(n)))
  {
  }

  lemma FieldForMatchesTableAll()
    ensures forall spec :: FieldFor(spec).Ok? <==> Supported(spec)
    ensures forall spec :: Supported(spec) ==> IsScalarFieldOf(FieldFor(spec).value, spec)
    ensures forall spec :: !Supported(spec) ==> FieldFor(spec) == Err(UnsupportedDataType(spec.storedType))
  {
    forall spec: FieldSpec {
      FieldForMatchesTable(spec);
    }
  }

  /** `getArrowSchemaFromPinotSchema`: the loop over the specs. It fails exactly when some spec is not
      supported, with the first such spec's stored type; otherwise field `i`
      is the nullable scalar field named after spec `i`, for single- and
      multi-value specs alike. */
  function ArrowSchemaFromPinotSchema(specs: seq<FieldSpec>): (r: Result<seq<ArrowField>>)
    ensures r.Ok? <==> forall i :: 0 <= i < |specs| ==> Supported(specs[i])
    ensures r.Ok? ==> |r.value| == |specs|
    ensures r.Ok? ==> forall i :: 0 <= i < |specs| ==> IsScalarFieldOf(r.value[i], specs[i])
    ensures r.Err? ==> exists i :: FirstUnsupported(specs, i) && r.error == UnsupportedDataType(specs[i].storedType)
  {
    FieldForMatchesTableAll();
    CollectAll(specs, FieldFor)
  }

  /** Every field of a mapped schema is nullable, carries its spec's name, and
      has no children. */
  lemma MappedFieldsNullable(specs: seq<FieldSpec>)
    requires ArrowSchemaFromPinotSchema(specs).Ok?
    ensures forall i :: 0 <= i < |specs| ==>
      var f := ArrowSchemaFromPinotSchema(specs).value[i];
      f.nullable && f.name == specs[i].name && f.children == [] && f.arrowType != List
  {
    var fs := ArrowSchemaFromPinotSchema(specs).value;
    forall i | 0 <= i < |specs|
      ensures fs[i].nullable && fs[i].name == specs[i].name && fs[i].children == [] && fs[i].arrowType != List
    {
      assert IsScalarFieldOf(fs[i], specs[i]);
    }
  }
}
