/** The schema the multi-value branch of `getArrowSchemaFromPinotSchema` was
    evidently meant to build: a `List` field whose single child carries the
    element type. With it, multi-value rows are written as lists instead of
    being rejected. */
module IntendedSchema {
  import opened PinotTypes
  import opened ArrowTypes
  import opened Errors
  import opened SchemaMapping
  import opened RowFill

  /** The name Arrow gives the data child of a list vector. */
  const LIST_DATA_NAME: string := "$data$"

  /** The field intended for a supported spec: the scalar field when
      single-valued, a nullable list of nullable scalars otherwise. */
  function IntendedFieldOf(spec: FieldSpec): ArrowField
    requires Supported(spec)
  {
    var scalar := ScalarType(spec.storedType);
    if spec.singleValue then ArrowField(spec.name, true, scalar, [])
    else ArrowField(spec.name, true, List, [ArrowField(LIST_DATA_NAME, true, scalar, [])])
  }

  /** One iteration of the corrected loop: the single-value switch as written,
      and a multi-value switch that builds `new ArrowType.List()` with the
      element type as its child. */
  function IntendedFieldFor(spec: FieldSpec): Result<ArrowField> {
    if spec.singleValue then FieldFor(spec)
    else
      match spec.storedType
      case INT => Ok(ArrowField(spec.name, true, List, [ArrowField(LIST_DATA_NAME, true, Int(32, true), [])]))
      case LONG => Ok(ArrowField(spec.name, true, List, [ArrowField(LIST_DATA_NAME, true, Int(64, true), [])]))
      case FLOAT => Ok(ArrowField(spec.name, true, List, [ArrowField(LIST_DATA_NAME, true, FloatingPoint(SINGLE), [])]))
      case DOUBLE => Ok(ArrowField(spec.name, true, List, [ArrowField(LIST_DATA_NAME, true, FloatingPoint(Precision.DOUBLE), [])]))
      case STRING => Ok(ArrowField(spec.name, true, List, [ArrowField(LIST_DATA_NAME, true, Utf8, [])]))
      case _ => Err(UnsupportedDataType(spec.storedType))
  }

  /** The corrected switch accepts the same specs as the written one and
      builds the intended field for each. */
  lemma IntendedFieldForMatchesTable(spec: FieldSpec)
    ensures IntendedFieldFor(spec).Ok? <==> Supported(spec)
    ensures Supported(spec) ==> IntendedFieldFor(spec).value == IntendedFieldOf(spec)
    ensures !Supported(spec) ==> IntendedFieldFor(spec) == Err(UnsupportedDataType(spec.storedType))
  {
    FieldForMatchesTable(spec);
  }

  lemma IntendedFieldForMatchesTableAll()
    ensures forall spec :: IntendedFieldFor(spec).Ok? <==> Supported(spec)
    ensures forall spec :: Supported(spec) ==> IntendedFieldFor(spec).value == IntendedFieldOf(spec)
    ensures forall spec :: !Supported(spec) ==> IntendedFieldFor(spec) == Err(UnsupportedDataType(spec.storedType))
  {
    forall spec: FieldSpec {
      IntendedFieldForMatchesTable(spec);
    }
  }

  /** The corrected mapping: it rejects exactly the specs the written one
      rejects, with the same error, and otherwise builds the intended field
      for each spec in order. */
  function IntendedArrowSchema(specs: seq<FieldSpec>): (r: Result<seq<ArrowField>>)
    ensures r.Ok? <==> ArrowSchemaFromPinotSchema(specs).Ok?
    ensures r.Ok? ==> |r.value| == |specs|
    ensures r.Ok? ==> forall i :: 0 <= i < |specs| ==> r.value[i] == IntendedFieldOf(specs[i])
    ensures r.Err? ==> r.error == ArrowSchemaFromPinotSchema(specs).error
  {
    IntendedFieldForMatchesTableAll();
    var r := CollectAll(specs, IntendedFieldFor);
    assert r.Err? ==> r.error == ArrowSchemaFromPinotSchema(specs).error by {
      if r.Err? {
        var i :| FirstThrow(specs, IntendedFieldFor, i) && r.error == IntendedFieldFor(specs[i]).error;
        assert !Supported(specs[i]);
        assert ArrowSchemaFromPinotSchema(specs).Err?;
        var j :| FirstUnsupported(specs, j) && ArrowSchemaFromPinotSchema(specs).error == UnsupportedDataType(specs[j].storedType);
      }
    }
    r
  }

  /** The two mappings differ only in multi-value fields: single-value
      fields are the same. */
  lemma IntendedAgreesOnSingleValue(specs: seq<FieldSpec>, i: int)
    requires ArrowSchemaFromPinotSchema(specs).Ok?
    requires 0 <= i < |specs| && specs[i].singleValue
    ensures IntendedArrowSchema(specs).value[i] == ArrowSchemaFromPinotSchema(specs).value[i]
  {
  }

  /** A value the writer can store in a field: for a single-value field a value
      of the accepted class, for a multi-value field an `Object[]` whose
      elements all are. */
  predicate Fits(spec: FieldSpec, v: Value) {
    if spec.singleValue then Accepts(spec.storedType, v)
    else v.ArrayObj? && forall k :: 0 <= k < |v.elems| ==> Accepts(spec.storedType, v.elems[k])
  }

  /** The cell a fitting value becomes: the element cells in order for a list. */
  function FittedCell(spec: FieldSpec, v: Value): Cell
    requires Fits(spec, v)
  {
    if spec.singleValue then CellOf(spec.storedType, v)
    else ListCell(seq(|v.elems|, k requires 0 <= k < |v.elems| => CellOf(spec.storedType, v.elems[k])))
  }

  /** Every value of the row fits its field. */
  predicate RowFits(specs: seq<FieldSpec>, row: Row) {
    forall i :: 0 <= i < |specs| ==> Fits(specs[i], ValueOf(row, specs[i].name))
  }

  /** The cells a fitting row becomes, in field order. */
  function FittedRow(specs: seq<FieldSpec>, row: Row): (cells: seq<Cell>)
    requires RowFits(specs, row)
    ensures |cells| == |specs|
  {
    seq(|specs|, i requires 0 <= i < |specs| => FittedCell(specs[i], ValueOf(row, specs[i].name)))
  }

  /** Field `i`, filled against the vector the corrected schema allocates. */
  lemma IntendedFieldFill(specs: seq<FieldSpec>, row: Row, i: int)
    requires IntendedArrowSchema(specs).Ok?
    requires 0 <= i < |specs|
    ensures var v := ValueOf(row, specs[i].name);
      var r := FillField(specs[i], VectorsFor(IntendedArrowSchema(specs).value)[i], row);
      && (r.Ok? <==> Fits(specs[i], v))
      && (r.Ok? ==> r.value == FittedCell(specs[i], v))
  {
    var spec := specs[i];
    var v := ValueOf(row, spec.name);
    FieldForMatchesTable(spec);
    if spec.singleValue {
      SingleValueFieldFill(spec, v);
    } else {
      assert VectorsFor(IntendedArrowSchema(specs).value)[i] == ListVector;
      if v.ArrayObj? {
        var r := FillElements(spec.name, spec.storedType, v.elems);
        FillElementsOk(spec.name, spec.storedType, v.elems);
        if r.Ok? {
          assert ListCell(r.value) == FittedCell(spec, v);
        }
      }
    }
  }

  /** With the corrected schema a row is written exactly when every value fits
      its field, single- and multi-valued alike, and yields the fitted cells in
      field order. */
  lemma IntendedRowFill(specs: seq<FieldSpec>, row: Row)
    requires IntendedArrowSchema(specs).Ok?
    ensures var r := FillRowFor(specs, IntendedArrowSchema(specs).value, row);
      && (r.Ok? <==> forall i :: 0 <= i < |specs| ==> Fits(specs[i], ValueOf(row, specs[i].name)))
      && (r.Ok? ==> forall i :: 0 <= i < |specs| ==> r.value[i] == FittedCell(specs[i], ValueOf(row, specs[i].name)))
  {
    FillRowOk(specs, VectorsFor(IntendedArrowSchema(specs).value), row);
    forall i | 0 <= i < |specs| {
      IntendedFieldFill(specs, row, i);
    }
  }

  /** The input that shows the discrepancy: one multi-value STRING field
      holding `["a", "b"]`. */
  const TAGS_SPECS: seq<FieldSpec> := [FieldSpec("tags", STRING, false)]
  const TAGS_ROW: Row := map["tags" := ArrayObj([StringObj("a"), StringObj("b")])]

  /** As written, the field gets a `VarCharVector`, so the `(ListVector)` cast throws. */
  lemma TagsRowRejectedAsWritten()
    ensures ArrowSchemaFromPinotSchema(TAGS_SPECS).Ok?
    ensures FillRowFor(TAGS_SPECS, ArrowSchemaFromPinotSchema(TAGS_SPECS).value, TAGS_ROW) == Err(ClassCast("tags"))
  {
    var spec := TAGS_SPECS[0];
    assert Supported(spec);
    var schema := ArrowSchemaFromPinotSchema(TAGS_SPECS).value;
    var vecs := VectorsFor(schema);
    assert IsScalarFieldOf(schema[0], spec);
    assert vecs[0] == VarCharVector;
    assert ValueOf(TAGS_ROW, "tags") == ArrayObj([StringObj("a"), StringObj("b")]);
    assert FillField(spec, vecs[0], TAGS_ROW) == Err(ClassCast("tags"));
  }

  /** With the corrected schema the same row is written as one list of two strings. */
  lemma TagsRowWrittenAsIntended()
    ensures IntendedArrowSchema(TAGS_SPECS).Ok?
    ensures FillRowFor(TAGS_SPECS, IntendedArrowSchema(TAGS_SPECS).value, TAGS_ROW)
      == Ok([ListCell([VarCharCell(StringObj("a")), VarCharCell(StringObj("b"))])])
  {
    var spec := TAGS_SPECS[0];
    var v := ValueOf(TAGS_ROW, "tags");
    assert v == ArrayObj([StringObj("a"), StringObj("b")]);
    assert Supported(spec);
    IntendedRowFill(TAGS_SPECS, TAGS_ROW);
    assert Fits(spec, v);
    var r := FillRowFor(TAGS_SPECS, IntendedArrowSchema(TAGS_SPECS).value, TAGS_ROW);
    assert r.value[0] == FittedCell(spec, v);
    assert FittedCell(spec, v) == ListCell([VarCharCell(StringObj("a")), VarCharCell(StringObj("b"))]);
    assert r.value == [r.value[0]];
  }
}
