/** `fillVectorsFromGenericRow`: writing one row's values into the vectors at the
    pending row position. Every cast and dereference the code performs is a
    place where it can throw; the row only counts once every field is written. */
module RowFill {
  import opened JavaLang
  import opened PinotTypes
  import opened ArrowTypes
  import opened Errors
  import opened SchemaMapping

  /** The runtime value a field of stored type `t` can be written from: the
      boxed class the code casts to, or, for STRING, any non-null object
      (its `toString()` is written). */
  predicate Accepts(t: StoredType, v: Value) {
    match t
    case INT => v.IntObj?
    case LONG => v.LongObj?
    case FLOAT => v.FloatObj?
    case DOUBLE => v.DoubleObj?
    case STRING => !v.Null?
    case BYTES => v.BytesObj?
    case Other(_) => false
  }

  /** The cell an accepted value becomes. */
  function CellOf(t: StoredType, v: Value): Cell
    requires Accepts(t, v)
  {
    match t
    case INT => IntCell(v.i)
    case LONG => BigIntCell(v.l)
    case FLOAT => Float4Cell(v.floatBits)
    case DOUBLE => Float8Cell(v.doubleBits)
    case STRING => VarCharCell(v)
    case BYTES => VarBinaryCell(v.bytes)
  }

  /** The vector class the single-value switch casts the field's vector to. */
  function CastTarget(t: StoredType): VectorKind
    requires IsScalarType(t)
  {
    match t
    case INT => IntVector
    case LONG => BigIntVector
    case FLOAT => Float4Vector
    case DOUBLE => Float8Vector
    case STRING => VarCharVector
    case BYTES => VarBinaryVector
  }

  /** A boxed-value cast `(C) v` followed by unboxing or dereference: `null`
      throws `NullPointerException`, an object of another class throws
      `ClassCastException`. */
  function Unbox(name: string, t: StoredType, v: Value): Result<Cell>
    requires IsScalarType(t) && !t.STRING?
  {
    if v.Null? then Err(NullPointer(name))
    else if !Accepts(t, v) then Err(ClassCast(name))
    else Ok(CellOf(t, v))
  }

  /** One single-value field. The receiver cast `(XVector) fieldVector` is
      evaluated before the argument for the fixed-width types; for STRING the
      `toString()` comes first; for BYTES the `(byte[])` cast comes first and
      `bytes.length` last. */
  function FillSingle(spec: FieldSpec, vec: VectorKind, v: Value): Result<Cell>
    requires spec.singleValue
  {
    match spec.storedType
    case STRING =>
      if v.Null? then Err(NullPointer(spec.name))
      else if vec != VarCharVector then Err(ClassCast(spec.name))
      else Ok(VarCharCell(v))
    case BYTES =>
      if !(v.Null? || v.BytesObj?) then Err(ClassCast(spec.name))
      else if vec != VarBinaryVector then Err(ClassCast(spec.name))
      else if v.Null? then Err(NullPointer(spec.name))
      else Ok(VarBinaryCell(v.bytes))
    case Other(_) => Err(UnsupportedDataType(spec.storedType))
    case _ =>
      if vec != CastTarget(spec.storedType) then Err(ClassCast(spec.name))
      else Unbox(spec.name, spec.storedType, v)
  }

  /** One element of an `Object[]` handed to the list writer
      (`writeInt((Integer) value)`, `value.toString()`, `(byte[]) value`, ...). */
  function FillElement(name: string, t: StoredType, v: Value): (r: Result<Cell>)
    requires IsScalarType(t)
    ensures r.Ok? <==> Accepts(t, v)
    ensures r.Ok? ==> r.value == CellOf(t, v)
    ensures r.Err? ==> r.error == (if v.Null? then NullPointer(name) else ClassCast(name))
  {
    if t.STRING? then
      (if v.Null? then Err(NullPointer(name)) else Ok(VarCharCell(v)))
    else Unbox(name, t, v)
  }

  /** The elements of one list, in order, stopping at the first that throws. */
  function FillElements(name: string, t: StoredType, vs: seq<Value>): (r: Result<seq<Cell>>)
    requires IsScalarType(t)
    ensures r.Ok? ==> |r.value| == |vs|
    decreases |vs|
  {
    if |vs| == 0 then Ok([])
    else
      match FillElement(name, t, vs[0])
      case Err(e) => Err(e)
      case Ok(c) =>
        match FillElements(name, t, vs[1..])
        case Err(e) => Err(e)
        case Ok(cs) => Ok([c] + cs)
  }

  /** A list is written exactly when every element is of the accepted class,
      and becomes the elements' cells in order. */
  lemma {:induction false} FillElementsOk(name: string, t: StoredType, vs: seq<Value>)
    requires IsScalarType(t)
    ensures var r := FillElements(name, t, vs);
      && (r.Ok? <==> forall k :: 0 <= k < |vs| ==> Accepts(t, vs[k]))
      && (r.Ok? ==> forall k :: 0 <= k < |vs| ==> r.value[k] == CellOf(t, vs[k]))
    decreases |vs|
  {
    if |vs| > 0 {
      FillElementsOk(name, t, vs[1..]);
      assert forall k :: 0 < k < |vs| ==> vs[k] == vs[1..][k - 1];
    }
  }

  /** One multi-value field: `(Object[]) value`, then `values.length`, then the
      `(ListVector) fieldVector` cast, then the elements. */
  function FillMulti(spec: FieldSpec, vec: VectorKind, v: Value): Result<Cell>
    requires !spec.singleValue
  {
    if !(v.Null? || v.ArrayObj?) then Err(ClassCast(spec.name))
    else if v.Null? then Err(NullPointer(spec.name))
    else if !IsScalarType(spec.storedType) then Err(UnsupportedDataType(spec.storedType))
    else if vec != ListVector then Err(ClassCast(spec.name))
    else
      match FillElements(spec.name, spec.storedType, v.elems)
      case Err(e) => Err(e)
      case Ok(cs) => Ok(ListCell(cs))
  }

  /** One field of the row, read with `row.getValue(name)`. */
  function FillField(spec: FieldSpec, vec: VectorKind, row: Row): Result<Cell> {
    var v := ValueOf(row, spec.name);
    if spec.singleValue then FillSingle(spec, vec, v) else FillMulti(spec, vec, v)
  }

  /** `fillVectorsFromGenericRow`: the fields in schema order, stopping at the
      first that throws; only a row whose every field is written advances
      `_batchRowCount`. */
  function FillRow(specs: seq<FieldSpec>, vecs: seq<VectorKind>, row: Row): (r: Result<seq<Cell>>)
    requires |specs| == |vecs|
    ensures r.Ok? ==> |r.value| == |specs|
    decreases |specs|
  {
    if |specs| == 0 then Ok([])
    else
      match FillField(specs[0], vecs[0], row)
      case Err(e) => Err(e)
      case Ok(c) =>
        match FillRow(specs[1..], vecs[1..], row)
        case Err(e) => Err(e)
        case Ok(cs) => Ok([c] + cs)
  }

  /** Field `i` is the first one that throws. */
  ghost predicate FirstFailure(specs: seq<FieldSpec>, vecs: seq<VectorKind>, row: Row, i: int)
    requires |specs| == |vecs|
  {
    && 0 <= i < |specs|
    && FillField(specs[i], vecs[i], row).Err?
    && forall j :: 0 <= j < i ==> FillField(specs[j], vecs[j], row).Ok?
  }

  /** A row yields its cells exactly when every field is written, each cell
      being its field's. */
  lemma {:induction false} FillRowOk(specs: seq<FieldSpec>, vecs: seq<VectorKind>, row: Row)
    requires |specs| == |vecs|
    ensures var r := FillRow(specs, vecs, row);
      && (r.Ok? <==> forall i :: 0 <= i < |specs| ==> FillField(specs[i], vecs[i], row).Ok?)
      && (r.Ok? ==> forall i :: 0 <= i < |specs| ==> r.value[i] == FillField(specs[i], vecs[i], row).value)
    decreases |specs|
  {
    if |specs| > 0 {
      var specs', vecs' := specs[1..], vecs[1..];
      FillRowOk(specs', vecs', row);
      assert forall i :: 0 < i < |specs| ==> specs[i] == specs'[i - 1] && vecs[i] == vecs'[i - 1];
    }
  }

  /** A row that is not written fails with the exception of the first field
      that throws. */
  lemma {:induction false} FillRowFirstFailure(specs: seq<FieldSpec>, vecs: seq<VectorKind>, row: Row)
    requires |specs| == |vecs|
    ensures var r := FillRow(specs, vecs, row);
      r.Err? ==> exists i :: FirstFailure(specs, vecs, row, i) && r.error == FillField(specs[i], vecs[i], row).error
    decreases |specs|
  {
    if |specs| > 0 {
      var r := FillRow(specs, vecs, row);
      var specs', vecs' := specs[1..], vecs[1..];
      if FillField(specs[0], vecs[0], row).Err? {
        assert FirstFailure(specs, vecs, row, 0);
      } else if FillRow(specs', vecs', row).Err? {
        FillRowFirstFailure(specs', vecs', row);
        var k :| FirstFailure(specs', vecs', row, k) && r.error == FillField(specs'[k], vecs'[k], row).error;
        assert forall j :: 0 < j <= k + 1 ==> specs[j] == specs'[j - 1] && vecs[j] == vecs'[j - 1];
        assert FirstFailure(specs, vecs, row, k + 1);
      }
    }
  }

  /** A row is filled against the vectors the writer's own schema allocated. */
  function FillRowFor(specs: seq<FieldSpec>, schema: seq<ArrowField>, row: Row): (r: Result<seq<Cell>>)
    requires |specs| == |schema|
    ensures r.Ok? ==> |r.value| == |specs|
  {
    FillRow(specs, VectorsFor(schema), row)
  }

  /** With the vectors of the mapped schema, every single-value cast to the
      vector class succeeds: the schema switch and the fill switch agree. */
  lemma SchemaVectorIsCastTarget(spec: FieldSpec)
    requires Supported(spec) && spec.singleValue
    ensures VectorFor(FieldFor(spec).value.arrowType) == CastTarget(spec.storedType)
  {
    FieldForMatchesTable(spec);
  }

  /** With the vectors of the mapped schema, a single-value field is written
      exactly when its value is of the accepted class, and becomes that value's
      cell; a null throws `NullPointerException`, anything else `ClassCastException`. */
  lemma SingleValueFieldFill(spec: FieldSpec, v: Value)
    requires Supported(spec) && spec.singleValue
    ensures var r := FillSingle(spec, VectorFor(FieldFor(spec).value.arrowType), v);
      && (r.Ok? <==> Accepts(spec.storedType, v))
      && (r.Ok? ==> r.value == CellOf(spec.storedType, v))
      && (r.Err? ==> r.error == (if v.Null? then NullPointer(spec.name) else ClassCast(spec.name)))
  {
    SchemaVectorIsCastTarget(spec);
  }

  /** With the vectors of the mapped schema, every multi-value field throws: its
      vector is a scalar vector, so the `(ListVector)` cast fails whenever the
      value gets that far. */
  lemma MultiValueFieldFails(spec: FieldSpec, v: Value)
    requires Supported(spec) && !spec.singleValue
    ensures FillMulti(spec, VectorFor(FieldFor(spec).value.arrowType), v).Err?
  {
    FieldForMatchesTable(spec);
  }

  /** A row is accepted exactly when every value is of its field's class. */
  predicate RowWellTyped(specs: seq<FieldSpec>, row: Row) {
    forall i :: 0 <= i < |specs| ==> Accepts(specs[i].storedType, ValueOf(row, specs[i].name))
  }

  /** For a schema of single-value fields, filling a row succeeds exactly when
      the row is well typed, and then yields each value's cell in field order. */
  lemma SingleValueRowFill(specs: seq<FieldSpec>, row: Row)
    requires ArrowSchemaFromPinotSchema(specs).Ok?
    requires forall i :: 0 <= i < |specs| ==> specs[i].singleValue
    ensures var r := FillRowFor(specs, ArrowSchemaFromPinotSchema(specs).value, row);
      && (r.Ok? <==> RowWellTyped(specs, row))
      && (r.Ok? ==> forall i :: 0 <= i < |specs| ==> r.value[i] == CellOf(specs[i].storedType, ValueOf(row, specs[i].name)))
  {
    FillRowOk(specs, VectorsFor(ArrowSchemaFromPinotSchema(specs).value), row);
    forall i | 0 <= i < |specs| {
      MappedFieldFill(specs, row, i);
    }
  }

  /** Field `i` of a single-value schema, filled against the vector its mapped field allocated. */
  lemma MappedFieldFill(specs: seq<FieldSpec>, row: Row, i: int)
    requires ArrowSchemaFromPinotSchema(specs).Ok?
    requires 0 <= i < |specs| && specs[i].singleValue
    ensures var r := FillField(specs[i], VectorsFor(ArrowSchemaFromPinotSchema(specs).value)[i], row);
      && (r.Ok? <==> Accepts(specs[i].storedType, ValueOf(row, specs[i].name)))
      && (r.Ok? ==> r.value == CellOf(specs[i].storedType, ValueOf(row, specs[i].name)))
  {
    FieldForMatchesTable(specs[i]);
    SingleValueFieldFill(specs[i], ValueOf(row, specs[i].name));
  }

  /** A schema with a multi-value field rejects every row. */
  lemma MultiValueRowsFail(specs: seq<FieldSpec>, row: Row, m: int)
    requires ArrowSchemaFromPinotSchema(specs).Ok?
    requires 0 <= m < |specs| && !specs[m].singleValue
    ensures FillRowFor(specs, ArrowSchemaFromPinotSchema(specs).value, row).Err?
  {
    var vecs := VectorsFor(ArrowSchemaFromPinotSchema(specs).value);
    FillRowOk(specs, vecs, row);
    FieldForMatchesTable(specs[m]);
    MultiValueFieldFails(specs[m], ValueOf(row, specs[m].name));
    assert FillField(specs[m], vecs[m], row).Err?;
  }
}
