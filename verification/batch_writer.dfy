/** `GenericRowArrowFileWriter`: a pending batch of filled rows, the counters the
    class keeps, and the log of Arrow files it has written to its output
    directory. `write` flushes at 1000 pending rows, `writeData` at 2, `close`
    always. */
module BatchWriter {
  import opened JavaLang
  import opened PinotTypes
  import opened ArrowTypes
  import opened Errors
  import opened SchemaMapping
  import opened RowFill
  import opened IntendedSchema

  const FILE_PREFIX: string := "arrowDataFile"
  const FILE_SUFFIX: string := ".arrow"
  /** Row count at which `write` flushes. */
  const WRITE_FLUSH_ROWS: nat := 1000
  /** Row count at which `writeData` flushes. */
  const WRITE_DATA_FLUSH_ROWS: nat := 2

  /** One file written by `writeToFile`: the suffix number in its name, and the
      schema and rows it holds. */
  datatype ArrowFile = ArrowFile(suffix: int32, schema: seq<ArrowField>, rows: seq<seq<Cell>>) {
    /** The file's name in the output directory. */
    function Name(): string {
      FileName(suffix)
    }
  }

  /** The writer's state. `batch` holds the rows filled since the last flush,
      so `_batchRowCount` is `|batch|`; `files` is the output directory's log. */
  datatype Writer = Writer(
    specs: seq<FieldSpec>,
    schema: seq<ArrowField>,
    suffixCount: int32,
    batch: seq<seq<Cell>>,
    totalNumRows: int32,
    currentChunkRowCount: int32,
    chunkRowCounts: seq<int32>,
    files: seq<ArrowFile>)

  /** `_filePrefix + n + _fileSuffix`. */
  function FileName(n: int32): (s: string)
    ensures |s| > |FILE_PREFIX| + |FILE_SUFFIX|
    ensures s[..|FILE_PREFIX|] == FILE_PREFIX
    ensures s[|s| - |FILE_SUFFIX|..] == FILE_SUFFIX
  {
    FILE_PREFIX + IntToString(n as int) + FILE_SUFFIX
  }

  /** Different suffix numbers give different file names. */
  lemma FileNameInjective(a: int32, b: int32)
    requires FileName(a) == FileName(b)
    ensures a == b
  {
    var s := FileName(a);
    var lo := |FILE_PREFIX|;
    assert IntToString(a as int) == s[lo..|s| - |FILE_SUFFIX|];
    assert IntToString(b as int) == s[lo..|s| - |FILE_SUFFIX|];
    IntToStringInjective(a as int, b as int);
  }

  /** All rows of the written files, file after file. */
  function Emitted(files: seq<ArrowFile>): seq<seq<Cell>>
    decreases |files|
  {
    if |files| == 0 then [] else Emitted(files[..|files| - 1]) + files[|files| - 1].rows
  }

  /** Every row the writer has accepted: the rows of its files, then the pending batch. */
  function Rows(w: Writer): seq<seq<Cell>> {
    Emitted(w.files) + w.batch
  }

  lemma EmittedAppend(files: seq<ArrowFile>, f: ArrowFile)
    ensures Emitted(files + [f]) == Emitted(files) + f.rows
  {
    assert (files + [f])[..|files|] == files;
  }

  /** File `i` of the log is named after suffix `i` (narrowed to an `int`) and
      holds the writer's schema. */
  predicate FilesNumbered(files: seq<ArrowFile>, schema: seq<ArrowField>) {
    forall i :: 0 <= i < |files| ==> files[i].suffix == ToInt32(i) && files[i].schema == schema
  }

  /** Logging the file named after the next suffix keeps the log numbered. */
  lemma FilesNumberedAppend(files: seq<ArrowFile>, schema: seq<ArrowField>, file: ArrowFile)
    requires FilesNumbered(files, schema)
    requires file.suffix == ToInt32(|files|) && file.schema == schema
    ensures FilesNumbered(files + [file], schema)
  {
    var files' := files + [file];
    forall i | 0 <= i < |files'|
      ensures files'[i].suffix == ToInt32(i) && files'[i].schema == schema
    {
      if i < |files| {
        assert files'[i] == files[i];
      }
    }
  }

  /** The log and the suffix counter agree: the next suffix is the number of
      files written, narrowed to an `int`. */
  predicate LogConsistent(w: Writer) {
    w.suffixCount == ToInt32(|w.files|) && FilesNumbered(w.files, w.schema)
  }

  /** The invariant every writer the class hands out satisfies between calls. */
  predicate Valid(w: Writer) {
    && |w.schema| == |w.specs|
    && LogConsistent(w)
    && |w.batch| < WRITE_FLUSH_ROWS
    && w.totalNumRows == ToInt32(|Rows(w)|)
    && |w.batch| <= w.currentChunkRowCount as int <= |w.batch| + 1
    && w.chunkRowCounts == []
  }

  /** The constructor: maps the schema (throwing if it cannot) and starts with
      every counter at zero and nothing written. */
  function Create(specs: seq<FieldSpec>): (r: Result<Writer>)
    ensures r.Ok? <==> forall i :: 0 <= i < |specs| ==> Supported(specs[i])
    ensures r.Err? ==> exists i :: FirstUnsupported(specs, i) && r.error == UnsupportedDataType(specs[i].storedType)
    ensures r.Ok? ==> Valid(r.value) && r.value.specs == specs
    ensures r.Ok? ==> r.value.schema == ArrowSchemaFromPinotSchema(specs).value
    ensures r.Ok? ==> r.value.files == [] && r.value.batch == [] && r.value.totalNumRows == 0
    ensures r.Ok? ==> r.value.suffixCount == 0 && r.value.currentChunkRowCount == 0
  {
    match ArrowSchemaFromPinotSchema(specs)
    case Err(e) => Err(e)
    case Ok(schema) => Ok(Writer(specs, schema, 0, [], 0, 0, [], []))
  }

  /** The constructor with the corrected schema: it fails on the same specs
      with the same error, and otherwise starts the same way. */
  function CreateIntended(specs: seq<FieldSpec>): (r: Result<Writer>)
    ensures r.Ok? <==> Create(specs).Ok?
    ensures r.Err? ==> r.error == Create(specs).error
    ensures r.Ok? ==> Valid(r.value) && r.value == Create(specs).value.(schema := r.value.schema)
    ensures r.Ok? ==> forall i :: 0 <= i < |specs| ==> r.value.schema[i] == IntendedFieldOf(specs[i])
  {
    match IntendedArrowSchema(specs)
    case Err(e) => Err(e)
    case Ok(schema) => Ok(Writer(specs, schema, 0, [], 0, 0, [], []))
  }

  /** `writeToFile`: writes the pending batch as file number `_suffixCount`,
      advances the suffix, and clears the batch. Nothing else changes; in
      particular `_chunkRowCounts` is not appended to and the total is kept. */
  function WriteToFile(w: Writer): (r: Writer)
    requires LogConsistent(w)
    ensures LogConsistent(r)
    ensures r.files == w.files + [ArrowFile(w.suffixCount, w.schema, w.batch)]
    ensures Rows(r) == Rows(w)
    ensures r.batch == [] && r.currentChunkRowCount == 0
    ensures r.suffixCount == Inc32(w.suffixCount)
    ensures r.specs == w.specs && r.schema == w.schema
    ensures r.totalNumRows == w.totalNumRows && r.chunkRowCounts == w.chunkRowCounts
  {
    var file := ArrowFile(w.suffixCount, w.schema, w.batch);
    EmittedAppend(w.files, file);
    FilesNumberedAppend(w.files, w.schema, file);
    IncToInt32(|w.files|);
    w.(files := w.files + [file], suffixCount := Inc32(w.suffixCount), batch := [], currentChunkRowCount := 0)
  }

  /** A filled row that completes the batch: `writeToFile` with the row
      included, then `_currentChunkRowCount++` and `_totalNumRows++` on the
      reset counters. */
  function FlushWithRow(w: Writer, cells: seq<Cell>): (r: Writer)
    requires Valid(w)
    ensures Valid(r)
    ensures r.specs == w.specs && r.schema == w.schema
    ensures r.totalNumRows == Inc32(w.totalNumRows)
    ensures r.files == w.files + [ArrowFile(w.suffixCount, w.schema, w.batch + [cells])]
    ensures r.batch == [] && r.currentChunkRowCount == 1
    ensures Rows(r) == Rows(w) + [cells]
  {
    var n := |Rows(w)|;
    var flushed := WriteToFile(w.(batch := w.batch + [cells]));
    assert |Rows(flushed)| == n + 1;
    IncToInt32(n);
    flushed.(currentChunkRowCount := Inc32(flushed.currentChunkRowCount), totalNumRows := Inc32(flushed.totalNumRows))
  }

  /** A filled row that leaves the batch below the threshold: it joins the
      batch and both counters advance. */
  function KeepRow(w: Writer, cells: seq<Cell>): (r: Writer)
    requires Valid(w)
    requires |w.batch| + 1 < WRITE_FLUSH_ROWS
    ensures Valid(r)
    ensures r.specs == w.specs && r.schema == w.schema
    ensures r.totalNumRows == Inc32(w.totalNumRows)
    ensures r.files == w.files && r.batch == w.batch + [cells]
    ensures r.currentChunkRowCount as int == w.currentChunkRowCount as int + 1
  {
    IncToInt32(|Rows(w)|);
    w.(batch := w.batch + [cells], currentChunkRowCount := Inc32(w.currentChunkRowCount), totalNumRows := Inc32(w.totalNumRows))
  }

  /** The pending-row bookkeeping once a row's cells are filled: flush when
      the batch reaches `threshold`, then count the row. */
  function AddFilledRow(w: Writer, cells: seq<Cell>, threshold: nat): (r: Writer)
    requires Valid(w)
    requires 1 <= threshold <= WRITE_FLUSH_ROWS
    ensures Valid(r)
    ensures |r.batch| < threshold
    ensures r.specs == w.specs && r.schema == w.schema
    ensures r.totalNumRows == Inc32(w.totalNumRows)
    ensures Rows(r) == Rows(w) + [cells]
    ensures |w.batch| + 1 >= threshold ==>
      && r.files == w.files + [ArrowFile(w.suffixCount, w.schema, w.batch + [cells])]
      && r.batch == [] && r.currentChunkRowCount == 1
    ensures |w.batch| + 1 < threshold ==>
      && r.files == w.files && r.batch == w.batch + [cells]
      && r.currentChunkRowCount as int == w.currentChunkRowCount as int + 1
  {
    if |w.batch| + 1 >= threshold then FlushWithRow(w, cells) else KeepRow(w, cells)
  }

  /** The body shared by `write` and `writeData`: fill the row, then do the
      bookkeeping. A row whose fill throws changes nothing. */
  function Append(w: Writer, row: Row, threshold: nat): (r: Result<Writer>)
    requires Valid(w)
    requires 1 <= threshold <= WRITE_FLUSH_ROWS
    ensures r.Ok? <==> FillRowFor(w.specs, w.schema, row).Ok?
    ensures r.Err? ==> r.error == FillRowFor(w.specs, w.schema, row).error
    ensures r.Ok? ==> Valid(r.value) && r.value.specs == w.specs && r.value.schema == w.schema
    ensures r.Ok? ==> Rows(r.value) == Rows(w) + [FillRowFor(w.specs, w.schema, row).value]
    ensures r.Ok? ==> r.value.totalNumRows == Inc32(w.totalNumRows) && |r.value.batch| < threshold
    ensures r.Ok? && |w.batch| + 1 >= threshold ==>
      && r.value.files == w.files + [ArrowFile(w.suffixCount, w.schema, w.batch + [FillRowFor(w.specs, w.schema, row).value])]
      && r.value.batch == [] && r.value.currentChunkRowCount == 1
    ensures r.Ok? && |w.batch| + 1 < threshold ==>
      && r.value.files == w.files && r.value.batch == w.batch + [FillRowFor(w.specs, w.schema, row).value]
      && r.value.currentChunkRowCount as int == w.currentChunkRowCount as int + 1
  {
    match FillRowFor(w.specs, w.schema, row)
    case Err(e) => Err(e)
    case Ok(cells) => Ok(AddFilledRow(w, cells, threshold))
  }

  /** `write`: a flush happens exactly when the row brings the batch to 1000 rows,
      and fewer than 1000 rows are pending afterwards. */
  function Write(w: Writer, row: Row): (r: Result<Writer>)
    requires Valid(w)
    ensures r.Ok? <==> FillRowFor(w.specs, w.schema, row).Ok?
    ensures r.Err? ==> r.error == FillRowFor(w.specs, w.schema, row).error
    ensures r.Ok? ==> r.value.specs == w.specs && r.value.schema == w.schema
    ensures r.Ok? ==> Rows(r.value) == Rows(w) + [FillRowFor(w.specs, w.schema, row).value]
    ensures r.Ok? ==> Valid(r.value) && r.value.totalNumRows == Inc32(w.totalNumRows)
    ensures r.Ok? ==> (|r.value.files| == |w.files| + 1 <==> |w.batch| + 1 == WRITE_FLUSH_ROWS)
    ensures r.Ok? ==> |r.value.files| <= |w.files| + 1 && |r.value.batch| < WRITE_FLUSH_ROWS
    ensures r.Ok? && |w.batch| + 1 == WRITE_FLUSH_ROWS ==>
      && r.value.files == w.files + [ArrowFile(w.suffixCount, w.schema, w.batch + [FillRowFor(w.specs, w.schema, row).value])]
      && r.value.batch == [] && r.value.currentChunkRowCount == 1
    ensures r.Ok? && |w.batch| + 1 < WRITE_FLUSH_ROWS ==>
      && r.value.files == w.files && r.value.batch == w.batch + [FillRowFor(w.specs, w.schema, row).value]
      && r.value.currentChunkRowCount as int == w.currentChunkRowCount as int + 1
  {
    Append(w, row, WRITE_FLUSH_ROWS)
  }

  /** `writeData`: the same with a flush once 2 rows are pending; it always
      returns 0, and at most one row stays pending. */
  function WriteData(w: Writer, row: Row): (r: Result<(Writer, int64)>)
    requires Valid(w)
    ensures r.Ok? <==> FillRowFor(w.specs, w.schema, row).Ok?
    ensures r.Err? ==> r.error == FillRowFor(w.specs, w.schema, row).error
    ensures r.Ok? ==> r.value.1 == 0
    ensures r.Ok? ==> r.value.0.specs == w.specs && r.value.0.schema == w.schema
    ensures r.Ok? ==> Rows(r.value.0) == Rows(w) + [FillRowFor(w.specs, w.schema, row).value]
    ensures r.Ok? && |w.batch| + 1 >= WRITE_DATA_FLUSH_ROWS ==>
      && r.value.0.files == w.files + [ArrowFile(w.suffixCount, w.schema, w.batch + [FillRowFor(w.specs, w.schema, row).value])]
      && r.value.0.batch == [] && r.value.0.currentChunkRowCount == 1
    ensures r.Ok? && |w.batch| + 1 < WRITE_DATA_FLUSH_ROWS ==>
      && r.value.0.files == w.files && r.value.0.batch == w.batch + [FillRowFor(w.specs, w.schema, row).value]
      && r.value.0.currentChunkRowCount as int == w.currentChunkRowCount as int + 1
    ensures r.Ok? ==> Valid(r.value.0) && r.value.0.totalNumRows == Inc32(w.totalNumRows)
    ensures r.Ok? ==> (|r.value.0.files| == |w.files| + 1 <==> |w.batch| + 1 >= WRITE_DATA_FLUSH_ROWS)
    ensures r.Ok? ==> |r.value.0.files| <= |w.files| + 1 && |r.value.0.batch| < WRITE_DATA_FLUSH_ROWS
  {
    match Append(w, row, WRITE_DATA_FLUSH_ROWS)
    case Err(e) => Err(e)
    case Ok(w') => Ok((w', 0))
  }

  /** `close`: flushes unconditionally, so even an empty batch becomes a file. */
  function Close(w: Writer): (r: Writer)
    requires Valid(w)
    ensures Valid(r)
    ensures r.files == w.files + [ArrowFile(w.suffixCount, w.schema, w.batch)]
    ensures r.batch == [] && r.currentChunkRowCount == 0
    ensures r.suffixCount == Inc32(w.suffixCount) && r.totalNumRows == w.totalNumRows
    ensures Emitted(r.files) == Rows(w)
  {
    WriteToFile(w)
  }

  /** `getTotalNumRows`: every row accepted so far, written or pending. */
  function TotalNumRows(w: Writer): (n: int32)
    requires Valid(w)
    ensures n == ToInt32(|Rows(w)|)
  {
    w.totalNumRows
  }

  /** `getChunkRowCounts`: never appended to, so always empty. */
  function ChunkRowCounts(w: Writer): (counts: seq<int32>)
    requires Valid(w)
    ensures counts == []
  {
    w.chunkRowCounts
  }

  /** `getArrowSchema`: the schema fixed at construction, one field per spec. */
  function ArrowSchema(w: Writer): (schema: seq<ArrowField>)
    requires Valid(w)
    ensures |schema| == |w.specs|
  {
    w.schema
  }

  /** Written files never share a name as long as the suffix counter has not
      wrapped all the way round. */
  lemma FileNamesDistinct(w: Writer, i: int, j: int)
    requires FilesNumbered(w.files, w.schema)
    requires 0 <= i < j < |w.files| && |w.files| <= TWO_32
    ensures w.files[i].Name() != w.files[j].Name()
  {
    ToInt32InjectiveOnWindow(i, j);
    if w.files[i].Name() == w.files[j].Name() {
      FileNameInjective(ToInt32(i), ToInt32(j));
    }
  }

  /** A writer built with the mapping as written accepts no row once its
      schema has a multi-value field. */
  lemma MultiValueWritesFail(w: Writer, row: Row, m: int)
    requires Valid(w) && ArrowSchemaFromPinotSchema(w.specs) == Ok(w.schema)
    requires 0 <= m < |w.specs| && !w.specs[m].singleValue
    ensures Write(w, row).Err? && WriteData(w, row).Err?
  {
    MultiValueRowsFail(w.specs, row, m);
  }
  /** A writer on the corrected schema, in any state, accepts a row through
      `write` exactly when every value fits its field, multi-value fields
      included, and adds it to its rows as the fitted cells. */
  lemma IntendedWriteAcceptsFittingRows(w: Writer, row: Row)
    requires Valid(w) && IntendedArrowSchema(w.specs) == Ok(w.schema)
    ensures Write(w, row).Ok? <==> RowFits(w.specs, row)
    ensures RowFits(w.specs, row) ==> Rows(Write(w, row).value) == Rows(w) + [FittedRow(w.specs, row)]
  {
    IntendedRowFill(w.specs, row);
    var f := FillRowFor(w.specs, w.schema, row);
    if f.Ok? {
      assert f.value == FittedRow(w.specs, row);
    }
  }

  /** The same for `writeData`. */
  lemma IntendedWriteDataAcceptsFittingRows(w: Writer, row: Row)
    requires Valid(w) && IntendedArrowSchema(w.specs) == Ok(w.schema)
    ensures WriteData(w, row).Ok? <==> RowFits(w.specs, row)
    ensures RowFits(w.specs, row) ==> Rows(WriteData(w, row).value.0) == Rows(w) + [FittedRow(w.specs, row)]
  {
    IntendedRowFill(w.specs, row);
    var f := FillRowFor(w.specs, w.schema, row);
    if f.Ok? {
      assert f.value == FittedRow(w.specs, row);
    }
  }
}
