# GenericRowArrowFileWriter in Dafny

Apache Pinot's segment-processing framework can buffer `GenericRow`s in Apache
Arrow files. `GenericRowArrowFileWriter` is the class that does this. This
project models that class as pure functions over an immutable writer state and
proves what it does. The class has three parts:

- **Schema mapping** (`getArrowSchemaFromPinotSchema`, module `SchemaMapping`).
  Each Pinot `FieldSpec` becomes one nullable Arrow field. The Arrow type comes
  from the spec's stored type and from whether the field is single- or
  multi-valued. An unsupported type throws "Unsupported data type".
- **Row fill** (`fillVectorsFromGenericRow`, module `RowFill`). Each field's
  value is written into the vector `VectorSchemaRoot` allocated for that field.
  Every cast, unboxing and dereference the code performs on a field's value or
  on the field's vector is modelled as a possible `ClassCastException` or
  `NullPointerException`. They happen in Java's evaluation order. A null row,
  a null spec list and a misbehaving `toString()` are not modelled (see
  "## Left out"). The vector class is derived from the schema's Arrow type,
  the same way Arrow derives it.
- **Batching writer** (`write`, `writeData`, `writeToFile`, `close`, the getters;
  module `BatchWriter`). Filled rows are pending in a batch. A batch is written
  as file `arrowDataFile<n>.arrow`:
  - by `write` when 1000 rows are pending;
  - by `writeData` when 2 are pending;
  - by `close` always.

  The Java `int` counters `_suffixCount`, `_totalNumRows` and
  `_currentChunkRowCount` wrap around explicitly (`JavaLang.Inc32`).
  `_batchRowCount` is the length of the pending batch. The output directory is a
  log of the files written, each with its suffix number, schema and rows.

Module `WriterRuns` treats arbitrary sequences of `write`, `writeData` and
`close` calls. A caller may catch a failed write and carry on. Module
`IntendedSchema` holds the corrected multi-value mapping described under
"Findings".

Two facts about the code shape the model:

- `close()` always writes a file, so an empty batch gives an empty file. There
  is no closed state: calls after `close()` go on writing.
- The class itself never appends to `_chunkRowCounts`, so the list
  `getChunkRowCounts()` returns stays empty unless a caller changes it.

## Model

Source paths are relative to the repository root.

| member | source | states |
|---|---|---|
| SchemaMapping.FieldForMatchesTable | pinot-core/src/main/java/org/apache/pinot/core/segment/processing/genericrow/GenericRowArrowFileWriter.java:72-136 | `FieldFor`, the body of the loop with its two switches: one spec maps to a field exactly when its type is supported (every scalar type single-valued, all but BYTES multi-valued); the field is the nullable scalar field named after the spec; otherwise the error names the stored type |
| SchemaMapping.SingleValueTable | pinot-core/src/main/java/org/apache/pinot/core/segment/processing/genericrow/GenericRowArrowFileWriter.java:73-105 | the single-value switch: INT→Int(32,signed), LONG→Int(64,signed), FLOAT→FloatingPoint(SINGLE), DOUBLE→FloatingPoint(DOUBLE), STRING→Utf8, BYTES→Binary, any other type throws |
| SchemaMapping.MultiValueRejects | pinot-core/src/main/java/org/apache/pinot/core/segment/processing/genericrow/GenericRowArrowFileWriter.java:108-135 | the multi-value switch has no BYTES case: multi-value BYTES and unknown types throw "Unsupported data type" |
| SchemaMapping.MultiValueSameAsSingleValue | pinot-core/src/main/java/org/apache/pinot/core/segment/processing/genericrow/GenericRowArrowFileWriter.java:108-133 | `ArrowType.List.Int` and its siblings are the inherited scalar classes, so a multi-value field gets the single-value field's type and never a List type |
| SchemaMapping.ArrowSchemaFromPinotSchema | pinot-core/src/main/java/org/apache/pinot/core/segment/processing/genericrow/GenericRowArrowFileWriter.java:65-140 | the mapping succeeds exactly when every spec is supported, giving one field per spec in order; otherwise it throws for the first unsupported spec's type |
| SchemaMapping.MappedFieldsNullable | pinot-core/src/main/java/org/apache/pinot/core/segment/processing/genericrow/GenericRowArrowFileWriter.java:75-130 | every mapped field is nullable, carries its spec's name, and has no children |
| ArrowTypes.VectorFor | pinot-core/src/main/java/org/apache/pinot/core/segment/processing/genericrow/GenericRowArrowFileWriter.java:56 | the vector class `VectorSchemaRoot.create` allocates for a field: a ListVector exactly for a List field, an IntVector exactly for Int(32, signed), a BigIntVector exactly for Int(64, signed) |
| RowFill.FillElement | pinot-core/src/main/java/org/apache/pinot/core/segment/processing/genericrow/GenericRowArrowFileWriter.java:181-240 | one list element is written exactly when it is of the class the code casts to (any non-null object for STRING); null throws NullPointerException, anything else ClassCastException |
| RowFill.FillElementsOk | pinot-core/src/main/java/org/apache/pinot/core/segment/processing/genericrow/GenericRowArrowFileWriter.java:181-185 | a list is written exactly when all its elements are accepted, and becomes their cells in order |
| RowFill.FillRow | pinot-core/src/main/java/org/apache/pinot/core/segment/processing/genericrow/GenericRowArrowFileWriter.java:142-251 | the loop of `fillVectorsFromGenericRow`: the fields in schema order, each through `FillSingle` or `FillMulti`, stopping at the first that throws; a filled row has one cell per field (its exact cells and first failure are stated by `RowFill.FillRowOk` and `RowFill.FillRowFirstFailure`) |
| RowFill.FillRowFor | pinot-core/src/main/java/org/apache/pinot/core/segment/processing/genericrow/GenericRowArrowFileWriter.java:143-146 | a row is filled against the vectors allocated from the writer's own schema, field `i` into vector `i`, giving one cell per field |
| RowFill.FillRowOk | pinot-core/src/main/java/org/apache/pinot/core/segment/processing/genericrow/GenericRowArrowFileWriter.java:142-251 | a row is filled exactly when every field is filled, and its cells are the fields' cells in schema order |
| RowFill.FillRowFirstFailure | pinot-core/src/main/java/org/apache/pinot/core/segment/processing/genericrow/GenericRowArrowFileWriter.java:145-249 | a row that fails throws the exception of the first field that throws |
| RowFill.SchemaVectorIsCastTarget | pinot-core/src/main/java/org/apache/pinot/core/segment/processing/genericrow/GenericRowArrowFileWriter.java:149-169 | for a single-value field, the vector allocated from the mapped field is the class the fill switch casts to |
| RowFill.SingleValueFieldFill | pinot-core/src/main/java/org/apache/pinot/core/segment/processing/genericrow/GenericRowArrowFileWriter.java:148-172 | `FillSingle`, the single-value switch: a single-value field is written exactly when its value has the accepted class, and becomes that value's cell; null throws NullPointerException, a wrong class ClassCastException |
| RowFill.MultiValueFieldFails | pinot-core/src/main/java/org/apache/pinot/core/segment/processing/genericrow/GenericRowArrowFileWriter.java:174-247 | `FillMulti`, the multi-value switch: against the vector of its mapped field, every multi-value field throws, because the `(ListVector)` cast meets a scalar vector |
| RowFill.SingleValueRowFill | pinot-core/src/main/java/org/apache/pinot/core/segment/processing/genericrow/GenericRowArrowFileWriter.java:142-172 | with a single-value schema, a row is filled exactly when it is well typed, giving each value's cell in field order |
| RowFill.MultiValueRowsFail | pinot-core/src/main/java/org/apache/pinot/core/segment/processing/genericrow/GenericRowArrowFileWriter.java:174-178 | a mapped schema with any multi-value field rejects every row |
| IntendedSchema.IntendedArrowSchema | pinot-core/src/main/java/org/apache/pinot/core/segment/processing/genericrow/GenericRowArrowFileWriter.java:107-136 | corrected mapping: it rejects the same specs with the same error, and otherwise builds a List field with the element field as its one child for each multi-value spec |
| IntendedSchema.IntendedAgreesOnSingleValue | pinot-core/src/main/java/org/apache/pinot/core/segment/processing/genericrow/GenericRowArrowFileWriter.java:72-106 | the corrected mapping leaves single-value fields exactly as written |
| IntendedSchema.IntendedRowFill | pinot-core/src/main/java/org/apache/pinot/core/segment/processing/genericrow/GenericRowArrowFileWriter.java:142-251 | with the corrected schema, a row is filled exactly when every value fits its field, multi-value lists included; it yields the fitted cells |
| IntendedSchema.TagsRowRejectedAsWritten | pinot-core/src/main/java/org/apache/pinot/core/segment/processing/genericrow/GenericRowArrowFileWriter.java:129-133 | as written, a multi-value STRING field holding ["a","b"] throws ClassCastException |
| IntendedSchema.TagsRowWrittenAsIntended | pinot-core/src/main/java/org/apache/pinot/core/segment/processing/genericrow/GenericRowArrowFileWriter.java:217-230 | with the corrected schema, the same row is written as one list of two strings |
| BatchWriter.Create | pinot-core/src/main/java/org/apache/pinot/core/segment/processing/genericrow/GenericRowArrowFileWriter.java:50-62 | the constructor throws exactly when the mapping does; otherwise every counter is zero, nothing is pending or written, and the invariant holds |
| BatchWriter.CreateIntended | pinot-core/src/main/java/org/apache/pinot/core/segment/processing/genericrow/GenericRowArrowFileWriter.java:50-62 | the constructor with the corrected schema fails on the same specs and otherwise differs only in the schema |
| BatchWriter.IntendedWriteAcceptsFittingRows | pinot-core/src/main/java/org/apache/pinot/core/segment/processing/genericrow/GenericRowArrowFileWriter.java:256-257 | a writer in any valid state on the corrected schema accepts a row through `write` exactly when every value fits its field, and adds it to its rows as the fitted cells |
| BatchWriter.IntendedWriteDataAcceptsFittingRows | pinot-core/src/main/java/org/apache/pinot/core/segment/processing/genericrow/GenericRowArrowFileWriter.java:313-314 | the same for `writeData` |
| BatchWriter.FileNameInjective | pinot-core/src/main/java/org/apache/pinot/core/segment/processing/genericrow/GenericRowArrowFileWriter.java:384 | `_filePrefix + n + _fileSuffix` is one-to-one in n |
| BatchWriter.FileName | pinot-core/src/main/java/org/apache/pinot/core/segment/processing/genericrow/GenericRowArrowFileWriter.java:384 | `_filePrefix + n + _fileSuffix`: the name starts with "arrowDataFile", ends with ".arrow", and has the number in between |
| BatchWriter.WriteToFile | pinot-core/src/main/java/org/apache/pinot/core/segment/processing/genericrow/GenericRowArrowFileWriter.java:383-400 | the pending batch becomes the file numbered `_suffixCount` with the writer's schema; the suffix advances with wrap-around; the batch and chunk count reset; the rows, total and chunk list are kept |
| BatchWriter.AddFilledRow | pinot-core/src/main/java/org/apache/pinot/core/segment/processing/genericrow/GenericRowArrowFileWriter.java:261-310 | the bookkeeping after a successful fill: at the threshold, the batch with the row becomes the next file and the chunk count is left at 1; below it, the row is pending and the chunk count goes up by one. Either way the row joins the writer's rows, the total goes up by one with wrap-around, and fewer rows than the threshold stay pending |
| BatchWriter.Append | pinot-core/src/main/java/org/apache/pinot/core/segment/processing/genericrow/GenericRowArrowFileWriter.java:256-311 | the body shared by `write` and `writeData`: it throws exactly when the fill throws, with the fill's exception. Otherwise the writer stays valid and the filled row joins its rows, the total goes up by one with wrap-around, and fewer rows than the threshold stay pending. At the threshold the batch with the row becomes the next file and the chunk count is 1; below it the row is pending and the chunk count goes up by one |
| BatchWriter.Write | pinot-core/src/main/java/org/apache/pinot/core/segment/processing/genericrow/GenericRowArrowFileWriter.java:256-311 | `write` throws exactly when the fill does. Otherwise the row joins the writer's rows and the total advances. A flush happens exactly when the batch reaches 1000, writing the batch with the row and leaving the chunk count at 1; below that the row is pending and the chunk count goes up by one |
| BatchWriter.WriteData | pinot-core/src/main/java/org/apache/pinot/core/segment/processing/genericrow/GenericRowArrowFileWriter.java:313-369 | `writeData` does the same with a flush at 2 pending rows, and returns 0 |
| BatchWriter.Close | pinot-core/src/main/java/org/apache/pinot/core/segment/processing/genericrow/GenericRowArrowFileWriter.java:404-406 | `close` always writes the pending batch as one more file under the current suffix, which advances; the chunk count resets to 0, the total is kept, and all rows accepted are in files afterwards |
| BatchWriter.TotalNumRows | pinot-core/src/main/java/org/apache/pinot/core/segment/processing/genericrow/GenericRowArrowFileWriter.java:371-373 | `getTotalNumRows` is the number of rows written or pending, narrowed to an `int` |
| BatchWriter.ChunkRowCounts | pinot-core/src/main/java/org/apache/pinot/core/segment/processing/genericrow/GenericRowArrowFileWriter.java:379-381 | `getChunkRowCounts` is empty for any valid writer, because the class itself never appends to the list |
| BatchWriter.ArrowSchema | pinot-core/src/main/java/org/apache/pinot/core/segment/processing/genericrow/GenericRowArrowFileWriter.java:375-377 | `getArrowSchema` has one field per field spec |
| BatchWriter.FileNamesDistinct | pinot-core/src/main/java/org/apache/pinot/core/segment/processing/genericrow/GenericRowArrowFileWriter.java:384 | while the suffix counter has not wrapped all the way round, no two written files share a name |
| BatchWriter.MultiValueWritesFail | pinot-core/src/main/java/org/apache/pinot/core/segment/processing/genericrow/GenericRowArrowFileWriter.java:256-257 | a writer whose schema has a multi-value field rejects every `write` and `writeData` |
| WriterRuns.StepEffect | pinot-core/src/main/java/org/apache/pinot/core/segment/processing/genericrow/GenericRowArrowFileWriter.java:256-406 | one call adds the filled row, if any, to the writer's rows. A failed fill changes nothing. A filled row makes one more file exactly at the call's threshold, and otherwise joins the batch. `close` writes the batch as one more file |
| WriterRuns.Step | pinot-core/src/main/java/org/apache/pinot/core/segment/processing/genericrow/GenericRowArrowFileWriter.java:256-406 | one call keeps the writer valid, with its specs and schema. It appends at most one file to the log and never changes an earlier file |
| WriterRuns.StepIsCall | pinot-core/src/main/java/org/apache/pinot/core/segment/processing/genericrow/GenericRowArrowFileWriter.java:256-406 | a step is the `write`, `writeData` or `close` it names |
| WriterRuns.Run | pinot-core/src/main/java/org/apache/pinot/core/segment/processing/genericrow/GenericRowArrowFileWriter.java:256-406 | over any sequence of calls the writer stays valid and only appends files; the files then the pending batch hold the earlier rows followed by every filled row, in call order: no loss, duplication or reordering |
| WriterRuns.RunCountsAcceptedRows | pinot-core/src/main/java/org/apache/pinot/core/segment/processing/genericrow/GenericRowArrowFileWriter.java:309-310 | after any calls, `getTotalNumRows` counts every accepted row, narrowed to an `int` |
| WriterRuns.CreatedRunKeepsEveryRow | pinot-core/src/main/java/org/apache/pinot/core/segment/processing/genericrow/GenericRowArrowFileWriter.java:50-62 | from a fresh writer, the rows after any calls are exactly the filled rows, and the total counts them |
| WriterRuns.RunStaysBelowThreshold | pinot-core/src/main/java/org/apache/pinot/core/segment/processing/genericrow/GenericRowArrowFileWriter.java:318-319 | calls that all flush at the same threshold keep fewer rows pending than that threshold; with `writeData` at most one |
| WriterRuns.StepBelowThreshold | pinot-core/src/main/java/org/apache/pinot/core/segment/processing/genericrow/GenericRowArrowFileWriter.java:261-262 | a call that brings the batch to its threshold makes one more file and empties the batch; below it the batch grows by the filled row |
| WriterRuns.WriteDataPairMakesOneFile | pinot-core/src/main/java/org/apache/pinot/core/segment/processing/genericrow/GenericRowArrowFileWriter.java:313-369 | two successful `writeData` calls on an empty batch write both rows, in order, as the next file |
| WriterRuns.CloseTwiceWritesEmptyFile | pinot-core/src/main/java/org/apache/pinot/core/segment/processing/genericrow/GenericRowArrowFileWriter.java:404-406 | a second `close` writes an empty file under the next suffix and changes no counts |
| JavaLang.IncToInt32 | pinot-core/src/main/java/org/apache/pinot/core/segment/processing/genericrow/GenericRowArrowFileWriter.java:309-310 | `x++` on an `int` holding n narrowed holds n+1 narrowed |
| JavaLang.Inc32 | pinot-core/src/main/java/org/apache/pinot/core/segment/processing/genericrow/GenericRowArrowFileWriter.java:309-310 | Java `x++` on an `int` gives the narrowing of x + 1 to an `int`, so the largest `int` is followed by the smallest |
| JavaLang.IntToStringInjective | pinot-core/src/main/java/org/apache/pinot/core/segment/processing/genericrow/GenericRowArrowFileWriter.java:384 | distinct `int`s render as distinct decimal strings in the file name |

## Left out

- Arrow IPC output is left out: the file format, channels, `ArrowFileWriter.start/writeBatch/end`. A file is modelled as its suffix, schema and rows.
- `VectorSchemaRoot`, `RootAllocator` and buffer allocation are left out. The per-element `RootAllocator(Long.MAX_VALUE)` for STRING and BYTES lists is not modelled; it leaks but does not change the data.
- The `IOException` path of `writeToFile` (lines 391-393) is left out, because file-system failures are outside the model. `WriteToFile` always succeeds.
- `_outputDir` and the `File` objects are left out; only file names are modelled.
- `DEFAULT_DIRECT_MEMORY_ALLOCATION_SIZE_IN_BYTES`, `DEFAULT_BATCH_SIZE_BYTES` and `_currentBufferSize` are not modelled. Nothing but the constructor and `writeToFile` writes `_currentBufferSize`, and nothing reads it. The byte-size flush conditions exist only as commented-out code.
- Floating-point values are kept as raw bit patterns. `String.getBytes()` in the platform charset is an uninterpreted `VarCharCell` holding the value.
- Arrow's handling of a value with no `Field` children for a list, and of `setValueCount` on a list writer, is not modelled. Only the fill's success and its cells are.
- `ArrowFileReaderUtil.java` is not part of this model: it is a debugging `main` that prints one column (`low_cardinality_string`) of one hard-coded file path, and is not called by the writer. `FileWriter.java` is the interface the class claims to implement (line 32), but the signatures clash: the interface declares `long write(T dataUnit)` (FileWriter.java line 8), while the class declares `public void write(GenericRow row)` (line 256), so the class as given does not compile. The model takes the method bodies as written.
- After a failed `write`, the model keeps the writer as it was. The cells the Java code already set at index `_batchRowCount` lie beyond the root's row count, and later writes overwrite them or `clear()` drops them.
- PinotTypes.ValueOf: a `GenericRow` is modelled as a non-null map from field name to value, and `row.getValue(name)` for an absent name reads as `null`. `GenericRow` itself is not part of this model.
- A null `row` passed to `write` or `writeData` is not modelled. It throws `NullPointerException` at the first `row.getValue` (line 151 and its siblings); with no fields at all, the call succeeds and counts a row.
- A null `fieldSpecs` list, or a null element in it, is not modelled. The constructor would throw `NullPointerException` at lines 68-69.
- A `toString()` that returns null or throws is not modelled. In the code that raises an exception at `.getBytes()` (lines 163 and 222) or inside `toString()`; the model's `StringObj` and `OtherObj` values always render.
- BatchWriter.ChunkRowCounts: `getChunkRowCounts` returns the internal mutable `_chunkRowCounts` list itself (line 380), and the fields at lines 41-48 are package-private. A caller that appends to that list makes later calls return it non-empty. Mutation by callers is not modelled; the contract states what the class itself does.
- BatchWriter.Create: the constructor keeps the caller's list as `_fieldSpecs` (line 59) without copying it. A caller that changes the list afterwards makes `fillVectorsFromGenericRow` walk specs that no longer match the allocated vectors: `fieldVectors.get(count++)` (line 146) can throw `IndexOutOfBoundsException`, and the casts can fail. The model takes the specs as an immutable value fixed at construction.
- BatchWriter.ArrowSchema: the contract says only that the schema has one field per spec. Its relation to the specs is stated at construction by `BatchWriter.Create` and `BatchWriter.CreateIntended`.
- WriterRuns.RunStaysBelowThreshold: the exact count over a run of calls is not proved. With n rows written through `write` or `writeData` alone, that count is n div t files and n mod t rows pending. The per-call flush facts, `WriterRuns.StepBelowThreshold` and the bound on pending rows, are proved.

## Findings

| source | as written | input that shows it | evidently intended | confidence | as-written member | corrected member |
|---|---|---|---|---|---|---|
| pinot-core/src/main/java/org/apache/pinot/core/segment/processing/genericrow/GenericRowArrowFileWriter.java:107-136 | the multi-value branch builds `new ArrowType.List.Int(32, true)` and similar. These name the nested classes `ArrowType.Int`, `ArrowType.FloatingPoint` and `ArrowType.Utf8`, which `ArrowType.List` inherits, so the field is scalar. The fill's `(ListVector) fieldVector` cast (line 178 and its siblings) then throws for every row | spec `tags`: multi-value STRING; row `{tags: ["a", "b"]}` throws ClassCastException | a `List` field whose single child holds the element type, so that multi-value rows are written as lists | not executed | IntendedSchema.TagsRowRejectedAsWritten | IntendedSchema.TagsRowWrittenAsIntended |

The general as-written behaviour is stated by `SchemaMapping.MultiValueSameAsSingleValue` and
`RowFill.MultiValueRowsFail`. The general corrected behaviour is stated by
`IntendedSchema.IntendedArrowSchema`, `IntendedSchema.IntendedRowFill` and
`BatchWriter.IntendedWriteAcceptsFittingRows` and `BatchWriter.IntendedWriteDataAcceptsFittingRows`. `BatchWriter.Create` keeps the schema as written, so that the writer's model matches the code. `BatchWriter.CreateIntended` builds the same writer on the corrected schema, and every writer operation and run lemma applies to it unchanged.
