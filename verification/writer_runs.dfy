/** Sequences of calls on one writer: `write`, `writeData` and `close` in any
    order, with a caller that catches a failed write and carries on. */
module WriterRuns {
  import opened JavaLang
  import opened PinotTypes
  import opened ArrowTypes
  import opened Errors
  import opened SchemaMapping
  import opened RowFill
  import opened BatchWriter

  datatype Op = WriteOp(row: Row) | WriteDataOp(row: Row) | CloseOp

  /** The pending-row count at which a call flushes. */
  function Threshold(op: Op): nat {
    match op
    case WriteOp(_) => WRITE_FLUSH_ROWS
    case WriteDataOp(_) => WRITE_DATA_FLUSH_ROWS
    case CloseOp => 0
  }

  /** The cells a call adds to the writer's rows: the filled row when the
      call writes one and its fill succeeds, nothing otherwise. */
  function Filled(specs: seq<FieldSpec>, schema: seq<ArrowField>, op: Op): (rows: seq<seq<Cell>>)
    requires |specs| == |schema|
    ensures |rows| <= 1
  {
    if op.CloseOp? then []
    else
      match FillRowFor(specs, schema, op.row)
      case Ok(cells) => [cells]
      case Err(_) => []
  }

  /** One call. A write whose fill throws leaves the writer as it was. */
  function Step(w: Writer, op: Op): (r: Writer)
    requires Valid(w)
    ensures Valid(r) && r.specs == w.specs && r.schema == w.schema
    ensures |w.files| <= |r.files| <= |w.files| + 1 && r.files[..|w.files|] == w.files
  {
    if op.CloseOp? then
      assert (w.files + [ArrowFile(w.suffixCount, w.schema, w.batch)])[..|w.files|] == w.files;
      WriteToFile(w)
    else
      match FillRowFor(w.specs, w.schema, op.row)
      case Err(_) => w
      case Ok(cells) =>
        var r := AddFilledRow(w, cells, Threshold(op));
        assert |w.batch| + 1 >= Threshold(op) ==> r.files[..|w.files|] == w.files;
        r
  }

  /** What one call does to the rows and the files: it adds the filled row, if
      any, to the writer's rows; a write whose fill throws changes nothing; a
      filled row completes the batch into one more file exactly at the call's
      threshold; `close` writes the pending batch as one more file. */
  lemma StepEffect(w: Writer, op: Op)
    requires Valid(w)
    ensures var r := Step(w, op);
      && Rows(r) == Rows(w) + Filled(w.specs, w.schema, op)
      && (!op.CloseOp? && FillRowFor(w.specs, w.schema, op.row).Err? ==> r == w)
      && (!op.CloseOp? && FillRowFor(w.specs, w.schema, op.row).Ok? ==>
        && (|w.batch| + 1 >= Threshold(op) ==> |r.files| == |w.files| + 1 && r.batch == [])
        && (|w.batch| + 1 < Threshold(op) ==> r.files == w.files && |r.batch| == |w.batch| + 1))
      && (op.CloseOp? ==> |r.files| == |w.files| + 1 && r.files[|w.files|].rows == w.batch && r.batch == [])
  {
  }

  /** A step is the call it names: `write`, `writeData` or `close`, with the
      writer left as it was when the call throws. */
  lemma StepIsCall(w: Writer, op: Op)
    requires Valid(w)
    ensures op.WriteOp? ==> Step(w, op) == (if Write(w, op.row).Ok? then Write(w, op.row).value else w)
    ensures op.WriteDataOp? ==> Step(w, op) == (if WriteData(w, op.row).Ok? then WriteData(w, op.row).value.0 else w)
    ensures op.CloseOp? ==> Step(w, op) == Close(w)
  {
  }

  /** Every row the calls fill, in call order. */
  function Accepted(specs: seq<FieldSpec>, schema: seq<ArrowField>, ops: seq<Op>): (rows: seq<seq<Cell>>)
    requires |specs| == |schema|
    ensures |rows| <= |ops|
    decreases |ops|
  {
    if |ops| == 0 then [] else Filled(specs, schema, ops[0]) + Accepted(specs, schema, ops[1..])
  }

  /** The writer after a sequence of calls: it stays valid, keeps its schema,
      and only ever appends to the file log. No row is lost, duplicated or
      reordered: the rows of the written files followed by the pending rows are
      the rows there were before, followed by every row the calls filled, in
      call order. */
  function Run(w: Writer, ops: seq<Op>): (r: Writer)
    requires Valid(w)
    ensures Valid(r) && r.specs == w.specs && r.schema == w.schema
    ensures |w.files| <= |r.files| && r.files[..|w.files|] == w.files
    ensures Rows(r) == Rows(w) + Accepted(w.specs, w.schema, ops)
    decreases |ops|
  {
    if |ops| == 0 then
      assert Rows(w) + Accepted(w.specs, w.schema, ops) == Rows(w);
      w
    else
      var w1 := Step(w, ops[0]);
      StepEffect(w, ops[0]);
      var r := Run(w1, ops[1..]);
      assert r.files[..|w.files|] == r.files[..|w1.files|][..|w.files|];
      ConcatAssoc(Rows(w), Filled(w.specs, w.schema, ops[0]), Accepted(w.specs, w.schema, ops[1..]));
      r
  }

  /** Regrouping a concatenation, stated as a lemma so that callers get the
      fact without the solver unfolding sequence equality in their context. */
  lemma ConcatAssoc<T>(a: seq<T>, b: seq<T>, c: seq<T>)
    ensures a + b + c == a + (b + c)
  {
  }

  /** `getTotalNumRows` after the calls counts every row accepted so far,
      narrowed to an `int`. */
  lemma RunCountsAcceptedRows(w: Writer, ops: seq<Op>)
    requires Valid(w)
    ensures TotalNumRows(Run(w, ops)) == ToInt32(|Rows(w) + Accepted(w.specs, w.schema, ops)|)
  {
  }

  /** A writer fresh from the constructor has, after any calls, written and
      pending exactly the rows the calls filled, in order. */
  lemma CreatedRunKeepsEveryRow(specs: seq<FieldSpec>, ops: seq<Op>)
    requires Create(specs).Ok?
    ensures var w := Create(specs).value; var r := Run(w, ops);
      && Rows(r) == Accepted(w.specs, w.schema, ops)
      && TotalNumRows(r) == ToInt32(|Accepted(w.specs, w.schema, ops)|)
  {
    var w := Create(specs).value;
    assert Rows(w) == [];
  }

  /** All calls flush at the same threshold `t` (all `write`, or all `writeData`). */
  predicate SameThreshold(ops: seq<Op>, t: nat) {
    forall i :: 0 <= i < |ops| ==> !ops[i].CloseOp? && Threshold(ops[i]) == t
  }

  /** Calls that all flush at `t` keep fewer than `t` rows pending throughout:
      with `writeData` alone at most one row is ever pending. */
  lemma {:induction false} RunStaysBelowThreshold(w: Writer, ops: seq<Op>, t: nat)
    requires Valid(w) && SameThreshold(ops, t) && |w.batch| < t
    ensures |Run(w, ops).batch| < t
    decreases |ops|
  {
    if |ops| > 0 {
      var w1 := Step(w, ops[0]);
      StepBelowThreshold(w, ops[0], t);
      assert SameThreshold(ops[1..], t) by {
        forall i | 0 <= i < |ops| - 1 ensures !ops[1..][i].CloseOp? && Threshold(ops[1..][i]) == t {
          assert ops[1..][i] == ops[i + 1];
        }
      }
      RunStaysBelowThreshold(w1, ops[1..], t);
    }
  }

  /** Two `writeData` calls whose rows both fill, on a writer with nothing
      pending: the second call writes both rows, in order, as the next file. */
  lemma WriteDataPairMakesOneFile(w: Writer, a: Row, b: Row)
    requires Valid(w) && w.batch == []
    requires FillRowFor(w.specs, w.schema, a).Ok? && FillRowFor(w.specs, w.schema, b).Ok?
    ensures var w1 := WriteData(w, a).value.0; var r := WriteData(w1, b).value.0;
      && w1.files == w.files && |w1.batch| == 1
      && r.files == w.files + [ArrowFile(w.suffixCount, w.schema,
           [FillRowFor(w.specs, w.schema, a).value, FillRowFor(w.specs, w.schema, b).value])]
      && r.batch == [] && r.currentChunkRowCount == 1
  {
    var ca, cb := FillRowFor(w.specs, w.schema, a).value, FillRowFor(w.specs, w.schema, b).value;
    var w1 := WriteData(w, a).value.0;
    assert w1.specs == w.specs && w1.schema == w.schema && w1.batch == [ca];
    assert w1.suffixCount == ToInt32(|w.files|) == w.suffixCount;
    assert w1.batch + [cb] == [ca, cb];
  }

  /** A `write` or `writeData` call with fewer rows pending than its threshold:
      a filled row either completes the batch, which becomes one more file, or
      joins it; a row that fails changes nothing. */
  lemma StepBelowThreshold(w: Writer, op: Op, t: nat)
    requires Valid(w) && !op.CloseOp? && Threshold(op) == t && |w.batch| < t
    ensures var w1 := Step(w, op); var b := |w.batch| + |Filled(w.specs, w.schema, op)|;
      && |w1.batch| < t
      && (b == t ==> |w1.files| == |w.files| + 1 && |w1.batch| == 0)
      && (b < t ==> |w1.files| == |w.files| && |w1.batch| == b)
  {
    StepEffect(w, op);
  }

  /** `close` on a writer with nothing pending still writes a file, an empty
      one, under the next suffix; so does every further `close`. */
  lemma CloseTwiceWritesEmptyFile(w: Writer)
    requires Valid(w)
    ensures var r := Close(Close(w));
      && |r.files| == |w.files| + 2
      && r.files[|w.files|].rows == w.batch
      && r.files[|w.files| + 1] == ArrowFile(Inc32(w.suffixCount), w.schema, [])
      && r.suffixCount == Inc32(Inc32(w.suffixCount))
      && Emitted(r.files) == Rows(w)
      && TotalNumRows(r) == TotalNumRows(w)
  {
    var c := Close(w);
    EmittedAppend(c.files, ArrowFile(c.suffixCount, c.schema, []));
  }
}
