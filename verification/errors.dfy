/** The exceptions the writer can raise, a result type for operations that
    either complete or throw, and the left-to-right loop that stops at the
    first exception. */
module Errors {
  import opened PinotTypes

  datatype Exception =
    /** `RuntimeException("Unsupported data type: " + storedType)`. */
    | UnsupportedDataType(storedType: StoredType)
    /** A `NullPointerException` while handling the named field. */
    | NullPointer(field: string)
    /** A `ClassCastException` while handling the named field. */
    | ClassCast(field: string)

  datatype Result<+T> = Ok(value: T) | Err(error: Exception)

  /** Position `i` is the first whose step throws. */
  ghost predicate FirstThrow<A, B>(xs: seq<A>, f: A -> Result<B>, i: int) {
    && 0 <= i < |xs|
    && f(xs[i]).Err?
    && forall j :: 0 <= j < i ==> f(xs[j]).Ok?
  }

  /** A Java `for` loop over `xs` whose body `f` either produces one result or
      throws: all results in order, or the exception of the first step that
      throws (later steps do not run). */
  function CollectAll<A, B>(xs: seq<A>, f: A -> Result<B>): (r: Result<seq<B>>)
    ensures r.Ok? <==> forall i :: 0 <= i < |xs| ==> f(xs[i]).Ok?
    ensures r.Ok? ==> |r.value| == |xs| && forall i :: 0 <= i < |xs| ==> r.value[i] == f(xs[i]).value
    ensures r.Err? ==> exists i :: FirstThrow(xs, f, i) && r.error == f(xs[i]).error
    decreases |xs|
  {
    if |xs| == 0 then Ok([])
    else
      match f(xs[0])
      case Err(e) =>
        assert FirstThrow(xs, f, 0);
        Err(e)
      case Ok(y) =>
        var rest := CollectAll(xs[1..], f);
        assert forall i :: 0 < i < |xs| ==> xs[i] == xs[1..][i - 1];
        match rest
        case Err(e) =>
          assert exists i :: FirstThrow(xs, f, i) && e == f(xs[i]).error by {
            var k :| FirstThrow(xs[1..], f, k) && e == f(xs[1..][k]).error;
            assert FirstThrow(xs, f, k + 1);
          }
          Err(e)
        case Ok(ys) => Ok([y] + ys)
  }
}
