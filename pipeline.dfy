/** The batch shape both service versions share: map each task in order, collect into a list, stop at the first error. */
module Pipeline {
  import opened Wrappers

  /**
   * flattenAsFlowable(tasks).map(f).toList(): one output per input in input
   * order, or the error of the first input whose step throws.
   */
  function MapAll<T, U, E>(f: T -> Result<U, E>, xs: seq<T>): (r: Result<seq<U>, E>)
    ensures r.Success? <==> forall i | 0 <= i < |xs| :: f(xs[i]).Success?
    ensures r.Success? ==> |r.value| == |xs| && forall i | 0 <= i < |xs| :: r.value[i] == f(xs[i]).value
    ensures r.Failure? ==>
      exists i | 0 <= i < |xs| :: f(xs[i]).Failure? && f(xs[i]).error == r.error && forall j | 0 <= j < i :: f(xs[j]).Success?
  {
    if xs == [] then Success([])
    else match f(xs[0])
      case Failure(e) => Failure(e)
      case Success(y) =>
        match MapAll(f, xs[1..])
        case Failure(e) =>
          assert exists i | 0 <= i < |xs| ::
            f(xs[i]).Failure? && f(xs[i]).error == e && forall j | 0 <= j < i :: f(xs[j]).Success?
          by {
            var i :| 0 <= i < |xs[1..]| && f(xs[1..][i]).Failure? && f(xs[1..][i]).error == e
              && forall j | 0 <= j < i :: f(xs[1..][j]).Success?;
            assert xs[i + 1] == xs[1..][i];
            forall j | 0 <= j < i + 1 ensures f(xs[j]).Success? {
              if j > 0 { assert xs[j] == xs[1..][j - 1]; }
            }
          }
          Failure(e)
        case Success(ys) =>
          assert forall i | 0 <= i < |xs| :: f(xs[i]).Success? by {
            forall i | 0 <= i < |xs| ensures f(xs[i]).Success? {
              if i > 0 { assert xs[i] == xs[1..][i - 1]; }
            }
          }
          Success([y] + ys)
  }
}
