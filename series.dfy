/** Values shared by the Librato adapter, the composite engine and the web handler:
    samples as the backend hands them over, the errors the pipeline raises, and the
    arithmetic the handler's mean is built from. */
module Series {

  datatype Option<+T> = None | Some(value: T)

  /** One sample of a metric series: a number, or Ruby's nil where a bucket of the
      backend's response did not carry the requested field. */
  type Sample = Option<real>

  /** The exceptions the pipeline can raise. The first three are the classes the
      `/check` handler rescues; UnexpectedError stands for every other exception
      (nil arithmetic, an unrescued client error), which reaches Sinatra's generic
      `error` block. */
  datatype MetricError =
    | MetricNotComposite(message: string)
    | MetricNotFound
    | MetricServiceRequestFailed
    | UnexpectedError

  datatype Result<+T> = Ok(value: T) | Err(error: MetricError)

  predicate AllPresent(s: seq<Sample>) {
    forall i :: 0 <= i < |s| ==> s[i].Some?
  }

  /** The numbers of a series that holds no nil. */
  function Values(s: seq<Sample>): (r: seq<real>)
    requires AllPresent(s)
    ensures |r| == |s| && forall i :: 0 <= i < |s| ==> s[i] == Some(r[i])
  {
    seq(|s|, i requires 0 <= i < |s| => s[i].value)
  }

  /** A series of numbers seen as samples. */
  function Lift(r: seq<real>): (s: seq<Sample>)
    ensures |s| == |r| && AllPresent(s)
    ensures forall i :: 0 <= i < |r| ==> s[i] == Some(r[i])
  {
    seq(|r|, i requires 0 <= i < |r| => Some(r[i]))
  }

  /** Left fold of `+`, as Ruby's `reduce { |a, b| a + b }` computes it. */
  function Total(xs: seq<real>): real
  {
    if |xs| == 0 then 0.0 else Total(xs[..|xs| - 1]) + xs[|xs| - 1]
  }

  /** Adding two series position by position adds their totals. */
  lemma {:induction false} TotalOfPointwiseSum(xs: seq<real>, ys: seq<real>, zs: seq<real>)
    requires |xs| == |ys| == |zs|
    requires forall i :: 0 <= i < |zs| ==> zs[i] == xs[i] + ys[i]
    ensures Total(zs) == Total(xs) + Total(ys)
  {
    if |zs| > 0 {
      var n := |zs| - 1;
      TotalOfPointwiseSum(xs[..n], ys[..n], zs[..n]);
    }
  }

  /** Bounds on the samples bound the total: n samples of at least `lo` total at
      least lo * n, and so on for the other three comparisons. */
  lemma {:induction false} TotalAtLeast(xs: seq<real>, lo: real)
    requires forall i :: 0 <= i < |xs| ==> lo <= xs[i]
    ensures lo * (|xs| as real) <= Total(xs)
  {
    if |xs| > 0 {
      var n := |xs| - 1;
      TotalAtLeast(xs[..n], lo);
      assert lo * (|xs| as real) == lo * (n as real) + lo;
    }
  }

  lemma {:induction false} TotalAtMost(xs: seq<real>, hi: real)
    requires forall i :: 0 <= i < |xs| ==> xs[i] <= hi
    ensures Total(xs) <= hi * (|xs| as real)
  {
    if |xs| > 0 {
      var n := |xs| - 1;
      TotalAtMost(xs[..n], hi);
      assert hi * (|xs| as real) == hi * (n as real) + hi;
    }
  }

  lemma {:induction false} TotalAbove(xs: seq<real>, hi: real)
    requires |xs| > 0
    requires forall i :: 0 <= i < |xs| ==> hi < xs[i]
    ensures hi * (|xs| as real) < Total(xs)
  {
    var n := |xs| - 1;
    if n > 0 {
      TotalAbove(xs[..n], hi);
    }
    assert hi * (|xs| as real) == hi * (n as real) + hi;
  }

  lemma {:induction false} TotalBelow(xs: seq<real>, lo: real)
    requires |xs| > 0
    requires forall i :: 0 <= i < |xs| ==> xs[i] < lo
    ensures Total(xs) < lo * (|xs| as real)
  {
    var n := |xs| - 1;
    if n > 0 {
      TotalBelow(xs[..n], lo);
    }
    assert lo * (|xs| as real) == lo * (n as real) + lo;
  }
}
