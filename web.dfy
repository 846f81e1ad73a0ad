/** The `/check` handler of the web service: parameter validation, the choice of
    backend and of single or composite retrieval, the mean of the retrieved series,
    its classification against the optional bounds, and the mapping of every
    outcome and every rescued exception to an HTTP status and a JSON body. */
module Web {
  import opened Series
  import RubyString
  import LibratoMetrics
  import CompositeMetric

  /** The request parameters the handler reads, already parsed: `range` as by
      `to_i`, `min` and `max` as by `to_f`, and `emptyOk` true when the
      `empty_ok` parameter is present at all (any value, "false" included, is
      truthy in Ruby). */
  datatype Params = Params(
    metric: Option<string>,
    range: Option<int>,
    min: Option<real>,
    max: Option<real>,
    backend: Option<string>,
    from: Option<string>,
    compose: Option<string>,
    source: Option<string>,
    emptyOk: bool)

  /** The Graphite backend's `get_values_for_range(url, metric, range)`. */
  type Graphite = (string, int) -> Result<seq<Sample>>

  datatype Backends = Backends(librato: LibratoMetrics.Client, graphite: Graphite)

  /** The JSON body: `{"value": v}` or `{"error": message}`. */
  datatype Body = Value(value: real) | Error(message: string)

  datatype Reply = Reply(status: int, body: Body)

  const MISSING_PARAMETERS: string := "missing parameters"
  const MULTIPLE_WITHOUT_COMPOSE: string := "multiple metrics without a compose function"
  const NO_VALUES: string := "no values for metric in range"
  const METRIC_NOT_FOUND: string := "metric not found"
  const SERVICE_FAILED: string := "connecting to backend metrics service failed with error 'request timed out'"
  const INTERNAL_ERROR: string := "internal server error"

  /** `valid?`: a metric, a range, and at least one bound. */
  predicate Valid(p: Params)
  {
    p.metric.Some? && (p.min.Some? || p.max.Some?) && p.range.Some?
  }

  /** The aggregation field: `params["from"]`, or the adapter's default. */
  function From(p: Params): string
  {
    if p.from.Some? then p.from.value else LibratoMetrics.DEFAULT_FROM
  }

  function UsesLibrato(p: Params): bool
  {
    p.backend == Some("librato")
  }

  /** `fetch_points`. Its only caller has checked `valid?`, so the metric and the
      range are present. */
  function FetchPoints(p: Params, env: Backends): Result<seq<Sample>>
    requires p.metric.Some? && p.range.Some?
  {
    var metric, range := p.metric.value, p.range.value;
    if !UsesLibrato(p) then env.graphite(metric, range)
    else if p.compose.None? && |RubyString.Split(metric)| > 1 then
      Err(MetricNotComposite(MULTIPLE_WITHOUT_COMPOSE))
    else if p.compose.Some? then
      match LibratoMetrics.ComposeValuesForRange(p.compose.value, Some(RubyString.Split(metric)), range, From(p), p.source, env.librato)
      case Err(e) => Err(e)
      case Ok(values) => Ok(Lift(values))
    else LibratoMetrics.GetValuesForRange(env.librato, metric, range, From(p), p.source)
  }

  /** `points.reduce { |a, b| a + b } / points.size.to_f`; a nil sample makes the
      addition (or the division) raise. */
  function Mean(points: seq<Sample>): Result<real>
    requires |points| > 0
  {
    if AllPresent(points) then Ok(Total(Values(points)) / (|points| as real)) else Err(UnexpectedError)
  }

  /** The bound test of the handler: below a given `min` or above a given `max`. */
  predicate Violated(v: real, min: Option<real>, max: Option<real>)
  {
    (min.Some? && v < min.value) || (max.Some? && v > max.value)
  }

  /** The rescue clauses of the handler, and Sinatra's generic `error` block for
      every exception they do not name. */
  function ErrorReply(e: MetricError): Reply
  {
    match e
    case MetricNotComposite(message) => Reply(400, Error(message))
    case MetricNotFound => Reply(404, Error(METRIC_NOT_FOUND))
    case MetricServiceRequestFailed => Reply(503, Error(SERVICE_FAILED))
    case UnexpectedError => Reply(500, Error(INTERNAL_ERROR))
  }

  /** `get "/check"`, for a request that passed authentication. */
  function Check(p: Params, env: Backends): Reply
  {
    if !Valid(p) then Reply(400, Error(MISSING_PARAMETERS))
    else
      match FetchPoints(p, env)
      case Err(e) => ErrorReply(e)
      case Ok(points) =>
        if |points| == 0 then Reply(if p.emptyOk then 200 else 404, Error(NO_VALUES))
        else
          match Mean(points)
          case Err(e) => ErrorReply(e)
          case Ok(value) => Reply(if Violated(value, p.min, p.max) then 500 else 200, Value(value))
  }

  // ---------------------------------------------------------------------------
  // The decision table of the handler

  /** A request without a metric, without a range, or without both bounds gets 400
      "missing parameters", whatever the backends would answer: nothing is fetched. */
  lemma MissingParametersRejected(p: Params, env: Backends)
    requires !(p.metric.Some? && p.range.Some? && (p.min.Some? || p.max.Some?))
    ensures Check(p, env) == Reply(400, Error(MISSING_PARAMETERS))
  {
  }

  /** A valid request whose series is retrieved is answered with 200, 404 or 500 and
      never as "missing parameters". */
  lemma ValidRequestIsEvaluated(p: Params, env: Backends)
    requires p.metric.Some? && p.range.Some? && (p.min.Some? || p.max.Some?)
    requires FetchPoints(p, env).Ok?
    ensures Check(p, env).status in {200, 404, 500}
    ensures Check(p, env).body != Error(MISSING_PARAMETERS)
  {
  }

  /** An empty series is 200 when the caller says empty is fine and 404 otherwise,
      with the same error body either way. */
  lemma EmptySeries(p: Params, env: Backends)
    requires Valid(p) && FetchPoints(p, env) == Ok([])
    ensures Check(p, env) == Reply(if p.emptyOk then 200 else 404, Error(NO_VALUES))
  {
  }

  /** A non-empty series of numbers is reported as its arithmetic mean, with status
      500 exactly when the mean lies below a given `min` or above a given `max`, and
      200 otherwise (a mean equal to a bound passes). */
  lemma ReportsMean(p: Params, env: Backends)
    requires Valid(p) && FetchPoints(p, env).Ok?
    requires var points := FetchPoints(p, env).value; |points| > 0 && AllPresent(points)
    ensures var points := FetchPoints(p, env).value;
      var v := Total(Values(points)) / (|points| as real);
      && Check(p, env).body == Value(v)
      && (Check(p, env).status == 500 <==> (p.min.Some? && v < p.min.value) || (p.max.Some? && v > p.max.value))
      && (Check(p, env).status == 200 <==> !((p.min.Some? && v < p.min.value) || (p.max.Some? && v > p.max.value)))
  {
  }

  /** A series holding a nil sample makes the mean raise: 500 through the generic
      error handler. */
  lemma NilSampleIsInternalError(p: Params, env: Backends)
    requires Valid(p) && FetchPoints(p, env).Ok?
    requires var points := FetchPoints(p, env).value; |points| > 0 && !AllPresent(points)
    ensures Check(p, env) == Reply(500, Error(INTERNAL_ERROR))
  {
  }

  /** When every sample respects the given bounds, so does their mean. */
  lemma MeanRespectsSampleBounds(points: seq<Sample>, min: Option<real>, max: Option<real>)
    requires |points| > 0 && AllPresent(points)
    requires min.Some? ==> forall i :: 0 <= i < |points| ==> min.value <= points[i].value
    requires max.Some? ==> forall i :: 0 <= i < |points| ==> points[i].value <= max.value
    ensures Mean(points).Ok? && !Violated(Mean(points).value, min, max)
  {
    var xs, n := Values(points), |points| as real;
    if min.Some? {
      TotalAtLeast(xs, min.value);
      QuotientMonotone(min.value * n, Total(xs), n);
      assert (min.value * n) / n == min.value;
    }
    if max.Some? {
      TotalAtMost(xs, max.value);
      QuotientMonotone(Total(xs), max.value * n, n);
      assert (max.value * n) / n == max.value;
    }
  }

  /** When every sample lies below a given `min`, so does their mean. */
  lemma MeanBelowSampleBound(points: seq<Sample>, min: real, max: Option<real>)
    requires |points| > 0 && AllPresent(points)
    requires forall i :: 0 <= i < |points| ==> points[i].value < min
    ensures Mean(points).Ok? && Violated(Mean(points).value, Some(min), max)
  {
    var xs, n := Values(points), |points| as real;
    TotalBelow(xs, min);
    StrictQuotientMonotone(Total(xs), min * n, n);
    assert (min * n) / n == min;
  }

  /** When every sample lies above a given `max`, so does their mean. */
  lemma MeanAboveSampleBound(points: seq<Sample>, min: Option<real>, max: real)
    requires |points| > 0 && AllPresent(points)
    requires forall i :: 0 <= i < |points| ==> max < points[i].value
    ensures Mean(points).Ok? && Violated(Mean(points).value, min, Some(max))
  {
    var xs, n := Values(points), |points| as real;
    TotalAbove(xs, max);
    StrictQuotientMonotone(max * n, Total(xs), n);
    assert (max * n) / n == max;
  }

  lemma QuotientMonotone(x: real, y: real, n: real)
    requires n > 0.0 && x <= y
    ensures x / n <= y / n
  {
  }

  lemma StrictQuotientMonotone(x: real, y: real, n: real)
    requires n > 0.0 && x < y
    ensures x / n < y / n
  {
  }

  /** When every sample respects the given bounds the check passes; when every
      sample lies beyond one given bound it fails with 500. */
  lemma SampleBoundsDecideStatus(p: Params, env: Backends)
    requires Valid(p) && FetchPoints(p, env).Ok?
    requires var points := FetchPoints(p, env).value; |points| > 0 && AllPresent(points)
    ensures var points := FetchPoints(p, env).value;
      && ((p.min.Some? ==> forall i :: 0 <= i < |points| ==> p.min.value <= points[i].value) &&
          (p.max.Some? ==> forall i :: 0 <= i < |points| ==> points[i].value <= p.max.value)
          ==> Check(p, env).status == 200)
      && ((p.min.Some? && forall i :: 0 <= i < |points| ==> points[i].value < p.min.value) ||
          (p.max.Some? && forall i :: 0 <= i < |points| ==> p.max.value < points[i].value)
          ==> Check(p, env).status == 500)
  {
    var points := FetchPoints(p, env).value;
    if (p.min.Some? ==> forall i :: 0 <= i < |points| ==> p.min.value <= points[i].value) &&
       (p.max.Some? ==> forall i :: 0 <= i < |points| ==> points[i].value <= p.max.value) {
      MeanRespectsSampleBounds(points, p.min, p.max);
    }
    if p.min.Some? && forall i :: 0 <= i < |points| ==> points[i].value < p.min.value {
      MeanBelowSampleBound(points, p.min.value, p.max);
    }
    if p.max.Some? && forall i :: 0 <= i < |points| ==> p.max.value < points[i].value {
      MeanAboveSampleBound(points, p.min, p.max.value);
    }
  }

  /** Any backend other than exactly "librato" (none given included) is Graphite,
      asked for the metric parameter as it stands: no split, no multi-metric check. */
  lemma OtherBackendsAreGraphite(p: Params, env: Backends)
    requires p.metric.Some? && p.range.Some?
    requires p.backend != Some("librato")
    ensures FetchPoints(p, env) == env.graphite(p.metric.value, p.range.value)
  {
  }

  /** On Librato, a metric parameter that splits into several names needs a compose
      function: without one the request is 400 with that message. */
  lemma MultipleMetricsNeedCompose(p: Params, env: Backends)
    requires Valid(p) && p.backend == Some("librato") && p.compose.None?
    requires |RubyString.Split(p.metric.value)| > 1
    ensures Check(p, env) == Reply(400, Error(MULTIPLE_WITHOUT_COMPOSE))
  {
  }

  /** On Librato without compose, a single name is fetched with the requested field,
      "value" when none is requested. */
  lemma SingleLibratoMetric(p: Params, env: Backends)
    requires p.metric.Some? && p.range.Some?
    requires p.backend == Some("librato") && p.compose.None?
    requires |RubyString.Split(p.metric.value)| <= 1
    ensures FetchPoints(p, env) ==
      LibratoMetrics.GetValuesForRange(env.librato, p.metric.value, p.range.value, From(p), p.source)
    ensures From(p) == if p.from.Some? then p.from.value else "value"
  {
  }

  /** On Librato with compose, the metric parameter is split at its commas and the
      names are composed; an arity error or an unknown function is 400 with its
      message. */
  lemma ComposedLibratoMetric(p: Params, env: Backends)
    requires Valid(p) && p.backend == Some("librato") && p.compose.Some?
    ensures var names := RubyString.Split(p.metric.value);
      && (|names| < 2 ==> Check(p, env) == Reply(400, Error("too few metrics")))
      && (|names| > 2 ==> Check(p, env) == Reply(400, Error("too many metrics")))
      && (|names| == 2 && p.compose.value !in {"sum", "divide", "multiply"} ==>
            Check(p, env) == Reply(400, Error("invalid compose function: " + p.compose.value)))
    ensures var names := RubyString.Split(p.metric.value);
      |names| == 2 && CompositeMetric.For(p.compose.value).Ok? ==>
        var first := LibratoMetrics.GetValuesForRange(env.librato, names[0], p.range.value, From(p), p.source);
        var second := LibratoMetrics.GetValuesForRange(env.librato, names[1], p.range.value, From(p), p.source);
        && (first.Err? ==> FetchPoints(p, env) == Err(first.error))
        && (first.Ok? && second.Err? ==> FetchPoints(p, env) == Err(second.error))
        && (first.Ok? && second.Ok? ==>
              var r := CompositeMetric.Apply(CompositeMetric.For(p.compose.value).value, first.value, second.value);
              FetchPoints(p, env) == if r.Ok? then Ok(Lift(r.value)) else Err(r.error))
  {
    var names := RubyString.Split(p.metric.value);
    if |names| == 2 && p.compose.value !in {"sum", "divide", "multiply"} {
      LibratoMetrics.FunctionResolvedBeforeFetch(p.compose.value, names, p.range.value, From(p), p.source, env.librato);
    }
    CompositeMetric.ForInvertsName(p.compose.value);
    if |names| == 2 && CompositeMetric.For(p.compose.value).Ok? {
      LibratoMetrics.ComposeFetchesInOrder(CompositeMetric.For(p.compose.value).value, names, p.range.value, From(p),
                                           p.source, env.librato);
    }
  }

  /** On Librato, a single metric whose response has buckets without the requested
      field gets nil samples, and the mean over them raises: 500. */
  lemma MissingFieldIsInternalError(p: Params, env: Backends, payload: LibratoMetrics.Payload)
    requires Valid(p) && p.backend == Some("librato") && p.compose.None?
    requires |RubyString.Split(p.metric.value)| <= 1
    requires env.librato(p.metric.value, LibratoMetrics.Query(p.range.value, true, p.source)) == LibratoMetrics.Fetched(payload)
    requires "all" in payload && exists k :: 0 <= k < |payload["all"]| && From(p) !in payload["all"][k]
    ensures Check(p, env) == Reply(500, Error(INTERNAL_ERROR))
  {
    SingleLibratoMetric(p, env);
    LibratoMetrics.GetValuesTranslatesClient(env.librato, p.metric.value, p.range.value, From(p), p.source);
    LibratoMetrics.ProjectionShape(payload, From(p));
    var points := FetchPoints(p, env).value;
    assert points == LibratoMetrics.Project(payload, From(p));
    assert |points| > 0 && !AllPresent(points);
  }

  /** Each retrieval failure has its own status: 400 with the message for
      MetricNotComposite, 404 "metric not found", 503 for a failed request to the
      service, and 500 for any other exception. */
  lemma FailuresMapToStatus(p: Params, env: Backends)
    requires Valid(p) && FetchPoints(p, env).Err?
    ensures var e := FetchPoints(p, env).error;
      && (e.MetricNotComposite? ==> Check(p, env) == Reply(400, Error(e.message)))
      && (e == MetricNotFound ==> Check(p, env) == Reply(404, Error(METRIC_NOT_FOUND)))
      && (e == MetricServiceRequestFailed ==> Check(p, env) == Reply(503, Error(SERVICE_FAILED)))
      && (e == UnexpectedError ==> Check(p, env) == Reply(500, Error(INTERNAL_ERROR)))
  {
  }

  /** A Librato `Sum` whose second series is shorter than the first makes Ruby add
      nil: the handler answers 500. */
  lemma ShortSecondSumSeriesIsInternalError(p: Params, env: Backends, a: seq<Sample>, b: seq<Sample>)
    requires Valid(p) && p.backend == Some("librato") && p.compose == Some("sum")
    requires var names := RubyString.Split(p.metric.value);
      && |names| == 2
      && LibratoMetrics.GetValuesForRange(env.librato, names[0], p.range.value, From(p), p.source) == Ok(a)
      && LibratoMetrics.GetValuesForRange(env.librato, names[1], p.range.value, From(p), p.source) == Ok(b)
    requires |b| < |a|
    ensures Check(p, env) == Reply(500, Error(INTERNAL_ERROR))
  {
    CompositeMetric.SumPointwise(a, b);
    CompositeMetric.MapAllSpec(CompositeMetric.Zip(a, b), CompositeMetric.SumItems);
    var z := CompositeMetric.Zip(a, b);
    assert CompositeMetric.SumItems(z[|b|]).Err?;
    var i :| 0 <= i < |z| && CompositeMetric.SumItems(z[i]).Err? &&
      CompositeMetric.SumValue(a, b).error == CompositeMetric.SumItems(z[i]).error;
  }

  // ---------------------------------------------------------------------------
  // End-to-end scenarios on the Librato backend

  /** A Librato client that knows no metric at all. */
  function NoSuchMetric(metric: string, q: LibratoMetrics.Query): LibratoMetrics.Fetched
  {
    LibratoMetrics.Raised(LibratoMetrics.NotFound)
  }

  /** Buckets carrying only the default "value" field. */
  function Buckets(values: seq<real>): seq<LibratoMetrics.Bucket>
  {
    seq(|values|, i requires 0 <= i < |values| => map["value" := values[i]])
  }

  /** A Librato client that answers `cpu.load` with the given buckets and does not
      know any other metric. */
  function CpuLoadClient(values: seq<real>): LibratoMetrics.Client
  {
    (metric: string, q: LibratoMetrics.Query) =>
      if metric == "cpu.load" then LibratoMetrics.Fetched(map["all" := Buckets(values)])
      else LibratoMetrics.Raised(LibratoMetrics.NotFound)
  }

  function CpuLoadRequest(metric: string): Params
  {
    Params(Some(metric), Some(60), None, Some(0.8), Some("librato"), None, None, None, false)
  }

  lemma CpuLoadFetch(values: seq<real>, graphite: Graphite)
    ensures FetchPoints(CpuLoadRequest("cpu.load"), Backends(CpuLoadClient(values), graphite)) == Ok(Lift(values))
  {
    RubyString.SplitWithoutComma("cpu.load");
    var env := Backends(CpuLoadClient(values), graphite);
    var points := FetchPoints(CpuLoadRequest("cpu.load"), env).value;
    assert points == Lift(values);
  }

  /** [0.5, 0.6, 0.55] against max 0.8: mean 0.55, status 200. */
  lemma CpuLoadPasses(graphite: Graphite)
    ensures Check(CpuLoadRequest("cpu.load"), Backends(CpuLoadClient([0.5, 0.6, 0.55]), graphite)) == Reply(200, Value(0.55))
  {
    var values := [0.5, 0.6, 0.55];
    CpuLoadFetch(values, graphite);
    assert Values(Lift(values)) == values;
    assert Total(values) == 1.65 by {
      assert values[..2] == [0.5, 0.6];
      assert Total([0.5, 0.6]) == 1.1 by {
        assert [0.5, 0.6][..1] == [0.5];
        assert [0.5][..0] == [];
      }
    }
  }

  /** [0.9, 0.95] against max 0.8: mean 0.925, status 500. */
  lemma CpuLoadFails(graphite: Graphite)
    ensures Check(CpuLoadRequest("cpu.load"), Backends(CpuLoadClient([0.9, 0.95]), graphite)) == Reply(500, Value(0.925))
  {
    var values := [0.9, 0.95];
    CpuLoadFetch(values, graphite);
    assert Values(Lift(values)) == values;
    assert Total(values) == 1.85 by {
      assert values[..1] == [0.9];
      assert values[..1][..0] == [];
    }
  }

  /** A Librato client that answers metric `x` with the buckets `xs` and metric `y`
      with the buckets `ys`. */
  function PairClient(x: string, xs: seq<real>, y: string, ys: seq<real>): LibratoMetrics.Client
  {
    (metric: string, q: LibratoMetrics.Query) =>
      if metric == x then LibratoMetrics.Fetched(map["all" := Buckets(xs)])
      else if metric == y then LibratoMetrics.Fetched(map["all" := Buckets(ys)])
      else LibratoMetrics.Raised(LibratoMetrics.NotFound)
  }

  /** Over 60 seconds, `x,y` composed with divide, against a max of 10. */
  function RatioRequest(x: string, y: string): Params
  {
    Params(Some(x + "," + y), Some(60), None, Some(10.0), Some("librato"), None, Some("divide"), None, false)
  }

  /** Buckets carrying "value" project back to their numbers. */
  lemma ProjectBuckets(values: seq<real>)
    ensures LibratoMetrics.Project(map["all" := Buckets(values)], "value") == Lift(values)
  {
  }

  /** Two metrics composed with divide: [10, 20] over [2, 0] keeps only 5.0, because
      the zero divisor drops its position. */
  lemma RatioFetch(x: string, y: string, graphite: Graphite)
    requires ',' !in x && ',' !in y && y != "" && x != y
    ensures FetchPoints(RatioRequest(x, y), Backends(PairClient(x, [10.0, 20.0], y, [2.0, 0.0]), graphite)) == Ok([Some(5.0)])
  {
    var p, env := RatioRequest(x, y), Backends(PairClient(x, [10.0, 20.0], y, [2.0, 0.0]), graphite);
    RubyString.SplitPair(x, y);
    ProjectBuckets([10.0, 20.0]);
    ProjectBuckets([2.0, 0.0]);
    var a, b := Lift([10.0, 20.0]), Lift([2.0, 0.0]);
    assert a == [Some(10.0), Some(20.0)];
    assert b == [Some(2.0), Some(0.0)];
    assert LibratoMetrics.GetValuesForRange(env.librato, x, 60, "value", None) == Ok(a);
    assert LibratoMetrics.GetValuesForRange(env.librato, y, 60, "value", None) == Ok(b);
    ComposedLibratoMetric(p, env);
    CompositeMetric.DivisionExample();
    assert Lift([5.0]) == [Some(5.0)];
  }

  /** The ratio 5.0 passes the max of 10: status 200 with value 5.0. */
  lemma RatioPasses(x: string, y: string, graphite: Graphite)
    requires ',' !in x && ',' !in y && y != "" && x != y
    ensures Check(RatioRequest(x, y), Backends(PairClient(x, [10.0, 20.0], y, [2.0, 0.0]), graphite)) == Reply(200, Value(5.0))
  {
    RatioFetch(x, y, graphite);
    assert Values([Some(5.0)]) == [5.0];
    assert Total([5.0]) == 5.0 by {
      assert [5.0][..0] == [];
    }
  }

  /** A metric the backend does not know: 404 "metric not found". */
  lemma UnknownMetricNotFound(metric: string, graphite: Graphite)
    requires ',' !in metric
    ensures Check(CpuLoadRequest(metric), Backends(NoSuchMetric, graphite)) == Reply(404, Error(METRIC_NOT_FOUND))
  {
    var p, env := CpuLoadRequest(metric), Backends(NoSuchMetric, graphite);
    RubyString.SplitWithoutComma(metric);
    assert Valid(p) && UsesLibrato(p) && p.compose.None?;
    assert FetchPoints(p, env) == Err(MetricNotFound);
  }
}
