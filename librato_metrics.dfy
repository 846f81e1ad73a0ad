/** The Librato backend adapter: reading one metric's series out of the service's
    response, and composing two metrics with a composite. The Librato client itself
    is a parameter: a function from a metric name and the query options to either
    the decoded response or the exception the client raised. */
module LibratoMetrics {
  import opened Series
  import CompositeMetric

  /** The aggregation field read when the request names none. */
  const DEFAULT_FROM: string := "value"

  /** One entry of the response's "all" list: aggregation field name to number. */
  type Bucket = map<string, real>

  /** The decoded response: only its "all" key is ever read. */
  type Payload = map<string, seq<Bucket>>

  /** The options the adapter passes to the client. The client asks for buckets
      from `Time.now - range` on, reading the clock at call time. */
  datatype Query = Query(range: int, summarizeSources: bool, source: Option<string>)

  /** The client's exceptions: the two the adapter translates, and any other. */
  datatype ClientFailure = NotFound | NetworkError | OtherClientError

  datatype Fetched = Fetched(payload: Payload) | Raised(failure: ClientFailure)

  type Client = (string, Query) -> Fetched

  /** `h[from.to_s]`: nil when the bucket lacks the field. */
  function Field(h: Bucket, from: string): (v: Sample)
    ensures v.Some? <==> from in h
    ensures v.Some? ==> v.value == h[from]
  {
    if from in h then Some(h[from]) else None
  }

  /** The series a response holds for field `from`: empty without an "all" key,
      otherwise one sample per bucket of "all", in order. */
  function Project(results: Payload, from: string): (points: seq<Sample>)
    ensures "all" !in results ==> points == []
    ensures "all" in results ==>
      |points| == |results["all"]| &&
      forall i :: 0 <= i < |points| ==> points[i] == Field(results["all"][i], from)
  {
    if "all" in results then
      var all := results["all"];
      seq(|all|, i requires 0 <= i < |all| => Field(all[i], from))
    else []
  }

  /** What the handler sees of a projected response: the series is empty exactly
      when the response has no "all" key or an empty "all" list (the path to "no
      values for metric in range"); it holds no nil exactly when every bucket
      carries the field, and then its numbers are the buckets' field values, in
      order. A bucket without the field yields nil. */
  lemma ProjectionShape(results: Payload, from: string)
    ensures Project(results, from) == [] <==> ("all" !in results || results["all"] == [])
    ensures AllPresent(Project(results, from)) <==>
      ("all" in results ==> forall k :: 0 <= k < |results["all"]| ==> from in results["all"][k])
    ensures "all" in results && AllPresent(Project(results, from)) ==>
      var xs := Values(Project(results, from));
      |xs| == |results["all"]| && forall k :: 0 <= k < |xs| ==> xs[k] == results["all"][k][from]
    ensures "all" in results ==>
      forall k :: 0 <= k < |results["all"]| && from !in results["all"][k] ==> Project(results, from)[k] == None
  {
    var points := Project(results, from);
    if "all" in results {
      var all := results["all"];
      assert |points| == |all|;
      if AllPresent(points) {
        forall k | 0 <= k < |all| ensures from in all[k] {
          assert points[k] == Field(all[k], from);
        }
      }
      if forall k :: 0 <= k < |all| ==> from in all[k] {
        forall k | 0 <= k < |points| ensures points[k].Some? {
          assert points[k] == Field(all[k], from);
        }
      }
    }
  }

  /** The query `get_values_for_range` sends: summarised over sources, with the
      source filter only when one is given. */
  function QueryFor(range: int, source: Option<string>): Query
  {
    Query(range, true, source)
  }

  /** `get_values_for_range`. */
  function GetValuesForRange(client: Client, metric: string, range: int, from: string, source: Option<string>): (r: Result<seq<Sample>>)
  {
    match client(metric, QueryFor(range, source))
    case Fetched(results) => Ok(Project(results, from))
    case Raised(NotFound) => Err(MetricNotFound)
    case Raised(NetworkError) => Err(MetricServiceRequestFailed)
    case Raised(OtherClientError) => Err(UnexpectedError)
  }

  /** The adapter fails exactly when the client raises; a missing metric and a
      network failure become the two distinct errors the handler maps to different
      statuses, and any other client exception passes through unrescued. On success
      the series is the projection of the response. */
  lemma GetValuesTranslatesClient(client: Client, metric: string, range: int, from: string, source: Option<string>)
    ensures var fetched, r := client(metric, Query(range, true, source)), GetValuesForRange(client, metric, range, from, source);
      && (r.Ok? <==> fetched.Fetched?)
      && (fetched.Fetched? ==> r.value == Project(fetched.payload, from))
      && (fetched == Raised(NotFound) ==> r == Err(MetricNotFound))
      && (fetched == Raised(NetworkError) ==> r == Err(MetricServiceRequestFailed))
      && (fetched == Raised(OtherClientError) ==> r == Err(UnexpectedError))
  {
  }

  /** `compose_values_for_range`. `metrics` is None for Ruby's nil. */
  function ComposeValuesForRange(functionName: string, metrics: Option<seq<string>>, range: int, from: string,
                                 source: Option<string>, client: Client): Result<seq<real>>
  {
    if metrics.None? || |metrics.value| < 2 then Err(MetricNotComposite("too few metrics"))
    else if |metrics.value| > 2 then Err(MetricNotComposite("too many metrics"))
    else
      match CompositeMetric.For(functionName)
      case Err(e) => Err(e)
      case Ok(composite) =>
        match GetValuesForRange(client, metrics.value[0], range, from, source)
        case Err(e) => Err(e)
        case Ok(a) =>
          match GetValuesForRange(client, metrics.value[1], range, from, source)
          case Err(e) => Err(e)
          case Ok(b) => CompositeMetric.Apply(composite, a, b)
  }

  /** Fewer than two metrics (or none) fail with "too few metrics", more than two
      with "too many metrics", whatever the function name and whatever the client
      would answer: neither the name nor the backend is consulted. */
  lemma ArityCheckedFirst(functionName: string, metrics: Option<seq<string>>, range: int, from: string,
                          source: Option<string>, client: Client)
    requires metrics.None? || |metrics.value| != 2
    ensures ComposeValuesForRange(functionName, metrics, range, from, source, client) ==
      Err(MetricNotComposite(if metrics.None? || |metrics.value| < 2 then "too few metrics" else "too many metrics"))
  {
  }

  /** With two metrics and an unknown function name, the error names the function,
      whatever the client would answer. */
  lemma FunctionResolvedBeforeFetch(functionName: string, metrics: seq<string>, range: int, from: string,
                                    source: Option<string>, client: Client)
    requires |metrics| == 2
    requires functionName !in {"sum", "divide", "multiply"}
    ensures ComposeValuesForRange(functionName, Some(metrics), range, from, source, client) ==
      Err(MetricNotComposite("invalid compose function: " + functionName))
  {
  }

  /** With two metrics and a known function, the first failing fetch decides the
      error; when both succeed the result is the composite of the two series in
      the order the metrics were named. */
  lemma ComposeFetchesInOrder(composite: CompositeMetric.Composite, metrics: seq<string>, range: int, from: string,
                              source: Option<string>, client: Client)
    requires |metrics| == 2
    ensures var r := ComposeValuesForRange(CompositeMetric.Name(composite), Some(metrics), range, from, source, client);
      var first, second := GetValuesForRange(client, metrics[0], range, from, source),
                           GetValuesForRange(client, metrics[1], range, from, source);
      && (first.Err? ==> r == Err(first.error))
      && (first.Ok? && second.Err? ==> r == Err(second.error))
      && (first.Ok? && second.Ok? ==> r == CompositeMetric.Apply(composite, first.value, second.value))
  {
    CompositeMetric.ForInvertsName(CompositeMetric.Name(composite));
  }
}
