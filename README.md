# Umpire metric-threshold check, modelled in Dafny

Umpire is a small HTTP service that health checkers poll. A request names a
metric (or two metrics and a compose function), a time range and a `min`
and/or `max` bound. The service fetches the metric's recent samples from a
backend (Librato or Graphite), optionally combines two series with `sum`,
`divide` or `multiply`, reduces the series to its arithmetic mean, and answers
200 when the mean is within the bounds, 500 when it is not, and other statuses
for missing data, bad parameters and backend failures.

This project models that decision pipeline as pure Dafny functions and proves
what it does:

- `series.dfy` (module `Series`): samples, the error kinds, `Total` (Ruby's
  `reduce(:+)` over reals) and the bounds lemmas on totals.
- `composite_metric.dfy` (module `CompositeMetric`): `CompositeMetric.for` and
  the `Sum`, `Division` and `Multiplication` composites. Each is written the way
  the Ruby builds it: `zip`, then `map`, then `compact` for the two that drop
  positions. `Sum` and `Multiplication` map with a block that may raise, so the
  first exception aborts the map; nothing in `Division`'s block raises. The
  lemmas characterise each result against an independent list of kept
  positions, and state the length bounds and the round trips between division
  and multiplication.
- `librato_metrics.dfy` (module `LibratoMetrics`): projecting a Librato response
  onto one aggregation field, translating client errors, and
  `compose_values_for_range` with its arity checks.
- `ruby_string.dfy` (module `RubyString`): Ruby's `String#split(",")`, which
  cuts at every comma and then removes all trailing empty fields. A comma join
  undoes it for every string that does not end in a comma.
- `web.dfy` (module `Web`): `valid?`, `fetch_points`, and the `/check` handler as
  a function from parameters and backends to a (status, body) reply, plus its
  decision table as lemmas and end-to-end scenarios (a passing and a failing
  single metric, an unknown metric, and a composed ratio).

Modelling choices:

- A sample is `Option<real>`. `None` is Ruby's nil, which `h[from.to_s]` yields
  when a bucket lacks the requested field. The model follows what each piece of
  code does with nil:
  - `Sum` raises (`0 + nil`).
  - `Division` reads a nil dividend as `nil.to_f == 0.0` and drops a nil divisor.
  - `Multiplication` drops a nil second operand and raises on a nil first operand.
  - The mean raises on any nil.
- Exceptions that the handler does not rescue are `UnexpectedError`. They reach
  Sinatra's generic `error` block, which answers 500 "internal server error".
- The Librato client is a function parameter `(metric, query) -> response or
  exception`. The Graphite adapter is a function parameter too.
- Parameters arrive already parsed: `range` is an `int`, and `min`/`max` are
  `real`. A parameter counts as given when its key is present, which is Ruby
  truthiness for strings, so `empty_ok=false` still counts as set.
- Where the code and the design intent differ, the model follows the code:
  - `Sum` does not truncate to the shorter series. When the second series is
    shorter, `zip` pads it with nil and the addition raises, so the handler
    answers 500 (`Web.ShortSecondSumSeriesIsInternalError`).
  - The aggregation field is any string, not a closed set. An unknown field
    gives nil samples, and the single-metric check then answers 500
    (`Web.MissingFieldIsInternalError`).
  - A metric parameter ending in a comma (`"a,"`) splits into one name. It
    therefore passes the multi-metric check.

## Model

| member | source | states |
|---|---|---|
| `CompositeMetric.ForInvertsName` | lib/umpire/librato_metrics.rb:55-65 | `for` accepts exactly "sum", "divide" and "multiply" and maps them back to the names that select them. Any other name fails with MetricNotComposite "invalid compose function: <name>". |
| `CompositeMetric.MapAllSpec` | lib/umpire/librato_metrics.rb:73-75 | A Ruby `map` whose block may raise succeeds iff the block succeeds everywhere, and then holds the block's results in order. Otherwise it fails with the error of the first failing element. |
| `CompositeMetric.CompactSpec` | lib/umpire/librato_metrics.rb:85 | `compact` keeps exactly the non-nil entries, in their original order, one per position where the entry is non-nil. |
| `CompositeMetric.CompactAllPresent` | lib/umpire/librato_metrics.rb:85 | `compact` of a series with no nil returns its numbers unchanged. |
| `CompositeMetric.PositionsSpec` | lib/umpire/librato_metrics.rb:83-85 | The reference list of kept positions is ascending, lists exactly the positions whose mask holds, and is full length iff the mask holds everywhere. |
| `CompositeMetric.SumPointwise` | lib/umpire/librato_metrics.rb:71-75 | Sum succeeds iff the second series has at least as many entries as the first and neither has a nil there. The result then has exactly \|a\| entries, each a[i] + b[i]. |
| `CompositeMetric.SumTotal` | lib/umpire/librato_metrics.rb:71-75 | The total of a successful Sum is the total of the first series plus the total of the second series' first \|a\| entries. |
| `CompositeMetric.DivisionSelectsUsableDivisors` | lib/umpire/librato_metrics.rb:82-86 | Division holds `a[i].to_f / b[i]` for exactly those i < \|a\| where b[i] exists and is non-zero, in ascending order of i. Entries of b beyond \|a\| play no part. |
| `CompositeMetric.DivisionLength` | lib/umpire/librato_metrics.rb:83-85 | Division has at most \|a\| entries. It has exactly \|a\| iff every divisor is present and non-zero. |
| `CompositeMetric.DivisionKeepsEveryPosition` | lib/umpire/librato_metrics.rb:83-85 | When every divisor is usable, Division's entry i is a[i] / b[i] for each i. |
| `CompositeMetric.MultiplicationSucceeds` | lib/umpire/librato_metrics.rb:92-96 | Multiplication fails iff some first operand is nil where the second operand exists (`nil * v2` raises). The failure is the unrescued error. |
| `CompositeMetric.MultiplicationSteps` | lib/umpire/librato_metrics.rb:93-94 | A successful map yields a[i] * b[i] where b[i] exists and nil where it does not. |
| `CompositeMetric.MultiplicationSelectsPresentOperands` | lib/umpire/librato_metrics.rb:92-96 | A successful Multiplication holds a[i] * b[i] for exactly those i < \|a\| where b[i] exists, in ascending order. Zero operands are kept. |
| `CompositeMetric.MultiplicationLength` | lib/umpire/librato_metrics.rb:93-95 | Multiplication has at most \|a\| entries. It has exactly \|a\| iff every second operand is present. |
| `CompositeMetric.MultiplicationKeepsEveryPosition` | lib/umpire/librato_metrics.rb:93-95 | With no nil operand and b covering a, Multiplication succeeds with entry i equal to a[i] * b[i]. |
| `CompositeMetric.DivisionUndoesMultiplication` | lib/umpire/librato_metrics.rb:82-96 | Dividing the product series by the same non-zero divisors returns the first series. |
| `CompositeMetric.MultiplicationUndoesDivision` | lib/umpire/librato_metrics.rb:82-96 | Multiplying the quotient series by the same divisors returns the dividend series. |
| `CompositeMetric.SumExample` | lib/umpire/librato_metrics.rb:71-75 | sum of [1,2,3] and [4,5,6] is [5,7,9]. |
| `CompositeMetric.DivisionExample` | lib/umpire/librato_metrics.rb:82-86 | [10,20] divided by [2,0] is [5.0]: the zero divisor drops its position. |
| `CompositeMetric.MultiplicationExample` | lib/umpire/librato_metrics.rb:92-96 | [2,3] multiplied by [4] is [8]: the missing operand drops its position. |
| `LibratoMetrics.ProjectionShape` | lib/umpire/librato_metrics.rb:27 | The series is empty iff the response has no "all" key or an empty "all" list. It holds no nil iff every bucket carries the field, and then its numbers are the buckets' field values, in order. A bucket without the field yields nil. |
| `LibratoMetrics.GetValuesTranslatesClient` | lib/umpire/librato_metrics.rb:16-33 | The adapter fails exactly when the client raises. NotFound becomes MetricNotFound, NetworkError becomes MetricServiceRequestFailed, and any other exception passes through. On success the result is the projection. |
| `LibratoMetrics.ArityCheckedFirst` | lib/umpire/librato_metrics.rb:35-38 | nil or fewer than 2 metrics gives "too few metrics", and more than 2 gives "too many metrics". This holds for every function name and every client, so neither is consulted. |
| `LibratoMetrics.FunctionResolvedBeforeFetch` | lib/umpire/librato_metrics.rb:39-40 | With two metrics, an unknown function name fails with its message whatever the client would answer. |
| `LibratoMetrics.ComposeFetchesInOrder` | lib/umpire/librato_metrics.rb:39-41 | With two metrics and a known function, the first metric's fetch error wins, then the second's. When both succeed, the result is the composite of the two series, in the order the metrics were named. |
| `RubyString.JoinFields` | lib/umpire/web.rb:50 | Cutting at every comma gives comma-free fields that join back to the input. |
| `RubyString.SplitJoin` | lib/umpire/web.rb:50 | `split(",")` gives comma-free parts. They join back to the string unless it ends in a comma. |
| `RubyString.SplitDropsTrailingEmpty` | lib/umpire/web.rb:50 | `split(",")` is a prefix of the fields cut at every comma. It is empty or ends in a non-empty field, and everything it removes is an empty field, so "a,," gives ["a"]. |
| `RubyString.SplitWithoutComma` | lib/umpire/web.rb:50 | A name without a comma splits into itself alone, and the empty string splits into nothing. |
| `RubyString.SplitPair` | lib/umpire/web.rb:50-54 | Two comma-free names joined by a comma split back into exactly those two names, provided the second is not empty. |
| `RubyString.SplitExamples` | lib/umpire/web.rb:50 | "a,b" gives ["a","b"], "a," gives ["a"], ",a" gives ["","a"], "," gives [] and "a,," gives ["a"]. |
| `Web.MissingParametersRejected` | lib/umpire/web.rb:36-38 | Without a metric, a range, or at least one of min/max, the reply is 400 "missing parameters" for every backend, so nothing is fetched. |
| `Web.ValidRequestIsEvaluated` | lib/umpire/web.rb:62-84 | A valid request whose series is retrieved gets 200, 404 or 500, never "missing parameters". |
| `Web.EmptySeries` | lib/umpire/web.rb:73-75 | An empty series gives 200 if empty_ok is set and 404 otherwise, both with "no values for metric in range". |
| `Web.ReportsMean` | lib/umpire/web.rb:77-83 | A non-empty series of numbers is reported as sum/count. The status is 500 iff the mean is below a given min or above a given max, and 200 otherwise, so a mean equal to a bound passes. |
| `Web.NilSampleIsInternalError` | lib/umpire/web.rb:77 | A nil sample makes the mean raise, giving 500 "internal server error". |
| `Web.MeanRespectsSampleBounds` | lib/umpire/web.rb:77-78 | If every sample respects the given bounds, so does their mean. |
| `Web.MeanBelowSampleBound` | lib/umpire/web.rb:77-78 | If every sample is below min, the mean violates min. |
| `Web.MeanAboveSampleBound` | lib/umpire/web.rb:77-78 | If every sample is above max, the mean violates max. |
| `Web.SampleBoundsDecideStatus` | lib/umpire/web.rb:77-83 | All samples within the bounds gives 200. All samples beyond one given bound gives 500. |
| `Web.OtherBackendsAreGraphite` | lib/umpire/web.rb:44-48 | Any backend other than exactly "librato", absent included, asks Graphite for the metric string as given, with no multi-metric check. |
| `Web.MultipleMetricsNeedCompose` | lib/umpire/web.rb:50-52 | On Librato without compose, a metric that splits into several names gives 400 "multiple metrics without a compose function". |
| `Web.SingleLibratoMetric` | lib/umpire/web.rb:45-55 | On Librato without compose, a single name is fetched with the requested field, or "value" when none is requested. |
| `Web.ComposedLibratoMetric` | lib/umpire/web.rb:54 | On Librato with compose, the split names go to the composite. Too few names, too many names or an unknown function each give 400 with the matching message. With two names and a known function, a failed fetch of the first name, then of the second, decides the error. Otherwise the series is the composite of the two fetched series, in the order named, or the composite's own error. |
| `Web.FailuresMapToStatus` | lib/umpire/web.rb:85-93 | MetricNotComposite gives 400 with its message, MetricNotFound gives 404 "metric not found", MetricServiceRequestFailed gives 503, and any other exception gives 500. |
| `Web.ShortSecondSumSeriesIsInternalError` | lib/umpire/librato_metrics.rb:73-74 | A Librato sum whose second series is shorter than the first makes Ruby add nil, and the handler answers 500. |
| `Web.MissingFieldIsInternalError` | lib/umpire/web.rb:55 | On Librato without compose, a response whose "all" list has a bucket without the requested field gives a nil sample, so the check answers 500 "internal server error". |
| `Web.CpuLoadFetch` | lib/umpire/web.rb:55 | A single Librato metric's buckets come back as its series. |
| `Web.CpuLoadPasses` | lib/umpire/web.rb:77-83 | cpu.load over 60s at [0.5, 0.6, 0.55] against max 0.8 gives 200 with value 0.55. |
| `Web.CpuLoadFails` | lib/umpire/web.rb:77-83 | The same check at [0.9, 0.95] gives 500 with value 0.925. |
| `Web.RatioFetch` | lib/umpire/web.rb:54 | Two metrics composed with divide, at [10, 20] and [2, 0], give the series [5.0]. The zero divisor drops its position. |
| `Web.RatioPasses` | lib/umpire/web.rb:54-83 | The same request against max 10 gives 200 with value 5.0. |
| `Web.UnknownMetricNotFound` | lib/umpire/web.rb:88-90 | Any comma-free metric that the backend does not know gives 404 "metric not found". |

## Left out

- Authentication (`protected!`, `authorized?`, the memoised `@auth`, scope lookup): a request is taken to be authorised. These depend on rack objects and external configuration.
- Sinatra routing, the `before` filter, JSON text formatting, `/health` and the catch-all 404 route are framework plumbing. Of the generic `error` block, only its status and message are modelled.
- SSL enforcement, instrumentation, server start, the TERM trap and logging are process and I/O concerns.
- The Librato client: its construction, authentication, the `@client` memoisation and the network call are one abstract function parameter. `Time.now` is read inside that call: the query carries `range`, and the client computes the start time. Two fetches of a composite with the same metric name therefore see the same answer.
- The Graphite adapter appears only as a function parameter, because its code is not part of this model.
- Ruby's `to_i`/`to_f` string parsing is left out: parameters arrive parsed. IEEE float rounding is left out too, since samples are exact reals. Ruby's Integer/Float distinction is not modelled.
- The exception classes are declared outside the two modelled files. They appear only as the `MetricError` kinds.
