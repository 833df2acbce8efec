/** `scrape_to_metric_data` and the request loop of `main`: every parsed sample
    becomes one CloudWatch metric datum, and the data are sent in requests of at
    most twenty, stopping at the first request that fails. */
module Federator {
  import opened Labels
  import opened DimensionMapper
  import opened Batching

  datatype Option<T> = None | Some(value: T)

  /** One bucket of a histogram sample. */
  datatype HistogramCount = HistogramCount(lessThan: real, count: real)

  /** One quantile of a summary sample. */
  datatype SummaryCount = SummaryCount(quantile: real, count: real)

  /** The parser's typed sample value. */
  datatype Value =
    | Counter(value: real)
    | Gauge(value: real)
    | Histogram(buckets: seq<HistogramCount>)
    | Summary(quantiles: seq<SummaryCount>)
    | Untyped(value: real)

  /** A parsed sample. The timestamp is carried as its RFC 3339 rendering. */
  datatype Sample = Sample(metric: string, value: Value, labels: seq<Label>, timestamp: string)

  /** The fields of a CloudWatch `MetricDatum` that the federator fills in. */
  datatype MetricDatum = MetricDatum(metricName: string, dimensions: seq<Dimension>, value: real, timestamp: string)

  /** The namespace used when none is configured. */
  const DEFAULT_CLOUDWATCH_NAMESPACE: string := "Prometheus"

  /** Values that carry a single number. */
  predicate IsScalar(v: Value) {
    v.Counter? || v.Gauge? || v.Untyped?
  }

  /** The value `match`: a single-number value passes through; a histogram or a
      summary has no single number and is sent as 0.0 (with a warning) rather
      than dropped. */
  function SelectValue(v: Value): (r: real)
    ensures IsScalar(v) ==> r == v.value
    ensures !IsScalar(v) ==> r == 0.0
  {
    match v
    case Counter(x) => x
    case Gauge(x) => x
    case Untyped(x) => x
    case _ => 0.0
  }

  /** The closure that maps one sample. */
  function DatumOf(sample: Sample): MetricDatum {
    MetricDatum(sample.metric, DimensionsOf(sample.labels), SelectValue(sample.value), sample.timestamp)
  }

  /** `scrape_to_metric_data`: one datum per sample, in sample order, named
      after the sample's metric, carrying the sample's dimensions, value and
      timestamp. */
  function ScrapeToMetricData(samples: seq<Sample>): (data: seq<MetricDatum>)
    ensures |data| == |samples|
  {
    seq(|samples|, i requires 0 <= i < |samples| => DatumOf(samples[i]))
  }

  /** Datum `i` is made from sample `i` alone: its name is the metric name
      verbatim, its dimensions are the sample's mapped labels, and its value and
      timestamp are the sample's. */
  lemma MetricDataFields(samples: seq<Sample>, i: nat)
    requires i < |samples|
    ensures ScrapeToMetricData(samples)[i].metricName == samples[i].metric
    ensures ScrapeToMetricData(samples)[i].dimensions == DimensionsOf(samples[i].labels)
    ensures ScrapeToMetricData(samples)[i].value == SelectValue(samples[i].value)
    ensures ScrapeToMetricData(samples)[i].timestamp == samples[i].timestamp
  {
  }

  /** What the CloudWatch API demands of a datum's dimensions holds for every
      datum built: at most ten, ascending by name, none blank, all taken from the
      sample's labels. */
  predicate DimensionsAcceptable(datum: MetricDatum, sample: Sample) {
    && |datum.dimensions| <= DIMENSION_MAX
    && SortedByName(datum.dimensions)
    && forall d :: d in datum.dimensions ==> d in sample.labels && Qualifies(d)
  }

  lemma MetricDataWellFormed(samples: seq<Sample>)
    ensures forall i :: 0 <= i < |samples| ==>
      DimensionsAcceptable(ScrapeToMetricData(samples)[i], samples[i])
  {
    var data := ScrapeToMetricData(samples);
    forall i | 0 <= i < |samples| ensures DimensionsAcceptable(data[i], samples[i]) {
      MetricDataFields(samples, i);
      DimensionsWellFormed(samples[i].labels);
    }
  }

  /** The mapping works sample by sample: mapping two runs of samples and
      concatenating is mapping their concatenation. No sample is dropped,
      merged or reordered. */
  lemma MetricDataDistributes(a: seq<Sample>, b: seq<Sample>)
    ensures ScrapeToMetricData(a + b) == ScrapeToMetricData(a) + ScrapeToMetricData(b)
  {
  }

  /** The numbers the value rule gives for each kind of value. */
  lemma ValueSelectionExamples(buckets: seq<HistogramCount>, quantiles: seq<SummaryCount>)
    ensures SelectValue(Counter(5.0)) == 5.0
    ensures SelectValue(Gauge(-2.5)) == -2.5
    ensures SelectValue(Untyped(0.0)) == 0.0
    ensures SelectValue(Histogram(buckets)) == 0.0
    ensures SelectValue(Summary(quantiles)) == 0.0
  {
  }

  /** `env::var("CLOUDWATCH_NAMESPACE").unwrap_or(...)`. `configured` is
      `Some(v)` when `env::var` returns `Ok(v)` (even for the empty string) and
      `None` when it returns an error, that is when the variable is unset or its
      value is not valid Unicode. The namespace is `v` in the first case and
      "Prometheus" in the second. */
  function NamespaceOf(configured: Option<string>): (namespace: string)
    ensures configured.Some? ==> namespace == configured.value
    ensures configured.None? ==> namespace == DEFAULT_CLOUDWATCH_NAMESPACE
  {
    match configured
    case Some(n) => n
    case None => DEFAULT_CLOUDWATCH_NAMESPACE
  }

  /** The request body of one `put_metric_data` call. */
  datatype PutMetricDataInput = PutMetricDataInput(metricData: seq<MetricDatum>, namespace: string)

  /** What one `put_metric_data` call returns. */
  datatype Outcome = Accepted | Failed(error: string)

  /** How a run ends: every request accepted, or the index of the request
      whose failure ended it and the error it returned. */
  datatype RunResult = Completed | SubmissionFailed(request: nat, error: string)

  /** One request per chunk, in order, all under the same namespace. */
  function Requests(namespace: string, chunks: seq<seq<MetricDatum>>): (requests: seq<PutMetricDataInput>)
    ensures |requests| == |chunks|
    ensures forall i :: 0 <= i < |chunks| ==>
      requests[i].metricData == chunks[i] && requests[i].namespace == namespace
  {
    seq(|chunks|, i requires 0 <= i < |chunks| => PutMetricDataInput(chunks[i], namespace))
  }

  /** The data carried by a list of requests, request by request. */
  function DataOf(requests: seq<PutMetricDataInput>): seq<seq<MetricDatum>> {
    seq(|requests|, i requires 0 <= i < |requests| => requests[i].metricData)
  }

  /** The `for chunk in ... { client.put_metric_data(input).await? }` loop. The
      client is represented by `respond`, the outcome of its i-th call. Requests
      go out one at a time in chunk order; the first failure ends the run and no
      later chunk is sent. */
  method SubmitChunks(namespace: string, chunks: seq<seq<MetricDatum>>, respond: nat -> Outcome)
    returns (sent: seq<PutMetricDataInput>, result: RunResult)
    ensures |sent| <= |chunks| && sent == Requests(namespace, chunks)[..|sent|]
    ensures forall i :: 0 <= i < |sent| - 1 ==> respond(i) == Accepted
    ensures result == Completed <==>
      |sent| == |chunks| && forall i :: 0 <= i < |chunks| ==> respond(i) == Accepted
    ensures result.SubmissionFailed? ==>
      |sent| == result.request + 1 && respond(result.request) == Failed(result.error)
  {
    var requests := Requests(namespace, chunks);
    sent, result := [], Completed;
    var i := 0;
    while i < |chunks|
      invariant 0 <= i <= |chunks|
      invariant sent == requests[..i]
      invariant forall k :: 0 <= k < i ==> respond(k) == Accepted
    {
      sent := sent + [PutMetricDataInput(chunks[i], namespace)];
      var outcome := respond(i);
      if outcome.Failed? {
        result := SubmissionFailed(i, outcome.error);
        return;
      }
      i := i + 1;
    }
  }

  /** `main` after the snapshot has been fetched and parsed: build the data,
      split it into chunks of twenty, send them. The requests sent are the first
      ones of the `chunks(20)` split, each under the configured namespace and
      holding one to twenty data. The run completes exactly when every request
      was sent and accepted, and then every datum went out exactly once, in
      sample order; otherwise it ends at the first failed request, after which
      nothing is sent. */
  method Federate(samples: seq<Sample>, configured: Option<string>, respond: nat -> Outcome)
    returns (sent: seq<PutMetricDataInput>, result: RunResult)
    ensures |sent| <= |MetricDataChunks(ScrapeToMetricData(samples))|
    ensures sent == Requests(NamespaceOf(configured), MetricDataChunks(ScrapeToMetricData(samples)))[..|sent|]
    ensures result == Completed <==>
      |sent| == |MetricDataChunks(ScrapeToMetricData(samples))| &&
      forall i :: 0 <= i < |sent| ==> respond(i) == Accepted
    ensures result.SubmissionFailed? ==>
      && |sent| == result.request + 1
      && respond(result.request) == Failed(result.error)
      && forall i :: 0 <= i < result.request ==> respond(i) == Accepted
    ensures forall i :: 0 <= i < |sent| ==>
      sent[i].namespace == NamespaceOf(configured) &&
      0 < |sent[i].metricData| <= METRIC_DATA_CHUNK_SIZE
    ensures Flatten(DataOf(sent)) <= ScrapeToMetricData(samples)
    ensures result == Completed ==> Flatten(DataOf(sent)) == ScrapeToMetricData(samples)
  {
    var namespace := NamespaceOf(configured);
    var data := ScrapeToMetricData(samples);
    var chunks := MetricDataChunks(data);
    sent, result := SubmitChunks(namespace, chunks, respond);
    ChunksShape(data, METRIC_DATA_CHUNK_SIZE);
    FlattenChunks(data, METRIC_DATA_CHUNK_SIZE);
    assert DataOf(sent) == chunks[..|sent|];
    FlattenPrefix(chunks, |sent|);
  }

  /** The chunks sent so far laid end to end are a prefix of all of them laid
      end to end. */
  lemma {:induction false} FlattenPrefix<T>(chunks: seq<seq<T>>, n: nat)
    requires n <= |chunks|
    ensures Flatten(chunks) == Flatten(chunks[..n]) + Flatten(chunks[n..])
  {
    if n > 0 {
      FlattenPrefix(chunks[1..], n - 1);
      assert chunks[1..][..n - 1] == chunks[..n][1..];
      assert chunks[1..][n - 1..] == chunks[n..];
    } else {
      assert chunks[..n] == [];
      assert chunks[n..] == chunks;
    }
  }
}
