/** `slice::chunks`: the metric data is split into consecutive requests of at
    most METRIC_DATA_CHUNK_SIZE data each. */
module Batching {

  /** PutMetricData accepts at most this many metric data per request. */
  const METRIC_DATA_CHUNK_SIZE: nat := 20

  /** `xs.chunks(size)`: consecutive pieces of `size` elements; the last piece
      holds whatever remains. An empty sequence has no chunks. Rust panics when
      `size` is zero, so a positive size is required. */
  function Chunks<T>(xs: seq<T>, size: nat): (chunks: seq<seq<T>>)
    requires size > 0
    ensures chunks == [] <==> xs == []
    ensures |chunks| <= |xs|
    decreases |xs|
  {
    if xs == [] then []
    else if |xs| <= size then [xs]
    else [xs[..size]] + Chunks(xs[size..], size)
  }

  /** The chunks laid end to end. */
  function Flatten<T>(chunks: seq<seq<T>>): seq<T> {
    if chunks == [] then [] else chunks[0] + Flatten(chunks[1..])
  }

  /** The shape `chunks` promises: no chunk is empty or larger than `size`, and
      only the last one may be shorter than `size`. */
  predicate IsChunking<T>(chunks: seq<seq<T>>, size: nat) {
    forall i :: 0 <= i < |chunks| ==>
      0 < |chunks[i]| <= size && (i < |chunks| - 1 ==> |chunks[i]| == size)
  }

  /** Lossless and order-preserving: the chunks concatenate back to the input. */
  lemma {:induction false} FlattenChunks<T>(xs: seq<T>, size: nat)
    requires size > 0
    ensures Flatten(Chunks(xs, size)) == xs
    decreases |xs|
  {
    if |xs| > size {
      var cs := Chunks(xs, size);
      FlattenChunks(xs[size..], size);
      assert cs[1..] == Chunks(xs[size..], size);
      assert xs == xs[..size] + xs[size..];
    } else if xs != [] {
      assert Flatten([xs]) == xs + Flatten<T>([]);
    }
  }

  /** Every chunk but the last is full; the last holds between 1 and `size`. */
  lemma {:induction false} ChunksShape<T>(xs: seq<T>, size: nat)
    requires size > 0
    ensures IsChunking(Chunks(xs, size), size)
    decreases |xs|
  {
    if |xs| > size {
      ChunksShape(xs[size..], size);
      var cs := Chunks(xs, size);
      assert cs[1..] == Chunks(xs[size..], size);
      forall i | 1 <= i < |cs| ensures 0 < |cs[i]| <= size && (i < |cs| - 1 ==> |cs[i]| == size) {
        assert cs[i] == cs[1..][i - 1];
      }
    }
  }

  /** `chunks` is the only split with that shape: a split into chunks of the
      promised shape that concatenates to `xs` is `Chunks(xs, size)`. */
  lemma {:induction false} ChunkingIsUnique<T>(chunks: seq<seq<T>>, xs: seq<T>, size: nat)
    requires size > 0
    requires IsChunking(chunks, size) && Flatten(chunks) == xs
    ensures chunks == Chunks(xs, size)
    decreases |chunks|
  {
    if chunks != [] {
      var rest := chunks[1..];
      assert xs == chunks[0] + Flatten(rest);
      assert IsChunking(rest, size) by {
        forall i | 0 <= i < |rest| ensures 0 < |rest[i]| <= size && (i < |rest| - 1 ==> |rest[i]| == size) {
          assert rest[i] == chunks[i + 1];
        }
      }
      if rest == [] {
        assert xs == chunks[0];
      } else {
        assert |chunks[0]| == size;
        assert |Flatten(rest)| > 0 by {
          assert Flatten(rest) == rest[0] + Flatten(rest[1..]);
        }
        assert xs[..size] == chunks[0];
        assert xs[size..] == Flatten(rest);
        ChunkingIsUnique(rest, xs[size..], size);
        assert chunks == [chunks[0]] + rest;
      }
    }
  }

  /** The split the request loop walks through. */
  function MetricDataChunks<T>(data: seq<T>): seq<seq<T>> {
    Chunks(data, METRIC_DATA_CHUNK_SIZE)
  }

  /** There are ceil(N / 20) requests, none when there is no data. */
  lemma {:induction false} MetricDataChunksCount<T>(data: seq<T>)
    ensures |MetricDataChunks(data)| == (|data| + METRIC_DATA_CHUNK_SIZE - 1) / METRIC_DATA_CHUNK_SIZE
    decreases |data|
  {
    if |data| > METRIC_DATA_CHUNK_SIZE {
      MetricDataChunksCount(data[METRIC_DATA_CHUNK_SIZE..]);
    }
  }

  /** 45 data go out as three requests of 20, 20 and 5. */
  lemma FortyFiveDataInThreeRequests<T>(data: seq<T>)
    requires |data| == 45
    ensures |MetricDataChunks(data)| == 3
    ensures |MetricDataChunks(data)[0]| == 20
    ensures |MetricDataChunks(data)[1]| == 20
    ensures |MetricDataChunks(data)[2]| == 5
  {
    var cs := MetricDataChunks(data);
    assert cs == [data[..20]] + Chunks(data[20..], 20);
    assert Chunks(data[20..], 20) == [data[20..][..20]] + Chunks(data[20..][20..], 20);
    assert Chunks(data[20..][20..], 20) == [data[20..][20..]];
  }
}
