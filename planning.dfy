/** Per-interval request planning in fetch_timeseries
    (polybridge/client.py:287-314): the interval's ids deduplicated and
    sorted, cut into chunks, one payload per chunk. */
module Planning {
  import opened Types
  import opened Horizons
  import opened Ordering
  import opened Chunking

  /** The position of a known block in KnownBlocks. */
  function BlockRank(block: string): nat
  {
    if block == "probabilities" then 0 else if block == "prices" then 1 else 2
  }

  /** The `blocks` list of a payload: "probabilities" when asked for, then
      "prices" when asked for, then "options_metrics" when asked for and the
      interval is "1d". */
  function RequestedBlocks(opts: Options, interval: string): (r: seq<string>)
    ensures "probabilities" in r <==> opts.includeProbabilities
    ensures "prices" in r <==> opts.includePrices
    ensures "options_metrics" in r <==> opts.includeOptionsMetrics && interval == "1d"
    ensures forall b :: b in r ==> b in KnownBlocks
    ensures forall i, j :: 0 <= i < j < |r| ==> BlockRank(r[i]) < BlockRank(r[j])
  {
    (if opts.includeProbabilities then ["probabilities"] else [])
    + (if opts.includePrices then ["prices"] else [])
    + (if opts.includeOptionsMetrics && interval == "1d" then ["options_metrics"] else [])
  }

  /** No interval the horizon map produces ever gets "options_metrics" into
      a payload, whatever the caller's switches. */
  lemma OptionsMetricsNeverRequested(horizon: string, opts: Options)
    requires IntervalOf(horizon).Some?
    ensures "options_metrics" !in RequestedBlocks(opts, IntervalOf(horizon).value)
  {
    NoMappedIntervalIsDaily(horizon);
  }

  /** The payload for one chunk of one interval. */
  function PayloadFor(chunk: seq<string>, interval: string, window: Window, opts: Options): (p: Payload)
    ensures p.markets == chunk && p.interval == interval
    ensures p.startTs == window.startTs && p.endTs == window.endTs
    ensures p.blocks == RequestedBlocks(opts, interval)
    ensures p.prices.Some? <==> opts.includePrices
    ensures p.prices.Some? ==> p.prices.value == PriceOptions(opts.pricesInstrument, opts.includeOpenInterest)
  {
    Payload(chunk, interval, window.startTs, window.endTs, RequestedBlocks(opts, interval),
      if opts.includePrices then Some(PriceOptions(opts.pricesInstrument, opts.includeOpenInterest)) else None)
  }

  /** The payloads of one interval, one per chunk of `sorted(set(ids))`, in
      the order they are sent. */
  function GroupPayloads(interval: string, ids: seq<string>, window: Window, opts: Options): Result<seq<Payload>>
  {
    var chunks :- ChunkSpec(SortedUnique(ids), opts.chunkSize);
    Ok(ChunkPayloads(chunks, interval, window, opts))
  }

  /** One payload per chunk, in chunk order. */
  function ChunkPayloads(chunks: seq<seq<string>>, interval: string, window: Window, opts: Options): seq<Payload>
  {
    seq(|chunks|, k requires 0 <= k < |chunks| => PayloadFor(chunks[k], interval, window, opts))
  }

  /** The market ids of a sequence of payloads, one payload after another. */
  function MarketsOf(ps: seq<Payload>): seq<string>
  {
    if ps == [] then [] else ps[0].markets + MarketsOf(ps[1..])
  }

  lemma {:induction false} MarketsOfPayloads(chunks: seq<seq<string>>, interval: string, window: Window, opts: Options)
    ensures MarketsOf(seq(|chunks|, k requires 0 <= k < |chunks| => PayloadFor(chunks[k], interval, window, opts)))
      == Concat(chunks)
    decreases |chunks|
  {
    if chunks != [] {
      var ps := seq(|chunks|, k requires 0 <= k < |chunks| => PayloadFor(chunks[k], interval, window, opts));
      var tail := chunks[1..];
      assert ps[1..] == seq(|tail|, k requires 0 <= k < |tail| => PayloadFor(tail[k], interval, window, opts));
      MarketsOfPayloads(tail, interval, window, opts);
    }
  }

  /** With a positive chunk size the plan for an interval is one payload per
      chunk of the sorted distinct ids. */
  lemma GroupPlanChunks(interval: string, ids: seq<string>, window: Window, opts: Options)
    requires opts.chunkSize > 0
    ensures GroupPayloads(interval, ids, window, opts)
         == Ok(ChunkPayloads(ChunksOf(SortedUnique(ids), opts.chunkSize), interval, window, opts))
  {
    assert ChunkSpec(SortedUnique(ids), opts.chunkSize) == Ok(ChunksOf(SortedUnique(ids), opts.chunkSize));
  }

  /** The plan for an interval needs ceil(n / chunk_size) payloads for its n
      distinct ids. */
  lemma GroupPlanCount(interval: string, ids: seq<string>, window: Window, opts: Options)
    requires opts.chunkSize > 0
    ensures GroupPayloads(interval, ids, window, opts).Ok?
    ensures var ps := GroupPayloads(interval, ids, window, opts).value;
      && |ps| * opts.chunkSize >= |set x | x in ids|
      && (|ps| > 0 ==> (|ps| - 1) * opts.chunkSize < |set x | x in ids|)
  {
    var unique := SortedUnique(ids);
    var chunks := ChunksOf(unique, opts.chunkSize);
    GroupPlanChunks(interval, ids, window, opts);
    var count := |GroupPayloads(interval, ids, window, opts).value|;
    assert count == |chunks|;
    assert |set x | x in ids| == |unique| by {
      StrictlySortedCount(unique);
      assert (set x | x in ids) == (set x | x in unique);
    }
    ChunkCount(unique, opts.chunkSize);
  }

  /** Every payload of the plan for an interval is for that interval, asks
      for the same blocks, and holds between one id and chunk_size ids. */
  lemma GroupPlanShape(interval: string, ids: seq<string>, window: Window, opts: Options)
    requires opts.chunkSize > 0
    ensures GroupPayloads(interval, ids, window, opts).Ok?
    ensures forall p :: p in GroupPayloads(interval, ids, window, opts).value ==>
      p.interval == interval && p.blocks == RequestedBlocks(opts, interval) && 0 < |p.markets| <= opts.chunkSize
  {
    var chunks := ChunksOf(SortedUnique(ids), opts.chunkSize);
    GroupPlanChunks(interval, ids, window, opts);
    var ps := ChunkPayloads(chunks, interval, window, opts);
    forall p | p in ps
      ensures p.interval == interval && p.blocks == RequestedBlocks(opts, interval) && 0 < |p.markets| <= opts.chunkSize
    {
      var k :| 0 <= k < |ps| && ps[k] == p;
      assert p == PayloadFor(chunks[k], interval, window, opts);
    }
  }

  /** With a positive chunk size the plan for an interval sends every
      distinct id exactly once, in ascending order, in ceil(n / chunk_size)
      payloads of at most chunk_size ids, all for that interval and with the
      same blocks. */
  lemma GroupPlan(interval: string, ids: seq<string>, window: Window, opts: Options)
    requires opts.chunkSize > 0
    ensures GroupPayloads(interval, ids, window, opts).Ok?
    ensures var ps := GroupPayloads(interval, ids, window, opts).value;
      && MarketsOf(ps) == SortedUnique(ids)
      && StrictlySorted(MarketsOf(ps))
      && (forall x :: x in MarketsOf(ps) <==> x in ids)
      && |ps| * opts.chunkSize >= |set x | x in ids|
      && (|ps| > 0 ==> (|ps| - 1) * opts.chunkSize < |set x | x in ids|)
      && (forall p :: p in ps ==>
            p.interval == interval && p.blocks == RequestedBlocks(opts, interval) && 0 < |p.markets| <= opts.chunkSize)
  {
    var unique := SortedUnique(ids);
    var chunks := ChunksOf(unique, opts.chunkSize);
    GroupPlanChunks(interval, ids, window, opts);
    assert MarketsOf(ChunkPayloads(chunks, interval, window, opts)) == unique by {
      MarketsOfPayloads(chunks, interval, window, opts);
      ChunksConcat(unique, opts.chunkSize);
    }
    GroupPlanCount(interval, ids, window, opts);
    GroupPlanShape(interval, ids, window, opts);
  }

  /** A call that leaves every switch at its default sends each distinct id
      of an interval once, in ascending order, at most ten per payload, and
      every payload asks for probabilities and spot prices with open
      interest. */
  lemma DefaultPlan(interval: string, ids: seq<string>, window: Window)
    ensures GroupPayloads(interval, ids, window, DefaultOptions).Ok?
    ensures var ps := GroupPayloads(interval, ids, window, DefaultOptions).value;
      && MarketsOf(ps) == SortedUnique(ids)
      && forall p :: p in ps ==>
           && p.blocks == ["probabilities", "prices"]
           && p.prices == Some(PriceOptions("spot", true))
           && 0 < |p.markets| <= 10
  {
    var opts := DefaultOptions;
    GroupPlan(interval, ids, window, opts);
    var chunks := ChunksOf(SortedUnique(ids), opts.chunkSize);
    var ps := ChunkPayloads(chunks, interval, window, opts);
    forall p | p in ps
      ensures p.prices == Some(PriceOptions("spot", true))
    {
      var k :| 0 <= k < |ps| && ps[k] == p;
      assert p == PayloadFor(chunks[k], interval, window, opts);
    }
  }

  /** A zero chunk size fails before any payload is built; a negative one
      plans no payload at all, so the interval is requested with nothing. */
  lemma GroupPlanBadChunkSize(interval: string, ids: seq<string>, window: Window, opts: Options)
    requires opts.chunkSize <= 0
    ensures opts.chunkSize == 0 ==> GroupPayloads(interval, ids, window, opts) == Err(ZeroChunkSize)
    ensures opts.chunkSize < 0 ==> GroupPayloads(interval, ids, window, opts) == Ok([])
  {
    var none: seq<seq<string>> := [];
    assert seq(|none|, k requires 0 <= k < |none| => PayloadFor(none[k], interval, window, opts)) == [];
  }
}
