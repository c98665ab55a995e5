/** PolybridgeClient: the api_key check of its constructor
    (polybridge/client.py:75-76) and fetch_timeseries
    (polybridge/client.py:255-329), with every POST made through `post`, a
    function from a payload to the decoded response or the failure the POST
    raises, and the catalog request given by its reply. */
module Client {
  import opened Types
  import opened Ordering
  import opened Chunking
  import opened Grouping
  import opened Planning
  import opened Merging
  import opened Frames

  /** A client as far as the fetch pipeline depends on it. */
  datatype Client = Client(apiKey: string, timeout: int)

  /** `PolybridgeClient(api_key, timeout=...)`: an empty key is refused. */
  function NewClient(apiKey: string, timeout: int): (r: Result<Client>)
    ensures r.Err? <==> apiKey == ""
    ensures r.Err? ==> r.error == MissingApiKey
    ensures r.Ok? ==> r.value.apiKey == apiKey && r.value.timeout == timeout
  {
    if apiKey == "" then Err(MissingApiKey) else Ok(Client(apiKey, timeout))
  }

  /** The chunk loop of one interval: each payload is sent in turn and its
      response merged into the accumulator; the first request or merge that
      raises ends the fetch. `sent` is the log of payloads sent so far. */
  function PostChunks(payloads: seq<Payload>, acc: Document, sent: seq<Payload>,
                      post: Payload -> Result<Document>): Fetched<Document>
    decreases |payloads|
  {
    if payloads == [] then Fetched(Ok(acc), sent)
    else
      var p := payloads[0];
      match post(p)
      case Err(e) => Fetched(Err(e), sent + [p])
      case Ok(response) =>
        match Merge(acc, response)
        case Err(e) => Fetched(Err(e), sent + [p])
        case Ok(merged) => PostChunks(payloads[1..], merged, sent + [p], post)
  }

  /** What the loop over interval groups has built so far. */
  datatype Collected = Collected(responses: map<string, Document>, dataframes: map<string, Table>)

  /** One turn of the loop over interval groups: plan the interval's
      payloads, send them, merge the responses, store the merged response
      under the interval and its tables under their names. */
  function FetchGroup(g: Group, groupCount: nat, window: Window, opts: Options,
                      post: Payload -> Result<Document>, acc: Collected, sent: seq<Payload>): Fetched<Collected>
  {
    if SortedUnique(g.ids) == [] then Fetched(Ok(acc), sent)
    else
      match GroupPayloads(g.interval, g.ids, window, opts)
      case Err(e) => Fetched(Err(e), sent)
      case Ok(payloads) =>
        var f := PostChunks(payloads, map[], sent, post);
        match f.result
        case Err(e) => Fetched(Err(e), f.sent)
        case Ok(aggregated) =>
          Fetched(Ok(Collected(acc.responses[g.interval := aggregated],
                               AddFrames(acc.dataframes, Tables(aggregated), g.interval, groupCount, KnownBlocks))),
                  f.sent)
  }

  /** The loop over interval groups, in the order the groups were opened. */
  function FetchGroups(groups: seq<Group>, groupCount: nat, window: Window, opts: Options,
                       post: Payload -> Result<Document>, acc: Collected, sent: seq<Payload>): Fetched<Collected>
    decreases |groups|
  {
    if groups == [] then Fetched(Ok(acc), sent)
    else
      var f := FetchGroup(groups[0], groupCount, window, opts, post, acc, sent);
      match f.result
      case Err(_) => f
      case Ok(collected) => FetchGroups(groups[1..], groupCount, window, opts, post, collected, f.sent)
  }

  /** fetch_timeseries: `catalogReply` stands for the `markets` list of the
      catalog request (or the failure of that request). */
  function FetchSpec(horizons: seq<string>, catalogReply: Result<seq<CatalogEntry>>, window: Window,
                     opts: Options, post: Payload -> Result<Document>): Fetched<TimeseriesResult>
  {
    if horizons == [] then Fetched(Err(NoHorizons), [])
    else
      match catalogReply
      case Err(e) => Fetched(Err(e), [])
      case Ok(catalog) =>
        if catalog == [] then Fetched(Ok(TimeseriesResult([], map[], map[])), [])
        else
          var groups := GroupSpec(catalog);
          var f := FetchGroups(groups, |groups|, window, opts, post, Collected(map[], map[]), []);
          match f.result
          case Err(e) => Fetched(Err(e), f.sent)
          case Ok(c) => Fetched(Ok(TimeseriesResult(catalog, c.responses, c.dataframes)), f.sent)
  }

  /** The chunk loop of fetch_timeseries for one interval: a payload per
      chunk, sent and merged in turn. */
  method SendChunks(chunks: seq<seq<string>>, interval: string, window: Window, opts: Options,
                    post: Payload -> Result<Document>, sent: seq<Payload>)
    returns (outcome: Fetched<Document>)
    ensures outcome == PostChunks(ChunkPayloads(chunks, interval, window, opts), map[], sent, post)
  {
    ghost var payloads := ChunkPayloads(chunks, interval, window, opts);
    ghost var posted := PostChunks(payloads, map[], sent, post);
    var aggregated: Document := map[];
    var log := sent;
    for j := 0 to |chunks|
      invariant PostChunks(payloads[j..], aggregated, log, post) == posted
    {
      assert payloads[j..][1..] == payloads[j + 1..];
      var payload := PayloadFor(chunks[j], interval, window, opts);
      assert payload == payloads[j..][0];
      var response := post(payload);
      log := log + [payload];
      if response.Err? {
        return Fetched(Err(response.error), log);
      }
      var merged := MergeResponses(aggregated, response.value);
      if merged.Err? {
        return Fetched(Err(merged.error), log);
      }
      aggregated := merged.value;
    }
    return Fetched(Ok(aggregated), log);
  }

  /** The naming loop of fetch_timeseries for one interval: each table stored
      under its dataframe key, in block order. */
  method StoreTables(dataframes: map<string, Table>, frames: map<string, Table>, interval: string, groupCount: nat)
    returns (updated: map<string, Table>)
    ensures updated == AddFrames(dataframes, frames, interval, groupCount, KnownBlocks)
  {
    updated := dataframes;
    for k := 0 to |KnownBlocks|
      invariant AddFrames(updated, frames, interval, groupCount, KnownBlocks[k..])
             == AddFrames(dataframes, frames, interval, groupCount, KnownBlocks)
    {
      assert KnownBlocks[k..][1..] == KnownBlocks[k + 1..];
      var block := KnownBlocks[k];
      if block in frames {
        updated := updated[TableKey(block, interval, groupCount) := frames[block]];
      }
    }
  }

  /** fetch_timeseries as the sequence of loops it is. */
  method FetchTimeseries(horizons: seq<string>, catalogReply: Result<seq<CatalogEntry>>, window: Window,
                         opts: Options, post: Payload -> Result<Document>)
    returns (outcome: Fetched<TimeseriesResult>)
    ensures outcome == FetchSpec(horizons, catalogReply, window, opts, post)
  {
    if |horizons| == 0 {
      return Fetched(Err(NoHorizons), []);
    }
    if catalogReply.Err? {
      return Fetched(Err(catalogReply.error), []);
    }
    var catalog := catalogReply.value;
    if |catalog| == 0 {
      return Fetched(Ok(TimeseriesResult([], map[], map[])), []);
    }
    var marketsByInterval := GroupByInterval(catalog);
    var groupCount := |marketsByInterval|;
    ghost var whole := FetchGroups(marketsByInterval, groupCount, window, opts, post, Collected(map[], map[]), []);
    var mergedResponses: map<string, Document> := map[];
    var dataframes: map<string, Table> := map[];
    var sent: seq<Payload> := [];
    for i := 0 to groupCount
      invariant FetchGroups(marketsByInterval[i..], groupCount, window, opts, post,
                            Collected(mergedResponses, dataframes), sent) == whole
    {
      assert marketsByInterval[i..][1..] == marketsByInterval[i + 1..];
      var group := marketsByInterval[i];
      var interval := group.interval;
      var uniqueIds := SortedUnique(group.ids);
      if |uniqueIds| == 0 {
        continue;
      }
      var chunked := Chunk(uniqueIds, opts.chunkSize);
      if chunked.Err? {
        return Fetched(Err(chunked.error), sent);
      }
      var posted := SendChunks(chunked.value, interval, window, opts, post, sent);
      sent := posted.sent;
      if posted.result.Err? {
        return Fetched(Err(posted.result.error), sent);
      }
      var aggregated := posted.result.value;
      mergedResponses := mergedResponses[interval := aggregated];
      var frames := ResponseToFrames(aggregated);
      dataframes := StoreTables(dataframes, frames, interval, groupCount);
    }
    return Fetched(Ok(TimeseriesResult(catalog, mergedResponses, dataframes)), sent);
  }
}
