/** What fetch_timeseries (polybridge/client.py:255-329) promises as a whole:
    which payloads it sends, what each interval's merged response is, and
    under which names its tables are stored. */
module FetchProperties {
  import opened Types
  import opened Horizons
  import opened Ordering
  import opened Grouping
  import opened Planning
  import opened Merging
  import opened Frames
  import opened Client

  // ---------------------------------------------------------------------
  // The chunk loop of one interval

  /** Every payload of `ps` gets a response. */
  predicate AllAnswered(ps: seq<Payload>, post: Payload -> Result<Document>)
  {
    forall i :: 0 <= i < |ps| ==> post(ps[i]).Ok?
  }

  /** The responses to `ps`, in the order they are sent. */
  function Replies(ps: seq<Payload>, post: Payload -> Result<Document>): seq<Document>
    requires AllAnswered(ps, post)
  {
    seq(|ps|, i requires 0 <= i < |ps| => post(ps[i]).value)
  }

  lemma AllAnsweredCons(ps: seq<Payload>, post: Payload -> Result<Document>)
    requires ps != []
    ensures AllAnswered(ps, post) <==> post(ps[0]).Ok? && AllAnswered(ps[1..], post)
  {
    assert forall i :: 0 < i < |ps| ==> ps[i] == ps[1..][i - 1];
  }

  /** A first payload that is answered and merged hands the rest of the
      loop the merged accumulator. */
  lemma PostChunksCons(ps: seq<Payload>, acc: Document, sent: seq<Payload>,
                       post: Payload -> Result<Document>)
    requires ps != [] && post(ps[0]).Ok? && Merge(acc, post(ps[0]).value).Ok?
    ensures PostChunks(ps, acc, sent, post)
         == PostChunks(ps[1..], Merge(acc, post(ps[0]).value).value, sent + [ps[0]], post)
  {
  }

  /** A first payload whose POST or merge raises ends the loop with that
      payload as the last one sent. */
  lemma PostChunksFirstFails(ps: seq<Payload>, acc: Document, sent: seq<Payload>,
                             post: Payload -> Result<Document>)
    requires ps != [] && (post(ps[0]).Ok? ==> Merge(acc, post(ps[0]).value).Err?)
    ensures PostChunks(ps, acc, sent, post).result.Err?
    ensures PostChunks(ps, acc, sent, post).sent == sent + [ps[0]]
  {
  }

  /** The chunk loop sends a prefix of its payloads, in order: all of them
      when it succeeds, up to and including the one that failed otherwise. */
  lemma {:induction false} PostChunksSent(ps: seq<Payload>, acc: Document, sent: seq<Payload>,
                                          post: Payload -> Result<Document>)
    ensures var f := PostChunks(ps, acc, sent, post);
      && |sent| <= |f.sent| <= |sent| + |ps|
      && f.sent == sent + ps[..|f.sent| - |sent|]
      && (f.result.Ok? ==> f.sent == sent + ps)
      && (f.result.Err? ==> |f.sent| > |sent|)
    decreases |ps|
  {
    if ps != [] {
      var p := ps[0];
      if post(p).Ok? && Merge(acc, post(p).value).Ok? {
        var merged := Merge(acc, post(p).value).value;
        PostChunksCons(ps, acc, sent, post);
        PostChunksSent(ps[1..], merged, sent + [p], post);
        var f := PostChunks(ps[1..], merged, sent + [p], post);
        PrefixCons(sent, ps, f.sent);
      } else {
        PostChunksFirstFails(ps, acc, sent, post);
        assert ps[..1] == [p];
      }
    }
  }

  /** The chunk loop succeeds exactly when every payload is answered and the
      responses merge, and its result is then the merge folded over the
      responses in the order they were sent. */
  lemma {:induction false} PostChunksReplies(ps: seq<Payload>, acc: Document, sent: seq<Payload>,
                                             post: Payload -> Result<Document>)
    ensures PostChunks(ps, acc, sent, post).result.Ok? <==>
      AllAnswered(ps, post) && FoldMerge(acc, Replies(ps, post)).Ok?
    ensures PostChunks(ps, acc, sent, post).result.Ok? ==>
      PostChunks(ps, acc, sent, post).result == FoldMerge(acc, Replies(ps, post))
    decreases |ps|
  {
    if ps != [] {
      var p := ps[0];
      AllAnsweredCons(ps, post);
      if AllAnswered(ps, post) {
        assert Replies(ps, post)[1..] == Replies(ps[1..], post);
      }
      if post(p).Ok? && Merge(acc, post(p).value).Ok? {
        var merged := Merge(acc, post(p).value).value;
        PostChunksReplies(ps[1..], merged, sent + [p], post);
      }
    }
  }

  // ---------------------------------------------------------------------
  // The payloads the fetch sends

  /** The payloads the fetch sends for group `g`: none when it has no id,
      otherwise one per chunk of its sorted distinct ids. */
  function GroupSends(g: Group, window: Window, opts: Options): seq<Payload>
    requires opts.chunkSize != 0
  {
    if SortedUnique(g.ids) == [] then [] else GroupPayloads(g.interval, g.ids, window, opts).value
  }

  /** The payloads of all groups, group after group. */
  function Plan(groups: seq<Group>, window: Window, opts: Options): seq<Payload>
    requires opts.chunkSize != 0
  {
    if groups == [] then [] else GroupSends(groups[0], window, opts) + Plan(groups[1..], window, opts)
  }

  /** The payloads of `ps` for `interval`, in order. */
  function ForInterval(ps: seq<Payload>, interval: string): seq<Payload>
  {
    if ps == [] then [] else (if ps[0].interval == interval then [ps[0]] else []) + ForInterval(ps[1..], interval)
  }

  lemma FetchGroupSent(g: Group, n: nat, window: Window, opts: Options,
                       post: Payload -> Result<Document>, acc: Collected, sent: seq<Payload>)
    requires opts.chunkSize != 0
    ensures var f := FetchGroup(g, n, window, opts, post, acc, sent); var gs := GroupSends(g, window, opts);
      && |sent| <= |f.sent| <= |sent| + |gs|
      && f.sent == sent + gs[..|f.sent| - |sent|]
      && (f.result.Ok? ==> f.sent == sent + gs)
  {
    if SortedUnique(g.ids) != [] {
      PostChunksSent(GroupSends(g, window, opts), map[], sent, post);
    }
  }

  /** `ps[0]` followed by a prefix of `ps[1..]` is a prefix of `ps`. */
  lemma PrefixCons<T>(sent: seq<T>, ps: seq<T>, s1: seq<T>)
    requires ps != []
    requires |sent + [ps[0]]| <= |s1| <= |sent + [ps[0]]| + |ps[1..]|
    requires s1 == sent + [ps[0]] + ps[1..][..|s1| - |sent + [ps[0]]|]
    ensures |sent| < |s1| <= |sent| + |ps| && s1 == sent + ps[..|s1| - |sent|]
    ensures s1 == sent + [ps[0]] + ps[1..] ==> s1 == sent + ps
  {
    var m := |s1| - |sent + [ps[0]]|;
    assert ps[..m + 1] == [ps[0]] + ps[1..][..m];
    assert ps == [ps[0]] + ps[1..];
  }

  /** The loop over groups is one turn on the first group, then, when that
      turn succeeds, the loop over the rest. */
  lemma FetchGroupsCons(groups: seq<Group>, n: nat, window: Window, opts: Options,
                        post: Payload -> Result<Document>, acc: Collected, sent: seq<Payload>)
    requires groups != []
    ensures var f0 := FetchGroup(groups[0], n, window, opts, post, acc, sent);
      FetchGroups(groups, n, window, opts, post, acc, sent)
        == if f0.result.Err? then f0 else FetchGroups(groups[1..], n, window, opts, post, f0.result.value, f0.sent)
  {
  }

  /** A prefix of `gs` is a prefix of `gs + rest`. */
  lemma PrefixStop<T>(sent: seq<T>, gs: seq<T>, rest: seq<T>, s0: seq<T>)
    requires |sent| <= |s0| <= |sent| + |gs| && s0 == sent + gs[..|s0| - |sent|]
    ensures |sent| <= |s0| <= |sent| + |gs + rest| && s0 == sent + (gs + rest)[..|s0| - |sent|]
  {
    assert (gs + rest)[..|s0| - |sent|] == gs[..|s0| - |sent|];
  }

  /** All of `gs` followed by a prefix of `rest` is a prefix of `gs + rest`. */
  lemma PrefixThen<T>(sent: seq<T>, gs: seq<T>, rest: seq<T>, s0: seq<T>, s1: seq<T>)
    requires s0 == sent + gs
    requires |s0| <= |s1| <= |s0| + |rest| && s1 == s0 + rest[..|s1| - |s0|]
    ensures |sent| <= |s1| <= |sent| + |gs + rest| && s1 == sent + (gs + rest)[..|s1| - |sent|]
    ensures s1 == s0 + rest ==> s1 == sent + (gs + rest)
  {
    var m := |s1| - |s0|;
    assert (gs + rest)[..|gs| + m] == gs + rest[..m];
  }

  /** The loop over groups sends a prefix of the plan, and all of it when it
      succeeds. */
  lemma {:induction false} FetchGroupsSent(groups: seq<Group>, n: nat, window: Window, opts: Options,
                                           post: Payload -> Result<Document>, acc: Collected, sent: seq<Payload>)
    requires opts.chunkSize != 0
    ensures var f := FetchGroups(groups, n, window, opts, post, acc, sent); var plan := Plan(groups, window, opts);
      && |sent| <= |f.sent| <= |sent| + |plan|
      && f.sent == sent + plan[..|f.sent| - |sent|]
      && (f.result.Ok? ==> f.sent == sent + plan)
    decreases |groups|
  {
    if groups != [] {
      var gs := GroupSends(groups[0], window, opts);
      var rest := Plan(groups[1..], window, opts);
      assert Plan(groups, window, opts) == gs + rest;
      FetchGroupSent(groups[0], n, window, opts, post, acc, sent);
      var f0 := FetchGroup(groups[0], n, window, opts, post, acc, sent);
      if f0.result.Err? {
        assert FetchGroups(groups, n, window, opts, post, acc, sent) == f0;
        PrefixStop(sent, gs, rest, f0.sent);
      } else {
        var f := FetchGroups(groups[1..], n, window, opts, post, f0.result.value, f0.sent);
        assert FetchGroups(groups, n, window, opts, post, acc, sent) == f;
        FetchGroupsSent(groups[1..], n, window, opts, post, f0.result.value, f0.sent);
        PrefixThen(sent, gs, rest, f0.sent, f.sent);
      }
    }
  }

  /** With a non-zero chunk size, the payloads a fetch sends are a prefix of
      the plan of its interval groups, in order, and the whole plan when the
      fetch succeeds. */
  lemma FetchRequests(horizons: seq<string>, catalog: seq<CatalogEntry>, window: Window,
                      opts: Options, post: Payload -> Result<Document>)
    requires horizons != [] && opts.chunkSize != 0
    ensures var f := FetchSpec(horizons, Ok(catalog), window, opts, post);
      var plan := Plan(GroupSpec(catalog), window, opts);
      && |f.sent| <= |plan|
      && f.sent == plan[..|f.sent|]
      && (f.result.Ok? ==> f.sent == plan)
  {
    if catalog != [] {
      var groups := GroupSpec(catalog);
      var f := FetchGroups(groups, |groups|, window, opts, post, Collected(map[], map[]), []);
      assert FetchSpec(horizons, Ok(catalog), window, opts, post).sent == f.sent;
      assert FetchSpec(horizons, Ok(catalog), window, opts, post).result.Ok? <==> f.result.Ok?;
      FetchGroupsSent(groups, |groups|, window, opts, post, Collected(map[], map[]), []);
    }
  }

  /** Every payload of the plan is for one of its groups' intervals. */
  lemma {:induction false} PlanIntervals(groups: seq<Group>, window: Window, opts: Options)
    requires opts.chunkSize != 0
    ensures forall p :: p in Plan(groups, window, opts) ==> p.interval in Intervals(groups)
    decreases |groups|
  {
    if groups != [] {
      GroupSendsInterval(groups[0], window, opts);
      PlanIntervals(groups[1..], window, opts);
      IntervalsCons(groups);
    }
  }

  /** The payloads go in the order in which the catalog first files an
      entry under their intervals. */
  ghost predicate CatalogOrdered(catalog: seq<CatalogEntry>, ps: seq<Payload>)
  {
    forall x, y :: 0 <= x < y < |ps| ==> FirstFiled(catalog, ps[x].interval) <= FirstFiled(catalog, ps[y].interval)
  }

  /** Payloads for one interval followed by ordered payloads for intervals
      filed later stay ordered. */
  lemma CatalogOrderedAppend(catalog: seq<CatalogEntry>, front: seq<Payload>, back: seq<Payload>, interval: string)
    requires forall p :: p in front ==> p.interval == interval
    requires forall p :: p in back ==> FirstFiled(catalog, interval) < FirstFiled(catalog, p.interval)
    requires CatalogOrdered(catalog, back)
    ensures CatalogOrdered(catalog, front + back)
  {
    var ps := front + back;
    forall x, y | 0 <= x < y < |ps|
      ensures FirstFiled(catalog, ps[x].interval) <= FirstFiled(catalog, ps[y].interval)
    {
      if y < |front| {
        assert ps[x] == front[x] && ps[y] == front[y];
        assert front[x] in front && front[y] in front;
      } else if x < |front| {
        assert ps[x] == front[x] && front[x] in front;
        assert ps[y] == back[y - |front|] && back[y - |front|] in back;
      } else {
        assert ps[x] == back[x - |front|] && ps[y] == back[y - |front|];
      }
    }
  }

  /** When the groups are in the order in which the catalog first files an
      entry under their intervals, so are the payloads of their plan. */
  lemma {:induction false} PlanFollowsCatalog(catalog: seq<CatalogEntry>, groups: seq<Group>, window: Window, opts: Options)
    requires opts.chunkSize != 0
    requires forall i, j :: 0 <= i < j < |groups| ==>
      FirstFiled(catalog, groups[i].interval) < FirstFiled(catalog, groups[j].interval)
    ensures CatalogOrdered(catalog, Plan(groups, window, opts))
    decreases |groups|
  {
    if groups != [] {
      var g, rest := groups[0], groups[1..];
      var gs, tail := GroupSends(g, window, opts), Plan(rest, window, opts);
      assert Plan(groups, window, opts) == gs + tail;
      GroupSendsInterval(g, window, opts);
      PlanIntervals(rest, window, opts);
      forall i, j | 0 <= i < j < |rest|
        ensures FirstFiled(catalog, rest[i].interval) < FirstFiled(catalog, rest[j].interval)
      {
        assert rest[i] == groups[i + 1] && rest[j] == groups[j + 1];
      }
      PlanFollowsCatalog(catalog, rest, window, opts);
      forall p | p in tail ensures FirstFiled(catalog, g.interval) < FirstFiled(catalog, p.interval) {
        var h :| h in rest && h.interval == p.interval;
        var k :| 0 <= k < |rest| && rest[k] == h;
        assert groups[k + 1] == h;
      }
      CatalogOrderedAppend(catalog, gs, tail, g.interval);
    }
  }

  /** A fetch sends its payloads interval by interval, the intervals in the
      order in which the catalog first files an entry under them. */
  lemma FetchOrder(horizons: seq<string>, catalog: seq<CatalogEntry>, window: Window,
                   opts: Options, post: Payload -> Result<Document>)
    requires horizons != []
    ensures CatalogOrdered(catalog, FetchSpec(horizons, Ok(catalog), window, opts, post).sent)
  {
    if opts.chunkSize == 0 {
      if iv :| KeptIds(catalog, iv) != [] {
        ZeroChunkSizeRejected(horizons, catalog, window, opts, post, iv);
      } else {
        NothingKept(horizons, catalog, window, opts, post);
      }
    } else {
      var groups := GroupSpec(catalog);
      var plan := Plan(groups, window, opts);
      FetchRequests(horizons, catalog, window, opts, post);
      GroupOrder(catalog);
      PlanFollowsCatalog(catalog, groups, window, opts);
      var sent := FetchSpec(horizons, Ok(catalog), window, opts, post).sent;
      assert forall x :: 0 <= x < |sent| ==> sent[x] == plan[x];
      assert CatalogOrdered(catalog, plan);
    }
  }

  lemma {:induction false} ForIntervalAppend(a: seq<Payload>, b: seq<Payload>, interval: string)
    ensures ForInterval(a + b, interval) == ForInterval(a, interval) + ForInterval(b, interval)
    decreases |a|
  {
    if a != [] {
      assert (a + b)[1..] == a[1..] + b;
      ForIntervalAppend(a[1..], b, interval);
    } else {
      assert a + b == b;
    }
  }

  lemma {:induction false} ForIntervalAll(ps: seq<Payload>, interval: string)
    requires forall p :: p in ps ==> p.interval == interval
    ensures ForInterval(ps, interval) == ps
    decreases |ps|
  {
    if ps != [] {
      assert ps[0] in ps;
      ForIntervalAll(ps[1..], interval);
    }
  }

  lemma {:induction false} ForIntervalNone(ps: seq<Payload>, interval: string)
    requires forall p :: p in ps ==> p.interval != interval
    ensures ForInterval(ps, interval) == []
    decreases |ps|
  {
    if ps != [] {
      assert ps[0] in ps;
      ForIntervalNone(ps[1..], interval);
    }
  }

  lemma GroupSendsInterval(g: Group, window: Window, opts: Options)
    requires opts.chunkSize != 0
    ensures forall p :: p in GroupSends(g, window, opts) ==> p.interval == g.interval
  {
    if opts.chunkSize > 0 {
      GroupPlan(g.interval, g.ids, window, opts);
    } else {
      GroupPlanBadChunkSize(g.interval, g.ids, window, opts);
    }
  }

  /** The payloads the plan holds for one interval are those of that
      interval's group, or none when it has no group. */
  lemma {:induction false} PlanForInterval(groups: seq<Group>, window: Window, opts: Options, interval: string)
    requires opts.chunkSize != 0 && DistinctIntervals(groups)
    ensures ForInterval(Plan(groups, window, opts), interval) ==
      GroupSends(Group(interval, IdsOf(groups, interval)), window, opts)
    decreases |groups|
  {
    var none: seq<string> := [];
    assert SortedUnique(none) == [];
    if groups != [] {
      var g := groups[0];
      var rest := groups[1..];
      ForIntervalAppend(GroupSends(g, window, opts), Plan(rest, window, opts), interval);
      GroupSendsInterval(g, window, opts);
      DistinctIntervalsTail(groups);
      PlanForInterval(rest, window, opts, interval);
      if g.interval == interval {
        ForIntervalAll(GroupSends(g, window, opts), interval);
        IdsOfAbsent(rest, interval);
      } else {
        ForIntervalNone(GroupSends(g, window, opts), interval);
      }
    }
  }

  /** The payloads an interval's kept ids are requested with. */
  function IntervalSends(catalog: seq<CatalogEntry>, interval: string, window: Window, opts: Options): seq<Payload>
    requires opts.chunkSize != 0
  {
    GroupSends(Group(interval, KeptIds(catalog, interval)), window, opts)
  }

  /** With a positive chunk size, the payloads planned for an interval
      request each of its kept ids exactly once, in ascending order, in
      ceil(n / chunk_size) payloads of at most chunk_size ids each, all with
      the same blocks. */
  lemma IntervalRequests(catalog: seq<CatalogEntry>, window: Window, opts: Options, interval: string)
    requires opts.chunkSize > 0
    ensures ForInterval(Plan(GroupSpec(catalog), window, opts), interval) == IntervalSends(catalog, interval, window, opts)
    ensures var ps := IntervalSends(catalog, interval, window, opts);
      var n := |set x | x in KeptIds(catalog, interval)|;
      && MarketsOf(ps) == SortedUnique(KeptIds(catalog, interval))
      && StrictlySorted(MarketsOf(ps))
      && (forall x :: x in MarketsOf(ps) <==> x in KeptIds(catalog, interval))
      && |ps| * opts.chunkSize >= n
      && (|ps| > 0 ==> (|ps| - 1) * opts.chunkSize < n)
      && (forall p :: p in ps ==>
            p.interval == interval && p.blocks == RequestedBlocks(opts, interval) && 0 < |p.markets| <= opts.chunkSize)
  {
    var ids := KeptIds(catalog, interval);
    GroupSpecInvariant(catalog);
    PlanForInterval(GroupSpec(catalog), window, opts, interval);
    GroupPlan(interval, ids, window, opts);
    if SortedUnique(ids) == [] {
      assert (set x | x in ids) == {};
    }
  }

  // ---------------------------------------------------------------------
  // What a successful fetch returns

  /** Every payload of group `g` is answered and the responses merge. */
  predicate GroupAnswered(g: Group, window: Window, opts: Options, post: Payload -> Result<Document>)
    requires opts.chunkSize != 0
  {
    AllAnswered(GroupSends(g, window, opts), post) && FoldMerge(map[], Replies(GroupSends(g, window, opts), post)).Ok?
  }

  /** The merged response of group `g`: the merge folded over its chunk
      responses, starting from `{}`. */
  function Aggregate(g: Group, window: Window, opts: Options, post: Payload -> Result<Document>): Document
    requires opts.chunkSize != 0 && GroupAnswered(g, window, opts, post)
  {
    FoldMerge(map[], Replies(GroupSends(g, window, opts), post)).value
  }

  /** Every name a table of `groups` may be stored under. */
  function GroupKeys(groups: seq<Group>, n: nat): set<string>
  {
    set g, b | g in groups && b in KnownBlocks :: TableKey(b, g.interval, n)
  }

  /** One turn of the loop over groups, when it succeeds on a group with
      ids: the group's merged response is stored under its interval and its
      tables are added under their names. */
  lemma FetchGroupStep(g: Group, n: nat, window: Window, opts: Options,
                       post: Payload -> Result<Document>, acc: Collected, sent: seq<Payload>)
    requires opts.chunkSize != 0 && g.ids != []
    requires FetchGroup(g, n, window, opts, post, acc, sent).result.Ok?
    ensures GroupAnswered(g, window, opts, post)
    ensures FetchGroup(g, n, window, opts, post, acc, sent).result.value ==
      Collected(acc.responses[g.interval := Aggregate(g, window, opts, post)],
                AddFrames(acc.dataframes, Tables(Aggregate(g, window, opts, post)), g.interval, n, KnownBlocks))
  {
    assert g.ids[0] in SortedUnique(g.ids);
    PostChunksReplies(GroupSends(g, window, opts), map[], sent, post);
  }

  /** One turn of the loop over groups, on a group with ids, succeeds
      exactly when the group is answered. */
  lemma FetchGroupOk(g: Group, n: nat, window: Window, opts: Options,
                     post: Payload -> Result<Document>, acc: Collected, sent: seq<Payload>)
    requires opts.chunkSize != 0 && g.ids != []
    ensures FetchGroup(g, n, window, opts, post, acc, sent).result.Ok? <==> GroupAnswered(g, window, opts, post)
  {
    assert g.ids[0] in SortedUnique(g.ids);
    PostChunksReplies(GroupSends(g, window, opts), map[], sent, post);
  }

  /** The loop over groups with ids succeeds exactly when every group is
      answered. */
  lemma {:induction false} FetchGroupsOk(groups: seq<Group>, n: nat, window: Window, opts: Options,
                                         post: Payload -> Result<Document>, acc: Collected, sent: seq<Payload>)
    requires opts.chunkSize != 0
    requires forall g :: g in groups ==> g.ids != []
    ensures FetchGroups(groups, n, window, opts, post, acc, sent).result.Ok? <==>
      forall g :: g in groups ==> GroupAnswered(g, window, opts, post)
    decreases |groups|
  {
    if groups != [] {
      var g, rest := groups[0], groups[1..];
      assert g in groups;
      assert forall h :: h in groups <==> h == g || h in rest by {
        assert groups == [g] + rest;
      }
      FetchGroupOk(g, n, window, opts, post, acc, sent);
      var f0 := FetchGroup(g, n, window, opts, post, acc, sent);
      if f0.result.Ok? {
        assert FetchGroups(groups, n, window, opts, post, acc, sent) ==
          FetchGroups(rest, n, window, opts, post, f0.result.value, f0.sent);
        FetchGroupsOk(rest, n, window, opts, post, f0.result.value, f0.sent);
      } else {
        assert FetchGroups(groups, n, window, opts, post, acc, sent) == f0;
      }
    }
  }

  lemma TableKeyInjective(b1: string, b2: string, interval: string, n: nat)
    requires TableKey(b1, interval, n) == TableKey(b2, interval, n)
    ensures b1 == b2
  {
    if n != 1 {
      assert b1 == TableKey(b1, interval, n)[..|b1|];
      assert b2 == TableKey(b2, interval, n)[..|b2|];
    }
  }

  /** The naming loop leaves a name that is no block's key as it was. */
  lemma {:induction false} AddFramesKept(dataframes: map<string, Table>, frames: map<string, Table>,
                                         interval: string, n: nat, blocks: seq<string>, k: string)
    requires forall b :: b in blocks ==> k != TableKey(b, interval, n)
    ensures var r := AddFrames(dataframes, frames, interval, n, blocks);
      && (k in r <==> k in dataframes)
      && (k in dataframes ==> r[k] == dataframes[k])
    decreases |blocks|
  {
    if blocks != [] {
      var b0 := blocks[0];
      var next := if b0 in frames then dataframes[TableKey(b0, interval, n) := frames[b0]] else dataframes;
      assert AddFrames(dataframes, frames, interval, n, blocks) == AddFrames(next, frames, interval, n, blocks[1..]);
      assert b0 in blocks;
      AddFramesKept(next, frames, interval, n, blocks[1..], k);
    }
  }

  /** The naming loop stores each table of `frames` whose block it visits
      under that block's key. */
  lemma {:induction false} AddFramesStored(dataframes: map<string, Table>, frames: map<string, Table>,
                                           interval: string, n: nat, blocks: seq<string>, b: string)
    requires b in blocks
    ensures var r := AddFrames(dataframes, frames, interval, n, blocks); var k := TableKey(b, interval, n);
      && (k in r <==> k in dataframes || b in frames)
      && (b in frames ==> r[k] == frames[b])
    decreases |blocks|
  {
    var b0 := blocks[0];
    var k0 := TableKey(b0, interval, n);
    var k := TableKey(b, interval, n);
    var next := if b0 in frames then dataframes[k0 := frames[b0]] else dataframes;
    assert AddFrames(dataframes, frames, interval, n, blocks) == AddFrames(next, frames, interval, n, blocks[1..]);
    if k == k0 {
      TableKeyInjective(b, b0, interval, n);
    }
    if b in blocks[1..] {
      AddFramesStored(next, frames, interval, n, blocks[1..], b);
    } else {
      assert b == b0 by {
        assert blocks == [b0] + blocks[1..];
      }
      forall b' | b' in blocks[1..] ensures k != TableKey(b', interval, n) {
        if k == TableKey(b', interval, n) {
          TableKeyInjective(b, b', interval, n);
        }
      }
      AddFramesKept(next, frames, interval, n, blocks[1..], k);
    }
  }

  /** The naming loop adds no name other than the keys of the blocks it
      visits. */
  lemma {:induction false} AddFramesKeys(dataframes: map<string, Table>, frames: map<string, Table>,
                                         interval: string, n: nat, blocks: seq<string>)
    ensures AddFrames(dataframes, frames, interval, n, blocks).Keys
         <= dataframes.Keys + (set b | b in blocks :: TableKey(b, interval, n))
    decreases |blocks|
  {
    if blocks != [] {
      var b0 := blocks[0];
      var next := if b0 in frames then dataframes[TableKey(b0, interval, n) := frames[b0]] else dataframes;
      assert AddFrames(dataframes, frames, interval, n, blocks) == AddFrames(next, frames, interval, n, blocks[1..]);
      AddFramesKeys(next, frames, interval, n, blocks[1..]);
      assert b0 in blocks;
      assert forall b :: b in blocks[1..] ==> b in blocks;
    }
  }

  /** The naming loop stores each table of `frames` under its name and
      leaves every other name as it was. */
  lemma AddFramesFacts(dataframes: map<string, Table>, frames: map<string, Table>,
                       interval: string, n: nat, blocks: seq<string>)
    ensures var r := AddFrames(dataframes, frames, interval, n, blocks);
      && (forall b :: b in blocks ==>
            (TableKey(b, interval, n) in r <==> TableKey(b, interval, n) in dataframes || b in frames))
      && (forall b :: b in blocks && b in frames ==> r[TableKey(b, interval, n)] == frames[b])
      && (forall k :: k in dataframes && (forall b :: b in blocks ==> k != TableKey(b, interval, n)) ==>
            k in r && r[k] == dataframes[k])
      && r.Keys <= dataframes.Keys + (set b | b in blocks :: TableKey(b, interval, n))
  {
    forall b | b in blocks {
      AddFramesStored(dataframes, frames, interval, n, blocks, b);
    }
    forall k | k in dataframes && (forall b :: b in blocks ==> k != TableKey(b, interval, n)) {
      AddFramesKept(dataframes, frames, interval, n, blocks, k);
    }
    AddFramesKeys(dataframes, frames, interval, n, blocks);
  }

  /** On success the loop over groups adds exactly the groups' intervals to
      the responses and leaves every other interval as it was. */
  /** Storing under x, then adding the keys xs, adds {x} + xs and keeps
      every other entry. */
  lemma KeysStep<V>(m0: map<string, V>, m1: map<string, V>, m2: map<string, V>, x: string, xs: set<string>)
    requires m1.Keys == m0.Keys + {x} && forall iv :: iv in m0 && iv != x ==> m1[iv] == m0[iv]
    requires m2.Keys == m1.Keys + xs && forall iv :: iv in m1 && iv !in xs ==> m2[iv] == m1[iv]
    ensures m2.Keys == m0.Keys + ({x} + xs)
    ensures forall iv :: iv in m0 && iv !in {x} + xs ==> m2[iv] == m0[iv]
  {
  }

  lemma {:induction false} FetchGroupsIntervals(groups: seq<Group>, n: nat, window: Window, opts: Options,
                                                post: Payload -> Result<Document>, acc: Collected, sent: seq<Payload>)
    requires opts.chunkSize != 0
    requires forall g :: g in groups ==> g.ids != []
    requires FetchGroups(groups, n, window, opts, post, acc, sent).result.Ok?
    ensures var c := FetchGroups(groups, n, window, opts, post, acc, sent).result.value;
      && c.responses.Keys == acc.responses.Keys + Intervals(groups)
      && (forall iv :: iv in acc.responses && iv !in Intervals(groups) ==> c.responses[iv] == acc.responses[iv])
    decreases |groups|
  {
    if groups != [] {
      var g := groups[0];
      var rest := groups[1..];
      assert g in groups;
      FetchGroupStep(g, n, window, opts, post, acc, sent);
      var f0 := FetchGroup(g, n, window, opts, post, acc, sent);
      assert FetchGroups(groups, n, window, opts, post, acc, sent) ==
        FetchGroups(rest, n, window, opts, post, f0.result.value, f0.sent);
      var c0 := f0.result.value;
      IntervalsCons(groups);
      assert forall h :: h in rest ==> h in groups;
      FetchGroupsIntervals(rest, n, window, opts, post, c0, f0.sent);
      var c := FetchGroups(rest, n, window, opts, post, c0, f0.sent).result.value;
      KeysStep(acc.responses, c0.responses, c.responses, g.interval, Intervals(rest));
    }
  }

  /** On success every group was answered, and the response stored under its
      interval is its merged response. */
  lemma {:induction false} FetchGroupsAnswered(groups: seq<Group>, n: nat, window: Window, opts: Options,
                                               post: Payload -> Result<Document>, acc: Collected, sent: seq<Payload>)
    requires opts.chunkSize != 0 && DistinctIntervals(groups)
    requires forall g :: g in groups ==> g.ids != []
    requires FetchGroups(groups, n, window, opts, post, acc, sent).result.Ok?
    ensures var c := FetchGroups(groups, n, window, opts, post, acc, sent).result.value;
      forall g :: g in groups ==>
        GroupAnswered(g, window, opts, post) && g.interval in c.responses
        && c.responses[g.interval] == Aggregate(g, window, opts, post)
    decreases |groups|
  {
    if groups != [] {
      var g := groups[0];
      var rest := groups[1..];
      assert g in groups;
      FetchGroupStep(g, n, window, opts, post, acc, sent);
      var f0 := FetchGroup(g, n, window, opts, post, acc, sent);
      var c0 := f0.result.value;
      assert FetchGroups(groups, n, window, opts, post, acc, sent) ==
        FetchGroups(rest, n, window, opts, post, c0, f0.sent);
      assert groups == [g] + rest;
      DistinctIntervalsTail(groups);
      FetchGroupsAnswered(rest, n, window, opts, post, c0, f0.sent);
      FetchGroupsIntervals(rest, n, window, opts, post, c0, f0.sent);
    }
  }

  /** On success the loop over groups stores each group's merged response
      under its interval and leaves every other interval as it was. */
  lemma FetchGroupsResponses(groups: seq<Group>, n: nat, window: Window, opts: Options,
                             post: Payload -> Result<Document>, acc: Collected, sent: seq<Payload>)
    requires opts.chunkSize != 0 && DistinctIntervals(groups)
    requires forall g :: g in groups ==> g.ids != []
    requires FetchGroups(groups, n, window, opts, post, acc, sent).result.Ok?
    ensures var c := FetchGroups(groups, n, window, opts, post, acc, sent).result.value;
      && c.responses.Keys == acc.responses.Keys + Intervals(groups)
      && (forall iv :: iv in acc.responses && iv !in Intervals(groups) ==> c.responses[iv] == acc.responses[iv])
      && (forall g :: g in groups ==>
            GroupAnswered(g, window, opts, post) && c.responses[g.interval] == Aggregate(g, window, opts, post))
  {
    FetchGroupsIntervals(groups, n, window, opts, post, acc, sent);
    FetchGroupsAnswered(groups, n, window, opts, post, acc, sent);
  }

  /** On success the loop over groups stores every table of every group
      under its name and nothing else, and no name is written twice. */
  lemma {:induction false} FetchGroupsTables(groups: seq<Group>, n: nat, window: Window, opts: Options,
                                             post: Payload -> Result<Document>, acc: Collected, sent: seq<Payload>)
    requires opts.chunkSize != 0 && DistinctIntervals(groups)
    requires forall g :: g in groups ==> g.ids != [] && '_' !in g.interval
    requires n == 1 ==> |groups| <= 1
    requires acc.dataframes.Keys !! GroupKeys(groups, n)
    requires FetchGroups(groups, n, window, opts, post, acc, sent).result.Ok?
    ensures var c := FetchGroups(groups, n, window, opts, post, acc, sent).result.value;
      && Intervals(groups) <= c.responses.Keys
      && (forall k :: k in acc.dataframes ==> k in c.dataframes && c.dataframes[k] == acc.dataframes[k])
      && (forall g, b :: g in groups && b in KnownBlocks ==>
            (TableKey(b, g.interval, n) in c.dataframes <==> IsObjectBlock(c.responses[g.interval], b)))
      && (forall g, b :: g in groups && b in KnownBlocks && TableKey(b, g.interval, n) in c.dataframes ==>
            c.dataframes[TableKey(b, g.interval, n)] == BlockRows(c.responses[g.interval], b))
      && c.dataframes.Keys <= acc.dataframes.Keys + GroupKeys(groups, n)
    decreases |groups|
  {
    FetchGroupsResponses(groups, n, window, opts, post, acc, sent);
    if groups != [] {
      var g := groups[0];
      var rest := groups[1..];
      assert g in groups;
      FetchGroupStep(g, n, window, opts, post, acc, sent);
      var f0 := FetchGroup(g, n, window, opts, post, acc, sent);
      var c0 := f0.result.value;
      var agg := Aggregate(g, window, opts, post);
      var c := FetchGroups(groups, n, window, opts, post, acc, sent).result.value;
      assert c == FetchGroups(rest, n, window, opts, post, c0, f0.sent).result.value;
      DistinctIntervalsTail(groups);
      assert forall h :: h in rest ==> h in groups;
      FetchGroupsResponses(rest, n, window, opts, post, c0, f0.sent);
      AddFramesFacts(acc.dataframes, Tables(agg), g.interval, n, KnownBlocks);
      // the names of g's tables are not names of later groups' tables
      assert GroupKeys(rest, n) <= GroupKeys(groups, n);
      forall b, h, b' | b in KnownBlocks && h in rest && b' in KnownBlocks
        ensures TableKey(b, g.interval, n) != TableKey(b', h.interval, n)
      {
        assert n != 1 by {
          assert |groups| >= 2;
        }
        assert h.interval != g.interval;
        if b + "_" + g.interval == b' + "_" + h.interval {
          SuffixSplit(b, g.interval, b', h.interval);
        }
      }
      assert c0.dataframes.Keys !! GroupKeys(rest, n);
      FetchGroupsTables(rest, n, window, opts, post, c0, f0.sent);
      forall k | k in acc.dataframes ensures k in c.dataframes && c.dataframes[k] == acc.dataframes[k] {
        assert k !in GroupKeys(groups, n);
        assert forall b :: b in KnownBlocks ==> k != TableKey(b, g.interval, n);
      }
      forall b | b in KnownBlocks
        ensures TableKey(b, g.interval, n) in c.dataframes <==> IsObjectBlock(c.responses[g.interval], b)
        ensures TableKey(b, g.interval, n) in c.dataframes ==>
          c.dataframes[TableKey(b, g.interval, n)] == BlockRows(c.responses[g.interval], b)
      {
        var key := TableKey(b, g.interval, n);
        assert key in GroupKeys(groups, n);
        assert key !in GroupKeys(rest, n);
        assert c.responses[g.interval] == agg;
      }
    }
  }

  /** The names of the tables a fetch stores for its merged responses. */
  function StoredNames(responses: map<string, Document>, n: nat): set<string>
  {
    set iv, b | iv in responses && b in KnownBlocks && IsObjectBlock(responses[iv], b) :: TableKey(b, iv, n)
  }

  /** Each group of a catalog is filed under an interval of the horizon
      map, so its interval has no underscore, and holds that interval's kept
      ids. */
  lemma GroupSpecIntervals(catalog: seq<CatalogEntry>)
    ensures forall g :: g in GroupSpec(catalog) ==> '_' !in g.interval
    ensures forall g :: g in GroupSpec(catalog) ==> g == Group(g.interval, KeptIds(catalog, g.interval))
  {
    GroupingPartitions(catalog);
    GroupSpecInvariant(catalog);
    forall g | g in GroupSpec(catalog)
      ensures '_' !in g.interval
      ensures g == Group(g.interval, KeptIds(catalog, g.interval))
    {
      var i :| 0 <= i < |GroupSpec(catalog)| && GroupSpec(catalog)[i] == g;
      assert g.ids != [] && g.ids[0] in KeptIds(catalog, g.interval);
      var e :| e in catalog && EntryInterval(e) == Some(g.interval) && e.marketId == Some(g.ids[0]);
      MappedIntervalHasNoUnderscore(e.horizon.value);
    }
  }

  /** The loop over the interval groups of `catalog`, from nothing. */
  function CollectAll(catalog: seq<CatalogEntry>, window: Window, opts: Options,
                      post: Payload -> Result<Document>): Fetched<Collected>
  {
    var groups := GroupSpec(catalog);
    FetchGroups(groups, |groups|, window, opts, post, Collected(map[], map[]), [])
  }

  lemma CollectAllResponses(catalog: seq<CatalogEntry>, window: Window, opts: Options,
                            post: Payload -> Result<Document>)
    requires opts.chunkSize != 0 && CollectAll(catalog, window, opts, post).result.Ok?
    ensures var c := CollectAll(catalog, window, opts, post).result.value;
      && (forall iv :: iv in c.responses <==> KeptIds(catalog, iv) != [])
      && (forall iv :: iv in c.responses ==>
            GroupAnswered(Group(iv, KeptIds(catalog, iv)), window, opts, post)
            && c.responses[iv] == Aggregate(Group(iv, KeptIds(catalog, iv)), window, opts, post))
  {
    var groups := GroupSpec(catalog);
    GroupingPartitions(catalog);
    GroupSpecInvariant(catalog);
    GroupSpecIntervals(catalog);
    FetchGroupsResponses(groups, |groups|, window, opts, post, Collected(map[], map[]), []);
    var c := CollectAll(catalog, window, opts, post).result.value;
    forall iv | iv in c.responses
      ensures GroupAnswered(Group(iv, KeptIds(catalog, iv)), window, opts, post)
      ensures c.responses[iv] == Aggregate(Group(iv, KeptIds(catalog, iv)), window, opts, post)
    {
      var g :| g in groups && g.interval == iv;
    }
  }

  /** The groups of a catalog have distinct intervals, none of them with an
      underscore, and each group holds at least one id. */
  lemma GroupSpecWellFormed(catalog: seq<CatalogEntry>)
    ensures var groups := GroupSpec(catalog);
      && DistinctIntervals(groups)
      && forall g :: g in groups ==> g.ids != [] && '_' !in g.interval
  {
    var groups := GroupSpec(catalog);
    GroupSpecInvariant(catalog);
    GroupSpecIntervals(catalog);
  }

  /** The loop over groups from nothing, restated for the groups of a
      catalog. */
  lemma CollectAllSetup(catalog: seq<CatalogEntry>, window: Window, opts: Options,
                        post: Payload -> Result<Document>)
    requires opts.chunkSize != 0 && CollectAll(catalog, window, opts, post).result.Ok?
    ensures var c := CollectAll(catalog, window, opts, post).result.value;
      var groups := GroupSpec(catalog); var n := |groups|;
      && c.responses.Keys == Intervals(groups)
      && (forall g, b :: g in groups && b in KnownBlocks ==>
            (TableKey(b, g.interval, n) in c.dataframes <==> IsObjectBlock(c.responses[g.interval], b)))
      && (forall g, b :: g in groups && b in KnownBlocks && TableKey(b, g.interval, n) in c.dataframes ==>
            c.dataframes[TableKey(b, g.interval, n)] == BlockRows(c.responses[g.interval], b))
      && c.dataframes.Keys <= GroupKeys(groups, n)
  {
    var groups := GroupSpec(catalog);
    var n := |groups|;
    var init := Collected(map[], map[]);
    var f := FetchGroups(groups, n, window, opts, post, init, []);
    assert CollectAll(catalog, window, opts, post) == f;
    GroupSpecWellFormed(catalog);
    assert init.dataframes.Keys !! GroupKeys(groups, n);
    FetchGroupsResponses(groups, n, window, opts, post, init, []);
    FetchGroupsTables(groups, n, window, opts, post, init, []);
  }

  lemma CollectAllTables(catalog: seq<CatalogEntry>, window: Window, opts: Options,
                         post: Payload -> Result<Document>)
    requires opts.chunkSize != 0 && CollectAll(catalog, window, opts, post).result.Ok?
    ensures var c := CollectAll(catalog, window, opts, post).result.value;
      var n := |GroupSpec(catalog)|;
      forall iv, b :: iv in c.responses && b in KnownBlocks && TableKey(b, iv, n) in c.dataframes ==>
        c.dataframes[TableKey(b, iv, n)] == BlockRows(c.responses[iv], b)
  {
    var groups := GroupSpec(catalog);
    var n := |groups|;
    CollectAllSetup(catalog, window, opts, post);
    var c := CollectAll(catalog, window, opts, post).result.value;
    forall iv, b | iv in c.responses && b in KnownBlocks && TableKey(b, iv, n) in c.dataframes
      ensures c.dataframes[TableKey(b, iv, n)] == BlockRows(c.responses[iv], b)
    {
      var g :| g in groups && g.interval == iv;
    }
  }

  lemma CollectAllNames(catalog: seq<CatalogEntry>, window: Window, opts: Options,
                        post: Payload -> Result<Document>)
    requires opts.chunkSize != 0 && CollectAll(catalog, window, opts, post).result.Ok?
    ensures var c := CollectAll(catalog, window, opts, post).result.value;
      c.dataframes.Keys == StoredNames(c.responses, |GroupSpec(catalog)|)
  {
    var groups := GroupSpec(catalog);
    var n := |groups|;
    CollectAllSetup(catalog, window, opts, post);
    var c := CollectAll(catalog, window, opts, post).result.value;
    forall k | k in c.dataframes ensures k in StoredNames(c.responses, n) {
      var g, b :| g in groups && b in KnownBlocks && k == TableKey(b, g.interval, n);
    }
    forall k | k in StoredNames(c.responses, n) ensures k in c.dataframes {
      var iv, b :| iv in c.responses && b in KnownBlocks && IsObjectBlock(c.responses[iv], b) && k == TableKey(b, iv, n);
      var g :| g in groups && g.interval == iv;
    }
  }

  /** A successful fetch (with a non-zero chunk size) holds the catalog it
      read, one merged response per interval that kept an id, namely the
      merge folded over that interval's chunk responses, and one table per
      object block of each merged response, stored under the block's name
      when one interval was fetched and under `block_interval` otherwise,
      holding the block's rows; no other table. */
  lemma FetchSucceeded(horizons: seq<string>, catalog: seq<CatalogEntry>, window: Window,
                       opts: Options, post: Payload -> Result<Document>)
    requires horizons != [] && opts.chunkSize != 0
    requires FetchSpec(horizons, Ok(catalog), window, opts, post).result.Ok?
    ensures var r := FetchSpec(horizons, Ok(catalog), window, opts, post).result.value;
      var n := |GroupSpec(catalog)|;
      && r.catalog == catalog
      && (forall iv :: iv in r.responses <==> KeptIds(catalog, iv) != [])
      && (forall iv :: iv in r.responses ==>
            GroupAnswered(Group(iv, KeptIds(catalog, iv)), window, opts, post)
            && r.responses[iv] == Aggregate(Group(iv, KeptIds(catalog, iv)), window, opts, post))
      && (forall iv, b :: iv in r.responses && b in KnownBlocks && TableKey(b, iv, n) in r.dataframes ==>
            r.dataframes[TableKey(b, iv, n)] == BlockRows(r.responses[iv], b))
      && r.dataframes.Keys == StoredNames(r.responses, n)
  {
    if catalog != [] {
      var c := CollectAll(catalog, window, opts, post).result.value;
      assert FetchSpec(horizons, Ok(catalog), window, opts, post).result.value ==
        TimeseriesResult(catalog, c.responses, c.dataframes);
      CollectAllResponses(catalog, window, opts, post);
      CollectAllTables(catalog, window, opts, post);
      CollectAllNames(catalog, window, opts, post);
    }
  }

  /** The merged response of an interval holds, for each known block, the
      rows of that block across the interval's chunk responses in the order
      the chunks were sent, as many as their sum, and the first `meta` among
      them; the block's table holds the same rows. */
  lemma FetchedRows(horizons: seq<string>, catalog: seq<CatalogEntry>, window: Window,
                    opts: Options, post: Payload -> Result<Document>, interval: string, block: string)
    requires horizons != [] && opts.chunkSize != 0
    requires FetchSpec(horizons, Ok(catalog), window, opts, post).result.Ok?
    requires interval in FetchSpec(horizons, Ok(catalog), window, opts, post).result.value.responses
    requires block in KnownBlocks
    ensures AllAnswered(IntervalSends(catalog, interval, window, opts), post)
    ensures var r := FetchSpec(horizons, Ok(catalog), window, opts, post).result.value;
      var replies := Replies(IntervalSends(catalog, interval, window, opts), post);
      var key := TableKey(block, interval, |GroupSpec(catalog)|);
      && BlockRows(r.responses[interval], block) == ConcatRows(replies, block)
      && |BlockRows(r.responses[interval], block)| == RowCount(replies, block)
      && MetaOf(r.responses[interval]) == FirstMeta(replies)
      && (key in r.dataframes ==> r.dataframes[key] == ConcatRows(replies, block))
  {
    FetchSucceeded(horizons, catalog, window, opts, post);
    var replies := Replies(IntervalSends(catalog, interval, window, opts), post);
    FoldMergeProperties(map[], replies);
    ConcatRowsCount(replies, block);
  }

  /** The checks that end a fetch before any payload is sent: no horizons,
      a failed catalog request, an empty catalog. */
  lemma FetchShortCircuits(horizons: seq<string>, catalogReply: Result<seq<CatalogEntry>>, window: Window,
                           opts: Options, post: Payload -> Result<Document>)
    ensures horizons == [] ==> FetchSpec(horizons, catalogReply, window, opts, post) == Fetched(Err(NoHorizons), [])
    ensures horizons != [] && catalogReply.Err? ==>
      FetchSpec(horizons, catalogReply, window, opts, post) == Fetched(Err(catalogReply.error), [])
    ensures horizons != [] && catalogReply == Ok([]) ==>
      FetchSpec(horizons, catalogReply, window, opts, post) == Fetched(Ok(TimeseriesResult([], map[], map[])), [])
  {
  }

  lemma GroupsEmpty(groups: seq<Group>)
    ensures groups == [] <==> Intervals(groups) == {}
  {
    if groups != [] {
      assert groups[0].interval in Intervals(groups);
    }
  }

  /** A catalog in which no entry is kept fetches nothing and yields empty
      responses and tables, whatever the chunk size. */
  lemma NothingKept(horizons: seq<string>, catalog: seq<CatalogEntry>, window: Window,
                    opts: Options, post: Payload -> Result<Document>)
    requires horizons != []
    requires forall iv :: KeptIds(catalog, iv) == []
    ensures FetchSpec(horizons, Ok(catalog), window, opts, post) == Fetched(Ok(TimeseriesResult(catalog, map[], map[])), [])
  {
    GroupingPartitions(catalog);
    assert Intervals(GroupSpec(catalog)) == {};
    GroupsEmpty(GroupSpec(catalog));
  }

  /** A zero chunk size fails the fetch with the error `range()` raises, as
      soon as some entry is kept and before any payload is sent. */
  lemma ZeroChunkSizeRejected(horizons: seq<string>, catalog: seq<CatalogEntry>, window: Window,
                              opts: Options, post: Payload -> Result<Document>, interval: string)
    requires horizons != [] && opts.chunkSize == 0
    requires KeptIds(catalog, interval) != []
    ensures FetchSpec(horizons, Ok(catalog), window, opts, post) == Fetched(Err(ZeroChunkSize), [])
  {
    var groups := GroupSpec(catalog);
    GroupingPartitions(catalog);
    GroupSpecInvariant(catalog);
    assert interval in Intervals(groups);
    GroupsEmpty(groups);
    var g := groups[0];
    assert g in groups;
    assert g.ids[0] in SortedUnique(g.ids);
    GroupPlanBadChunkSize(g.interval, g.ids, window, opts);
    assert FetchGroup(g, |groups|, window, opts, post, Collected(map[], map[]), []) == Fetched(Err(ZeroChunkSize), []);
  }

  lemma {:induction false} NegativePlanEmpty(groups: seq<Group>, window: Window, opts: Options)
    requires opts.chunkSize < 0
    ensures Plan(groups, window, opts) == []
    decreases |groups|
  {
    if groups != [] {
      GroupPlanBadChunkSize(groups[0].interval, groups[0].ids, window, opts);
      NegativePlanEmpty(groups[1..], window, opts);
    }
  }

  lemma {:induction false} NegativeFetchGroupsOk(groups: seq<Group>, n: nat, window: Window, opts: Options,
                                                 post: Payload -> Result<Document>, acc: Collected, sent: seq<Payload>)
    requires opts.chunkSize < 0
    ensures FetchGroups(groups, n, window, opts, post, acc, sent).result.Ok?
    decreases |groups|
  {
    if groups != [] {
      var g := groups[0];
      GroupPlanBadChunkSize(g.interval, g.ids, window, opts);
      var f0 := FetchGroup(g, n, window, opts, post, acc, sent);
      assert f0.result.Ok?;
      NegativeFetchGroupsOk(groups[1..], n, window, opts, post, f0.result.value, f0.sent);
    }
  }

  /** A negative chunk size makes `range()` empty: no payload is sent, yet
      the fetch succeeds with an empty response for every interval that kept
      an id and no table at all. */
  lemma NegativeChunkSizeSendsNothing(horizons: seq<string>, catalog: seq<CatalogEntry>, window: Window,
                                      opts: Options, post: Payload -> Result<Document>)
    requires horizons != [] && opts.chunkSize < 0
    ensures var f := FetchSpec(horizons, Ok(catalog), window, opts, post);
      && f.result.Ok? && f.sent == []
      && (forall iv :: iv in f.result.value.responses <==> KeptIds(catalog, iv) != [])
      && (forall iv :: iv in f.result.value.responses ==> f.result.value.responses[iv] == map[])
      && f.result.value.dataframes == map[]
  {
    var groups := GroupSpec(catalog);
    NegativeFetchGroupsOk(groups, |groups|, window, opts, post, Collected(map[], map[]), []);
    NegativePlanEmpty(groups, window, opts);
    FetchRequests(horizons, catalog, window, opts, post);
    FetchSucceeded(horizons, catalog, window, opts, post);
    var r := FetchSpec(horizons, Ok(catalog), window, opts, post).result.value;
    forall iv | iv in r.responses ensures r.responses[iv] == map[] {
      GroupPlanBadChunkSize(iv, KeptIds(catalog, iv), window, opts);
    }
    assert StoredNames(r.responses, |groups|) == {};
  }
  /** The loop over the groups of a catalog succeeds exactly when every
      interval that kept an id is answered in full and its responses merge. */
  lemma CollectAllOk(catalog: seq<CatalogEntry>, window: Window, opts: Options,
                     post: Payload -> Result<Document>)
    requires opts.chunkSize != 0
    ensures CollectAll(catalog, window, opts, post).result.Ok? <==>
      forall iv :: KeptIds(catalog, iv) != [] ==> GroupAnswered(Group(iv, KeptIds(catalog, iv)), window, opts, post)
  {
    var groups := GroupSpec(catalog);
    GroupSpecWellFormed(catalog);
    GroupSpecIntervals(catalog);
    GroupingPartitions(catalog);
    FetchGroupsOk(groups, |groups|, window, opts, post, Collected(map[], map[]), []);
    if forall g :: g in groups ==> GroupAnswered(g, window, opts, post) {
      forall iv | KeptIds(catalog, iv) != []
        ensures GroupAnswered(Group(iv, KeptIds(catalog, iv)), window, opts, post)
      {
        assert iv in Intervals(groups);
        var g :| g in groups && g.interval == iv;
      }
    } else {
      var g :| g in groups && !GroupAnswered(g, window, opts, post);
      assert g == Group(g.interval, KeptIds(catalog, g.interval));
    }
  }

  /** A fetch fails exactly when it has no horizons, when the catalog
      request fails, when the chunk size is 0 and some id is kept, or when
      some interval that kept an id is not answered in full or its responses
      do not merge. */
  lemma FetchFails(horizons: seq<string>, catalogReply: Result<seq<CatalogEntry>>, window: Window,
                   opts: Options, post: Payload -> Result<Document>)
    ensures FetchSpec(horizons, catalogReply, window, opts, post).result.Err? <==>
      || horizons == []
      || catalogReply.Err?
      || (opts.chunkSize == 0 && exists iv :: KeptIds(catalogReply.value, iv) != [])
      || (opts.chunkSize != 0 &&
          exists iv :: (KeptIds(catalogReply.value, iv) != [] &&
                        !GroupAnswered(Group(iv, KeptIds(catalogReply.value, iv)), window, opts, post)))
  {
    if horizons != [] && catalogReply.Ok? {
      var catalog := catalogReply.value;
      if opts.chunkSize == 0 {
        if iv :| KeptIds(catalog, iv) != [] {
          ZeroChunkSizeRejected(horizons, catalog, window, opts, post, iv);
        } else {
          NothingKept(horizons, catalog, window, opts, post);
        }
      } else if catalog == [] {
        assert forall iv :: KeptIds(catalog, iv) == [];
      } else {
        CollectAllOk(catalog, window, opts, post);
      }
    }
  }
}
