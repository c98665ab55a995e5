/** How a failed fetch_timeseries (polybridge/client.py:255-329) ends: the
    exception of a POST or of a merge leaves the chunk loop at once, and with
    it the loop over interval groups, so nothing after the failing payload is
    sent. */
module FetchFailures {
  import opened Types
  import opened Ordering
  import opened Grouping
  import opened Merging
  import opened Client
  import opened FetchProperties

  /** The chunk loop over `ps`, started from `acc`, stops at its k-th
      payload with error `e`: the payloads before it were all answered and
      their responses merge, and then either the POST of the k-th payload
      raised `e`, or it was answered and merging its response raised `e`. */
  predicate StopsAt(ps: seq<Payload>, acc: Document, post: Payload -> Result<Document>, k: int, e: Error)
  {
    && 0 < k <= |ps|
    && AllAnswered(ps[..k - 1], post)
    && FoldMerge(acc, Replies(ps[..k - 1], post)).Ok?
    && (post(ps[k - 1]).Err? ==> post(ps[k - 1]).error == e)
    && (post(ps[k - 1]).Ok? ==>
          Merge(FoldMerge(acc, Replies(ps[..k - 1], post)).value, post(ps[k - 1]).value) == Err(e))
  }

  /** The replies to a non-empty sequence of answered payloads are the
      first one's reply followed by the replies to the rest. */
  lemma RepliesCons(ps: seq<Payload>, post: Payload -> Result<Document>)
    requires ps != [] && AllAnswered(ps, post)
    ensures AllAnswered(ps[1..], post)
    ensures Replies(ps, post) == [post(ps[0]).value] + Replies(ps[1..], post)
  {
    AllAnsweredCons(ps, post);
    assert Replies(ps, post)[1..] == Replies(ps[1..], post);
  }

  /** Stopping at the k-th payload of the rest, after a first payload that
      was answered and merged, is stopping at the (k + 1)-th of the whole. */
  lemma StopsAtCons(ps: seq<Payload>, acc: Document, post: Payload -> Result<Document>, k: int, e: Error)
    requires ps != [] && post(ps[0]).Ok? && Merge(acc, post(ps[0]).value).Ok?
    requires StopsAt(ps[1..], Merge(acc, post(ps[0]).value).value, post, k, e)
    ensures StopsAt(ps, acc, post, k + 1, e)
  {
    var front := ps[..k];
    var before := ps[1..][..k - 1];
    assert front != [] && front[0] == ps[0] && front[1..] == before;
    AllAnsweredCons(front, post);
    RepliesCons(front, post);
    var rs := Replies(front, post);
    assert rs[0] == post(ps[0]).value && rs[1..] == Replies(before, post);
    assert ps[k] == ps[1..][k - 1];
  }

  /** A first payload whose POST or merge raises stops the loop there. */
  lemma PostChunksFirstStops(ps: seq<Payload>, acc: Document, sent: seq<Payload>,
                             post: Payload -> Result<Document>)
    requires ps != [] && (post(ps[0]).Ok? ==> Merge(acc, post(ps[0]).value).Err?)
    ensures var f := PostChunks(ps, acc, sent, post);
      f.result.Err? && |f.sent| == |sent| + 1 && StopsAt(ps, acc, post, 1, f.result.error)
  {
    assert ps[..0] == [];
    assert Replies(ps[..0], post) == [];
  }

  /** A failed chunk loop stops at the first payload whose POST or merge
      raises: the last payload it sent is that one, and the error is the one
      raised there. */
  lemma {:induction false} PostChunksStops(ps: seq<Payload>, acc: Document, sent: seq<Payload>,
                                           post: Payload -> Result<Document>)
    ensures var f := PostChunks(ps, acc, sent, post);
      f.result.Err? ==> StopsAt(ps, acc, post, |f.sent| - |sent|, f.result.error)
    decreases |ps|
  {
    if ps != [] {
      var p := ps[0];
      if post(p).Ok? && Merge(acc, post(p).value).Ok? {
        var merged := Merge(acc, post(p).value).value;
        var f := PostChunks(ps[1..], merged, sent + [p], post);
        PostChunksCons(ps, acc, sent, post);
        PostChunksStops(ps[1..], merged, sent + [p], post);
        if f.result.Err? {
          var k := |f.sent| - |sent + [p]|;
          assert k + 1 == |f.sent| - |sent|;
          StopsAtCons(ps, acc, post, k, f.result.error);
        }
      } else {
        PostChunksFirstStops(ps, acc, sent, post);
      }
    }
  }

  /** A group whose turn succeeds is answered in full. */
  lemma FetchGroupAnswered(g: Group, n: nat, window: Window, opts: Options,
                           post: Payload -> Result<Document>, acc: Collected, sent: seq<Payload>)
    requires opts.chunkSize != 0 && FetchGroup(g, n, window, opts, post, acc, sent).result.Ok?
    ensures GroupAnswered(g, window, opts, post)
  {
    var gs := GroupSends(g, window, opts);
    if SortedUnique(g.ids) == [] {
      assert Replies(gs, post) == [];
    } else {
      PostChunksReplies(gs, map[], sent, post);
    }
  }

  /** A failed turn of the loop over groups sends the group's payloads up
      to the one whose POST or merge raised, and fails with that error. */
  lemma FetchGroupStops(g: Group, n: nat, window: Window, opts: Options,
                        post: Payload -> Result<Document>, acc: Collected, sent: seq<Payload>)
    requires opts.chunkSize != 0
    ensures var f := FetchGroup(g, n, window, opts, post, acc, sent); var gs := GroupSends(g, window, opts);
      f.result.Err? ==>
        && StopsAt(gs, map[], post, |f.sent| - |sent|, f.result.error)
        && f.sent == sent + gs[..|f.sent| - |sent|]
  {
    var gs := GroupSends(g, window, opts);
    if SortedUnique(g.ids) != [] {
      PostChunksSent(gs, map[], sent, post);
      PostChunksStops(gs, map[], sent, post);
    }
  }

  /** The loop over `groups`, having sent `sent` before it, stopped in
      group i at that group's k-th payload with error `e`: every group before
      it was answered in full, `log` is `sent` followed by those groups' plans
      and the failing group's payloads up to its k-th, and the chunk loop of
      group i stops there. */
  predicate GroupsStopAt(groups: seq<Group>, window: Window, opts: Options, post: Payload -> Result<Document>,
                         sent: seq<Payload>, log: seq<Payload>, e: Error, i: int, k: int)
    requires opts.chunkSize != 0
  {
    && 0 <= i < |groups|
    && AnsweredBefore(groups, i, window, opts, post)
    && StopsAt(GroupSends(groups[i], window, opts), map[], post, k, e)
    && log == sent + Plan(groups[..i], window, opts) + GroupSends(groups[i], window, opts)[..k]
  }

  /** The plan of the first i + 1 groups is the first group's payloads
      followed by the plan of the next i. */
  lemma PlanPrefixCons(groups: seq<Group>, window: Window, opts: Options, i: nat)
    requires opts.chunkSize != 0 && i < |groups|
    ensures Plan(groups[..i + 1], window, opts) == GroupSends(groups[0], window, opts) + Plan(groups[1..][..i], window, opts)
  {
    assert groups[..i + 1][1..] == groups[1..][..i];
  }

  /** Every group before the i-th is answered in full. */
  predicate AnsweredBefore(groups: seq<Group>, i: int, window: Window, opts: Options, post: Payload -> Result<Document>)
    requires opts.chunkSize != 0 && i <= |groups|
  {
    forall j :: 0 <= j < i ==> GroupAnswered(groups[j], window, opts, post)
  }

  lemma AnsweredBeforeCons(groups: seq<Group>, i: nat, window: Window, opts: Options, post: Payload -> Result<Document>)
    requires opts.chunkSize != 0 && i < |groups|
    requires GroupAnswered(groups[0], window, opts, post) && AnsweredBefore(groups[1..], i, window, opts, post)
    ensures AnsweredBefore(groups, i + 1, window, opts, post)
  {
    assert forall j :: 0 < j < i + 1 ==> groups[j] == groups[1..][j - 1];
  }

  /** Stopping in the first group's chunk loop is stopping in group 0. */
  lemma GroupsStopAtFirst(groups: seq<Group>, window: Window, opts: Options, post: Payload -> Result<Document>,
                          sent: seq<Payload>, log: seq<Payload>, e: Error, k: int)
    requires opts.chunkSize != 0 && groups != []
    requires StopsAt(GroupSends(groups[0], window, opts), map[], post, k, e)
    requires log == sent + GroupSends(groups[0], window, opts)[..k]
    ensures GroupsStopAt(groups, window, opts, post, sent, log, e, 0, k)
  {
    assert groups[..0] == [];
  }

  /** Stopping in group i of the rest after an answered first group is
      stopping in group i + 1 of the whole. */
  lemma GroupsStopAtCons(groups: seq<Group>, window: Window, opts: Options, post: Payload -> Result<Document>,
                         sent: seq<Payload>, log: seq<Payload>, e: Error, i: int, k: int)
    requires opts.chunkSize != 0 && groups != []
    requires GroupAnswered(groups[0], window, opts, post)
    requires GroupsStopAt(groups[1..], window, opts, post, sent + GroupSends(groups[0], window, opts), log, e, i, k)
    ensures GroupsStopAt(groups, window, opts, post, sent, log, e, i + 1, k)
  {
    var rest := groups[1..];
    var gs := GroupSends(groups[0], window, opts);
    var tail := GroupSends(rest[i], window, opts)[..k];
    PlanPrefixCons(groups, window, opts, i);
    AppendAssoc(sent, gs, Plan(rest[..i], window, opts));
    assert groups[i + 1] == rest[i];
    AnsweredBeforeCons(groups, i, window, opts, post);
  }

  /** A failed loop over groups stops in the first group whose chunk loop
      fails, at the payload whose POST or merge raised the error. */
  lemma {:induction false} FetchGroupsStops(groups: seq<Group>, n: nat, window: Window, opts: Options,
                                            post: Payload -> Result<Document>, acc: Collected, sent: seq<Payload>)
    requires opts.chunkSize != 0
    ensures var f := FetchGroups(groups, n, window, opts, post, acc, sent);
      f.result.Err? ==> exists i, k :: GroupsStopAt(groups, window, opts, post, sent, f.sent, f.result.error, i, k)
    decreases |groups|
  {
    var f := FetchGroups(groups, n, window, opts, post, acc, sent);
    if groups != [] && f.result.Err? {
      var g := groups[0];
      var gs := GroupSends(g, window, opts);
      var f0 := FetchGroup(g, n, window, opts, post, acc, sent);
      FetchGroupsCons(groups, n, window, opts, post, acc, sent);
      if f0.result.Err? {
        FetchGroupStops(g, n, window, opts, post, acc, sent);
        GroupsStopAtFirst(groups, window, opts, post, sent, f0.sent, f0.result.error, |f0.sent| - |sent|);
      } else {
        FetchGroupSent(g, n, window, opts, post, acc, sent);
        FetchGroupAnswered(g, n, window, opts, post, acc, sent);
        FetchGroupsStops(groups[1..], n, window, opts, post, f0.result.value, f0.sent);
        var i, k :| GroupsStopAt(groups[1..], window, opts, post, f0.sent, f.sent, f.result.error, i, k);
        GroupsStopAtCons(groups, window, opts, post, sent, f.sent, f.result.error, i, k);
      }
    }
  }

  /** With a non-zero chunk size, a failed fetch stops in the first interval
      group whose chunk loop fails: the groups before it were answered in
      full and sent their whole plan, and the failing group sent its payloads
      up to the first one whose POST or merge raised, which raised the
      fetch's error. */
  lemma FetchStops(horizons: seq<string>, catalog: seq<CatalogEntry>, window: Window,
                   opts: Options, post: Payload -> Result<Document>)
    requires horizons != [] && opts.chunkSize != 0
    ensures var f := FetchSpec(horizons, Ok(catalog), window, opts, post);
      f.result.Err? ==> exists i, k :: GroupsStopAt(GroupSpec(catalog), window, opts, post, [], f.sent, f.result.error, i, k)
  {
    if catalog != [] {
      var groups := GroupSpec(catalog);
      FetchGroupsStops(groups, |groups|, window, opts, post, Collected(map[], map[]), []);
    }
  }
}
