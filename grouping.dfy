/** The grouping of catalog entries by interval in fetch_timeseries
    (polybridge/client.py:274-282): `markets_by_interval`, a dictionary that
    keeps its keys in order of first insertion, modelled as a sequence of
    groups with distinct intervals. */
module Grouping {
  import opened Types
  import opened Horizons

  /** One entry of `markets_by_interval`: an interval and its market ids. */
  datatype Group = Group(interval: string, ids: seq<string>)

  /** The interval an entry is filed under; None for an entry that is
      skipped: its horizon or market id missing or empty, or its horizon
      outside the horizon map. */
  function EntryInterval(e: CatalogEntry): (r: Option<string>)
    ensures r.Some? <==>
      && e.horizon.Some? && e.horizon.value != ""
      && e.marketId.Some? && e.marketId.value != ""
      && e.horizon.value in HorizonIntervalMap
    ensures r.Some? ==> r == IntervalOf(e.horizon.value)
  {
    if e.horizon.None? || e.horizon.value == "" || e.marketId.None? || e.marketId.value == "" then None
    else IntervalOf(e.horizon.value)
  }

  /** The ids filed under `interval`, in catalog order: the grouping's
      reference definition, one filter per interval. */
  function KeptIds(catalog: seq<CatalogEntry>, interval: string): (r: seq<string>)
    ensures |r| <= |catalog|
    ensures forall x :: x in r <==>
      exists e :: e in catalog && EntryInterval(e) == Some(interval) && e.marketId == Some(x)
    decreases |catalog|
  {
    if catalog == [] then []
    else
      var front, e := catalog[..|catalog| - 1], catalog[|catalog| - 1];
      assert catalog == front + [e];
      KeptIds(front, interval) + (if EntryInterval(e) == Some(interval) then [e.marketId.value] else [])
  }

  /** The ids of the group for `interval`, or none when there is no such
      group: what `markets_by_interval.get(interval, [])` would give. */
  function IdsOf(groups: seq<Group>, interval: string): seq<string>
  {
    if groups == [] then []
    else if groups[0].interval == interval then groups[0].ids
    else IdsOf(groups[1..], interval)
  }

  /** The set of intervals that have a group. */
  function Intervals(groups: seq<Group>): set<string>
  {
    set g | g in groups :: g.interval
  }

  predicate DistinctIntervals(groups: seq<Group>)
  {
    forall i, j :: 0 <= i < j < |groups| ==> groups[i].interval != groups[j].interval
  }

  /** `markets_by_interval[interval].append(id)`: the id goes at the end of
      its interval's group, which is opened at the end when it is new. */
  function AddToGroup(groups: seq<Group>, interval: string, id: string): (r: seq<Group>)
    ensures forall iv :: IdsOf(r, iv) == IdsOf(groups, iv) + (if iv == interval then [id] else [])
    ensures (forall g :: g in groups ==> g.ids != []) ==> forall g :: g in r ==> g.ids != []
  {
    if groups == [] then [Group(interval, [id])]
    else if groups[0].interval == interval then
      var r := [groups[0].(ids := groups[0].ids + [id])] + groups[1..];
      assert r[1..] == groups[1..];
      r
    else
      var r := [groups[0]] + AddToGroup(groups[1..], interval, id);
      assert r[1..] == AddToGroup(groups[1..], interval, id);
      r
  }

  lemma IntervalsCons(groups: seq<Group>)
    requires groups != []
    ensures Intervals(groups) == {groups[0].interval} + Intervals(groups[1..])
  {
    assert groups == [groups[0]] + groups[1..];
  }

  /** Distinct intervals stay distinct without the first group, which none
      of the others shares. */
  lemma DistinctIntervalsTail(groups: seq<Group>)
    requires groups != [] && DistinctIntervals(groups)
    ensures DistinctIntervals(groups[1..])
    ensures groups[0].interval !in Intervals(groups[1..])
  {
    forall a, b | 0 <= a < b < |groups[1..]|
      ensures groups[1..][a].interval != groups[1..][b].interval
    {
      assert groups[1..][a] == groups[a + 1] && groups[1..][b] == groups[b + 1];
    }
    forall g | g in groups[1..] ensures g.interval != groups[0].interval {
      var j :| 0 <= j < |groups[1..]| && groups[1..][j] == g;
      assert groups[j + 1] == g;
    }
  }

  /** A group put in front of groups with distinct intervals, none of them
      its own, keeps the intervals distinct. */
  lemma DistinctIntervalsCons(groups: seq<Group>)
    requires groups != [] && DistinctIntervals(groups[1..])
    requires groups[0].interval !in Intervals(groups[1..])
    ensures DistinctIntervals(groups)
  {
    forall i, j | 0 <= i < j < |groups| ensures groups[i].interval != groups[j].interval {
      assert groups[j] == groups[1..][j - 1];
      if i > 0 {
        assert groups[i] == groups[1..][i - 1];
      }
    }
  }

  /** Appending an id adds its interval to the set of intervals and keeps
      the intervals distinct. */
  lemma {:induction false} AddToGroupIntervals(groups: seq<Group>, interval: string, id: string)
    ensures Intervals(AddToGroup(groups, interval, id)) == Intervals(groups) + {interval}
    ensures DistinctIntervals(groups) ==> DistinctIntervals(AddToGroup(groups, interval, id))
    decreases |groups|
  {
    var r := AddToGroup(groups, interval, id);
    if groups != [] {
      IntervalsCons(groups);
      IntervalsCons(r);
      if groups[0].interval == interval {
        assert r[1..] == groups[1..];
      } else {
        var rest := AddToGroup(groups[1..], interval, id);
        assert r[1..] == rest;
        AddToGroupIntervals(groups[1..], interval, id);
        if DistinctIntervals(groups) {
          DistinctIntervalsTail(groups);
          DistinctIntervalsCons(r);
        }
      }
    }
  }

  /** What the grouping loop leaves in `markets_by_interval` after reading
      `catalog` in order. */
  function GroupSpec(catalog: seq<CatalogEntry>): seq<Group>
    decreases |catalog|
  {
    if catalog == [] then []
    else
      var groups := GroupSpec(catalog[..|catalog| - 1]);
      var e := catalog[|catalog| - 1];
      match EntryInterval(e)
      case None => groups
      case Some(interval) => AddToGroup(groups, interval, e.marketId.value)
  }

  /** The index of the first entry of `catalog` filed under `interval`,
      `|catalog|` when there is none. */
  function FirstFiled(catalog: seq<CatalogEntry>, interval: string): (r: nat)
    ensures r <= |catalog|
    ensures r < |catalog| ==> EntryInterval(catalog[r]) == Some(interval)
    ensures forall k :: 0 <= k < r && k < |catalog| ==> EntryInterval(catalog[k]) != Some(interval)
    decreases |catalog|
  {
    if catalog == [] then 0
    else if EntryInterval(catalog[0]) == Some(interval) then 0
    else 1 + FirstFiled(catalog[1..], interval)
  }

  /** Appending to an interval that has a group leaves the order of the
      intervals as it was; appending to a new one opens its group last. */
  lemma {:induction false} AddToGroupOrder(groups: seq<Group>, interval: string, id: string)
    ensures var r := AddToGroup(groups, interval, id);
      && (interval in Intervals(groups) ==>
            |r| == |groups| && forall i :: 0 <= i < |groups| ==> r[i].interval == groups[i].interval)
      && (interval !in Intervals(groups) ==> r == groups + [Group(interval, [id])])
    decreases |groups|
  {
    if groups != [] {
      IntervalsCons(groups);
      if groups[0].interval != interval {
        AddToGroupOrder(groups[1..], interval, id);
        var r := AddToGroup(groups, interval, id);
        assert r == [groups[0]] + AddToGroup(groups[1..], interval, id);
        if interval !in Intervals(groups) {
          assert groups == [groups[0]] + groups[1..];
        }
      }
    }
  }

  /** The grouping loop of fetch_timeseries. */
  method GroupByInterval(catalog: seq<CatalogEntry>) returns (groups: seq<Group>)
    ensures groups == GroupSpec(catalog)
  {
    groups := [];
    for i := 0 to |catalog|
      invariant groups == GroupSpec(catalog[..i])
    {
      assert catalog[..i + 1][..i] == catalog[..i];
      var entry := catalog[i];
      var horizon := entry.horizon;
      var marketId := entry.marketId;
      if horizon.None? || horizon.value == "" || marketId.None? || marketId.value == "" {
        continue;
      }
      var interval := IntervalOf(horizon.value);
      if interval.Some? {
        groups := AddToGroup(groups, interval.value, marketId.value);
      }
    }
    assert catalog[..|catalog|] == catalog;
  }

  /** The invariant the grouping loop keeps: distinct intervals, no empty
      group, and each interval's ids are exactly its kept ids in catalog
      order. */
  lemma {:induction false} GroupSpecInvariant(catalog: seq<CatalogEntry>)
    ensures DistinctIntervals(GroupSpec(catalog))
    ensures forall g :: g in GroupSpec(catalog) ==> g.ids != []
    ensures forall iv :: IdsOf(GroupSpec(catalog), iv) == KeptIds(catalog, iv)
    decreases |catalog|
  {
    if catalog != [] {
      var front := catalog[..|catalog| - 1];
      GroupSpecInvariant(front);
      var e := catalog[|catalog| - 1];
      if EntryInterval(e).Some? {
        AddToGroupIntervals(GroupSpec(front), EntryInterval(e).value, e.marketId.value);
      }
    }
  }

  lemma {:induction false} IdsOfGroup(groups: seq<Group>, i: nat)
    requires DistinctIntervals(groups) && i < |groups|
    ensures IdsOf(groups, groups[i].interval) == groups[i].ids
    decreases i
  {
    if i > 0 {
      assert DistinctIntervals(groups[1..]) by {
        forall a, b | 0 <= a < b < |groups[1..]|
          ensures groups[1..][a].interval != groups[1..][b].interval
        {
          assert groups[1..][a] == groups[a + 1] && groups[1..][b] == groups[b + 1];
        }
      }
      IdsOfGroup(groups[1..], i - 1);
    }
  }

  lemma {:induction false} IdsOfAbsent(groups: seq<Group>, interval: string)
    requires interval !in Intervals(groups)
    ensures IdsOf(groups, interval) == []
    decreases |groups|
  {
    if groups != [] {
      assert groups[0] in groups;
      assert Intervals(groups[1..]) <= Intervals(groups) by {
        forall g | g in groups[1..] ensures g in groups {
        }
      }
      IdsOfAbsent(groups[1..], interval);
    }
  }

  /** The grouping keeps exactly the entries with a truthy horizon and market
      id and a mapped horizon: every interval's group holds its kept ids in
      catalog order, no interval has two groups, and an interval has a group
      exactly when some entry is kept under it. */
  lemma GroupingPartitions(catalog: seq<CatalogEntry>)
    ensures DistinctIntervals(GroupSpec(catalog))
    ensures forall i :: 0 <= i < |GroupSpec(catalog)| ==>
      GroupSpec(catalog)[i].ids == KeptIds(catalog, GroupSpec(catalog)[i].interval)
    ensures forall iv :: iv in Intervals(GroupSpec(catalog)) <==> KeptIds(catalog, iv) != []
  {
    var groups := GroupSpec(catalog);
    GroupSpecInvariant(catalog);
    forall i | 0 <= i < |groups|
      ensures groups[i].ids == KeptIds(catalog, groups[i].interval)
    {
      IdsOfGroup(groups, i);
    }
    forall iv ensures iv in Intervals(groups) <==> KeptIds(catalog, iv) != [] {
      if iv in Intervals(groups) {
        var g :| g in groups && g.interval == iv;
        var i :| 0 <= i < |groups| && groups[i] == g;
        IdsOfGroup(groups, i);
      } else {
        IdsOfAbsent(groups, iv);
      }
    }
  }
  /** A prefix of the catalog files the same entries, so the first entry
      filed under an interval is found in the prefix whenever it lies there. */
  lemma FirstFiledSnoc(catalog: seq<CatalogEntry>, interval: string)
    requires catalog != []
    ensures var front := catalog[..|catalog| - 1];
      FirstFiled(catalog, interval) ==
        if FirstFiled(front, interval) < |front| then FirstFiled(front, interval)
        else if EntryInterval(catalog[|catalog| - 1]) == Some(interval) then |front|
        else |catalog|
  {
    var front := catalog[..|catalog| - 1];
    var f := FirstFiled(front, interval);
    var r := FirstFiled(catalog, interval);
    assert forall k :: 0 <= k < |front| ==> front[k] == catalog[k];
    if f < |front| {
      assert EntryInterval(catalog[f]) == Some(interval);
    }
  }

  /** An interval already filed in the front of the catalog keeps its first
      filed entry when an entry is added at the end. */
  lemma FirstFiledKept(catalog: seq<CatalogEntry>, interval: string)
    requires catalog != []
    requires FirstFiled(catalog[..|catalog| - 1], interval) < |catalog| - 1
    ensures FirstFiled(catalog, interval) == FirstFiled(catalog[..|catalog| - 1], interval)
  {
    FirstFiledSnoc(catalog, interval);
  }

  /** An interval has a group exactly when some entry is filed under it. */
  lemma {:induction false} GroupOrderMembers(catalog: seq<CatalogEntry>)
    ensures forall iv :: iv in Intervals(GroupSpec(catalog)) <==> FirstFiled(catalog, iv) < |catalog|
    decreases |catalog|
  {
    if catalog != [] {
      var front := catalog[..|catalog| - 1];
      var e := catalog[|catalog| - 1];
      var before := GroupSpec(front);
      var groups := GroupSpec(catalog);
      GroupOrderMembers(front);
      if EntryInterval(e).Some? {
        AddToGroupIntervals(before, EntryInterval(e).value, e.marketId.value);
        assert Intervals(groups) == Intervals(before) + {EntryInterval(e).value};
      } else {
        assert groups == before;
      }
      forall iv ensures iv in Intervals(groups) <==> FirstFiled(catalog, iv) < |catalog| {
        FirstFiledSnoc(catalog, iv);
      }
    }
  }

  /** `markets_by_interval` keeps its keys in order of first insertion: the
      groups are in the order in which the catalog first files an entry under
      their intervals, so the intervals are fetched in that order too. */
  lemma {:induction false} GroupOrder(catalog: seq<CatalogEntry>)
    ensures forall i, j :: 0 <= i < j < |GroupSpec(catalog)| ==>
      FirstFiled(catalog, GroupSpec(catalog)[i].interval) < FirstFiled(catalog, GroupSpec(catalog)[j].interval)
    decreases |catalog|
  {
    if catalog != [] {
      var front := catalog[..|catalog| - 1];
      var e := catalog[|catalog| - 1];
      var before := GroupSpec(front);
      var groups := GroupSpec(catalog);
      GroupOrder(front);
      GroupOrderMembers(front);
      forall i | 0 <= i < |before|
        ensures FirstFiled(catalog, before[i].interval) == FirstFiled(front, before[i].interval) < |front|
      {
        assert before[i] in before;
        FirstFiledKept(catalog, before[i].interval);
      }
      if EntryInterval(e).None? {
        assert groups == before;
      } else {
        var iv0 := EntryInterval(e).value;
        assert groups == AddToGroup(before, iv0, e.marketId.value);
        AddToGroupOrder(before, iv0, e.marketId.value);
        if iv0 !in Intervals(before) {
          FirstFiledSnoc(catalog, iv0);
          assert FirstFiled(catalog, iv0) == |front|;
          forall i, j | 0 <= i < j < |groups|
            ensures FirstFiled(catalog, groups[i].interval) < FirstFiled(catalog, groups[j].interval)
          {
            assert groups[i] == before[i];
            if j < |before| {
              assert groups[j] == before[j];
            }
          }
        }
      }
    }
  }

  /** Weekly `a`, daily `b`, weekly `c`: the 30m group comes first, with
      `a` and `c`, then the 5m group. */
  lemma GroupOrderExample()
    ensures GroupSpec([CatalogEntry(Some("weekly"), Some("a"), map[]),
                       CatalogEntry(Some("daily"), Some("b"), map[]),
                       CatalogEntry(Some("weekly"), Some("c"), map[])])
         == [Group("30m", ["a", "c"]), Group("5m", ["b"])]
  {
    var c := [CatalogEntry(Some("weekly"), Some("a"), map[]),
              CatalogEntry(Some("daily"), Some("b"), map[]),
              CatalogEntry(Some("weekly"), Some("c"), map[])];
    assert EntryInterval(c[0]) == Some("30m") && EntryInterval(c[2]) == Some("30m");
    assert EntryInterval(c[1]) == Some("5m");
    assert c[..1][..0] == [];
    assert GroupSpec(c[..1]) == [Group("30m", ["a"])];
    assert c[..2][..1] == c[..1];
    assert GroupSpec(c[..2]) == AddToGroup([Group("30m", ["a"])], "5m", "b");
    assert GroupSpec(c[..2]) == [Group("30m", ["a"]), Group("5m", ["b"])];
    assert c[..|c| - 1] == c[..2];
    assert GroupSpec(c) == AddToGroup([Group("30m", ["a"]), Group("5m", ["b"])], "30m", "c");
    assert ["a"] + ["c"] == ["a", "c"];
    assert [Group("30m", ["a"]), Group("5m", ["b"])][1..] == [Group("5m", ["b"])];
  }
}
