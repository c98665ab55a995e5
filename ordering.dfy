/** `sorted(set(market_ids))` (polybridge/client.py:288): the distinct
    identifiers in ascending order, strings compared code point by code
    point as Python compares them. */
module Ordering {

  /** Python's `a < b` on strings: lexicographic by code point, a proper
      prefix coming first. */
  predicate Below(a: string, b: string)
    decreases |a|
  {
    if a == [] then b != []
    else if b == [] then false
    else if a[0] == b[0] then Below(a[1..], b[1..])
    else a[0] < b[0]
  }

  lemma {:induction false} BelowIrreflexive(a: string)
    ensures !Below(a, a)
    decreases |a|
  {
    if a != [] {
      BelowIrreflexive(a[1..]);
    }
  }

  lemma {:induction false} BelowTransitive(a: string, b: string, c: string)
    requires Below(a, b) && Below(b, c)
    ensures Below(a, c)
    decreases |a|
  {
    if a != [] && b != [] && c != [] && a[0] == b[0] && b[0] == c[0] {
      BelowTransitive(a[1..], b[1..], c[1..]);
    }
  }

  /** Any two different strings are ordered one way or the other. */
  lemma {:induction false} BelowTotal(a: string, b: string)
    requires a != b
    ensures Below(a, b) || Below(b, a)
    decreases |a|
  {
    if a != [] && b != [] && a[0] == b[0] {
      assert a == [a[0]] + a[1..] && b == [b[0]] + b[1..];
      BelowTotal(a[1..], b[1..]);
    }
  }

  /** Strictly ascending, hence free of duplicates. */
  predicate StrictlySorted(s: seq<string>)
  {
    forall i, j :: 0 <= i < j < |s| ==> Below(s[i], s[j])
  }

  /** `x` inserted at its place in a strictly sorted sequence, unless it is
      already there. */
  function Insert(x: string, s: seq<string>): (r: seq<string>)
    requires StrictlySorted(s)
    ensures StrictlySorted(r)
    ensures forall y :: y in r <==> y == x || y in s
  {
    if s == [] then [x]
    else if x == s[0] then s
    else if Below(x, s[0]) then
      assert forall j :: 0 < j < |s| ==> Below(x, s[j]) by {
        forall j | 0 < j < |s| ensures Below(x, s[j]) {
          BelowTransitive(x, s[0], s[j]);
        }
      }
      [x] + s
    else
      var t := Insert(x, s[1..]);
      assert Below(s[0], x) by {
        BelowTotal(x, s[0]);
      }
      assert forall y :: y in t ==> Below(s[0], y) by {
        forall y | y in t ensures Below(s[0], y) {
          if y != x {
            var j :| 0 <= j < |s[1..]| && s[1..][j] == y;
            assert s[j + 1] == y;
          }
        }
      }
      assert forall y :: y in s <==> y == s[0] || y in s[1..] by {
        assert s == [s[0]] + s[1..];
      }
      [s[0]] + t
  }

  /** `sorted(set(ids))`: every identifier of `ids` once, ascending. */
  function SortedUnique(ids: seq<string>): (r: seq<string>)
    ensures StrictlySorted(r)
    ensures forall x :: x in r <==> x in ids
    decreases |ids|
  {
    if ids == [] then []
    else
      var front := ids[..|ids| - 1];
      assert forall x :: x in ids <==> x in front || x == ids[|ids| - 1] by {
        assert ids == front + [ids[|ids| - 1]];
      }
      Insert(ids[|ids| - 1], SortedUnique(front))
  }

  /** A strictly sorted sequence and its set of elements have the same size,
      so `sorted(set(ids))` has one entry per distinct identifier. */
  lemma {:induction false} StrictlySortedCount(s: seq<string>)
    requires StrictlySorted(s)
    ensures |set x | x in s| == |s|
    decreases |s|
  {
    if s != [] {
      StrictlySortedCount(s[1..]);
      assert s[0] !in s[1..] by {
        if s[0] in s[1..] {
          var j :| 0 <= j < |s[1..]| && s[1..][j] == s[0];
          assert Below(s[0], s[j + 1]);
          BelowIrreflexive(s[0]);
        }
      }
      assert (set x | x in s) == {s[0]} + (set x | x in s[1..]) by {
        assert s == [s[0]] + s[1..];
      }
    }
  }

  /** The strictly sorted sequence of a set of strings is unique: two strictly
      sorted sequences with the same elements are equal. */
  lemma {:induction false} StrictlySortedUnique(s: seq<string>, t: seq<string>)
    requires StrictlySorted(s) && StrictlySorted(t)
    requires forall x :: x in s <==> x in t
    ensures s == t
    decreases |s|
  {
    StrictlySortedCount(s);
    StrictlySortedCount(t);
    assert (set x | x in s) == (set x | x in t);
    if s != [] {
      // the least element of each is the least element of the other
      if s[0] != t[0] {
        BelowTotal(s[0], t[0]);
        assert s[0] in t && t[0] in s;
        var i :| 0 <= i < |t| && t[i] == s[0];
        var j :| 0 <= j < |s| && s[j] == t[0];
        assert i > 0 && j > 0;
        assert Below(t[0], s[0]) && Below(s[0], t[0]);
        BelowTransitive(s[0], t[0], s[0]);
        BelowIrreflexive(s[0]);
      }
      assert s == [s[0]] + s[1..] && t == [t[0]] + t[1..];
      assert s[0] !in s[1..] by {
        if s[0] in s[1..] {
          var j :| 0 <= j < |s[1..]| && s[1..][j] == s[0];
          assert Below(s[0], s[j + 1]);
          BelowIrreflexive(s[0]);
        }
      }
      assert t[0] !in t[1..] by {
        if t[0] in t[1..] {
          var j :| 0 <= j < |t[1..]| && t[1..][j] == t[0];
          assert Below(t[0], t[j + 1]);
          BelowIrreflexive(t[0]);
        }
      }
      assert forall x :: x in s[1..] <==> x in t[1..] by {
        forall x ensures x in s[1..] <==> x in t[1..] {
          assert x in s <==> x == s[0] || x in s[1..];
          assert x in t <==> x == t[0] || x in t[1..];
        }
      }
      StrictlySortedUnique(s[1..], t[1..]);
    }
  }
}
