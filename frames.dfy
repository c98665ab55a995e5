/** Block-to-table conversion `_response_to_frames`
    (polybridge/client.py:452-459) and the table-naming rule of
    fetch_timeseries (polybridge/client.py:321-323). */
module Frames {
  import opened Types
  import opened Horizons
  import opened Merging

  /** Block `b` of `d` is an object, so it becomes a table. */
  predicate IsObjectBlock(d: Document, b: string)
  {
    b in d && d[b].Object?
  }

  /** The tables of a merged response: one per known block present as an
      object, holding that block's rows. */
  function Tables(d: Document): (r: map<string, Table>)
    ensures forall b :: b in r <==> b in KnownBlocks && IsObjectBlock(d, b)
    ensures forall b :: b in r ==> r[b] == BlockRows(d, b)
  {
    map b | b in KnownBlocks && IsObjectBlock(d, b) :: BlockRows(d, b)
  }

  /** `_response_to_frames` as the loop it is. */
  method ResponseToFrames(response: Document) returns (frames: map<string, Table>)
    ensures frames == Tables(response)
  {
    frames := map[];
    for i := 0 to |KnownBlocks|
      invariant forall b :: b in frames <==> b in KnownBlocks[..i] && IsObjectBlock(response, b)
      invariant forall b :: b in frames ==> frames[b] == BlockRows(response, b)
    {
      var block := KnownBlocks[i];
      assert forall b :: b in KnownBlocks[..i + 1] <==> b in KnownBlocks[..i] || b == block;
      if block in response && response[block].Object? {
        var rows := response[block].rows.GetOr([]);
        frames := frames[block := rows];
      }
    }
    assert KnownBlocks[..|KnownBlocks|] == KnownBlocks;
  }

  /** The dataframe key of a block's table: the bare block name when the
      fetch has exactly one interval group, `block_interval` otherwise. */
  function TableKey(block: string, interval: string, groupCount: nat): (r: string)
    ensures |block| <= |r| && r[..|block|] == block
    ensures r == block <==> groupCount == 1
  {
    if groupCount == 1 then block else block + "_" + interval
  }

  /** The index of the last underscore of `s`, -1 when it has none. */
  function LastUnderscore(s: string): int
  {
    if s == [] then -1
    else if s[|s| - 1] == '_' then |s| - 1
    else LastUnderscore(s[..|s| - 1])
  }

  lemma {:induction false} LastUnderscoreOfKey(x: string, y: string)
    requires '_' !in y
    ensures LastUnderscore(x + "_" + y) == |x|
    decreases |y|
  {
    var k := x + "_" + y;
    if y != [] {
      assert k[|k| - 1] == y[|y| - 1];
      assert k[..|k| - 1] == x + "_" + y[..|y| - 1];
      LastUnderscoreOfKey(x, y[..|y| - 1]);
    }
  }

  /** Two names `x_y` with no underscore in `y` are equal only when their
      parts are: the name splits at its last underscore. */
  lemma SuffixSplit(x: string, y: string, x': string, y': string)
    requires '_' !in y && '_' !in y'
    requires x + "_" + y == x' + "_" + y'
    ensures x == x' && y == y'
  {
    var k := x + "_" + y;
    LastUnderscoreOfKey(x, y);
    LastUnderscoreOfKey(x', y');
    assert x == k[..|x|];
    assert x' == (x' + "_" + y')[..|x'|];
    assert y == k[|x| + 1..];
    assert y' == (x' + "_" + y')[|x'| + 1..];
  }

  /** Table names never collide: with several interval groups, distinct
      (block, interval) pairs of mapped intervals get distinct names; with
      one group, distinct blocks do. */
  lemma TableKeysDistinct(b1: string, h1: string, b2: string, h2: string, groupCount: nat)
    requires IntervalOf(h1).Some? && IntervalOf(h2).Some?
    requires groupCount == 1 ==> IntervalOf(h1) == IntervalOf(h2)
    requires b1 != b2 || IntervalOf(h1) != IntervalOf(h2)
    ensures TableKey(b1, IntervalOf(h1).value, groupCount) != TableKey(b2, IntervalOf(h2).value, groupCount)
  {
    if groupCount != 1 {
      MappedIntervalHasNoUnderscore(h1);
      MappedIntervalHasNoUnderscore(h2);
      if b1 + "_" + IntervalOf(h1).value == b2 + "_" + IntervalOf(h2).value {
        SuffixSplit(b1, IntervalOf(h1).value, b2, IntervalOf(h2).value);
      }
    }
  }

  /** The naming loop for one interval: each table of `frames`, taken in the
      order of `blocks`, stored under its key. */
  function AddFrames(dataframes: map<string, Table>, frames: map<string, Table>, interval: string,
                     groupCount: nat, blocks: seq<string>): map<string, Table>
    decreases |blocks|
  {
    if blocks == [] then dataframes
    else
      var b := blocks[0];
      var next := if b in frames then dataframes[TableKey(b, interval, groupCount) := frames[b]] else dataframes;
      AddFrames(next, frames, interval, groupCount, blocks[1..])
  }
}
