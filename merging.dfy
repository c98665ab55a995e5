/** `_merge_responses` (polybridge/client.py:427-449) and the fold of it over
    the chunk responses of one interval (polybridge/client.py:292-319). */
module Merging {
  import opened Types

  /** The rows of block `b` as the merge and the frame conversion see them:
      the block's row list when it is an object with one, otherwise none. */
  function BlockRows(d: Document, b: string): seq<Row>
  {
    if b in d && d[b].Object? then d[b].rows.GetOr([]) else []
  }

  /** The `meta` member of a document, if any. */
  function MetaOf(d: Document): Option<Value>
  {
    if "meta" in d then Some(d["meta"]) else None
  }

  /** Merging block `b` of `src` into `dst` raises nothing: `src` has no such
      block, or it is an object and `dst` either lacks the block or holds it
      as an object with a `rows` member. */
  predicate BlockMergeable(dst: Document, src: Document, b: string)
  {
    b !in src || (src[b].Object? && (b !in dst || (dst[b].Object? && dst[b].rows.Some?)))
  }

  /** One turn of the loop over the known blocks: a block new to `dst` gets
      the source's columns and a copy of its rows; a block `dst` already has
      gets the source's rows appended to its own. */
  function MergeBlock(dst: Document, src: Document, b: string): (r: Result<Document>)
    ensures r.Ok? <==> BlockMergeable(dst, src, b)
    ensures r.Ok? && b !in src ==> r.value == dst
    ensures r.Ok? ==> r.value.Keys == dst.Keys + (if b in src then {b} else {})
    ensures r.Ok? ==> forall k :: k in dst && k != b ==> r.value[k] == dst[k]
    ensures r.Ok? ==> BlockRows(r.value, b) == BlockRows(dst, b) + BlockRows(src, b)
    ensures r.Ok? && b in src && b !in dst ==>
      r.value[b] == Object(Some(src[b].columns.GetOr([])), Some(BlockRows(src, b)), map[])
    ensures r.Ok? && b in src && b in dst ==>
      r.value[b].Object? && r.value[b].columns == dst[b].columns && r.value[b].rest == dst[b].rest
  {
    if b !in src then Ok(dst)
    else match src[b]
      case NonObject(_) => Err(MalformedBlock(b))
      case Object(columns, rows, _) =>
        if b !in dst then Ok(dst[b := Object(Some(columns.GetOr([])), Some(rows.GetOr([])), map[])])
        else match dst[b]
          case NonObject(_) => Err(MalformedBlock(b))
          case Object(dstColumns, dstRows, dstRest) =>
            if dstRows.None? then Err(MalformedBlock(b))
            else Ok(dst[b := Object(dstColumns, Some(dstRows.value + rows.GetOr([])), dstRest)])
  }

  /** The loop over `blocks`, stopping at the first block that raises. */
  function MergeBlocks(dst: Document, src: Document, blocks: seq<string>): Result<Document>
    decreases |blocks|
  {
    if blocks == [] then Ok(dst)
    else
      var merged :- MergeBlock(dst, src, blocks[0]);
      MergeBlocks(merged, src, blocks[1..])
  }

  predicate Distinct(blocks: seq<string>)
  {
    forall i, j :: 0 <= i < j < |blocks| ==> blocks[i] != blocks[j]
  }

  lemma DistinctTail(blocks: seq<string>)
    requires Distinct(blocks) && blocks != []
    ensures Distinct(blocks[1..]) && blocks[0] !in blocks[1..]
    ensures forall b :: b in blocks <==> b == blocks[0] || b in blocks[1..]
  {
    var rest := blocks[1..];
    assert blocks == [blocks[0]] + rest;
    forall j | 0 <= j < |rest| ensures rest[j] != blocks[0] {
      assert rest[j] == blocks[j + 1];
    }
    forall i, j | 0 <= i < j < |rest| ensures rest[i] != rest[j] {
      assert rest[i] == blocks[i + 1] && rest[j] == blocks[j + 1];
    }
  }

  /** The loop over distinct blocks succeeds exactly when every block is
      mergeable. */
  lemma {:induction false} MergeBlocksOk(dst: Document, src: Document, blocks: seq<string>)
    requires Distinct(blocks)
    ensures MergeBlocks(dst, src, blocks).Ok? <==> forall b :: b in blocks ==> BlockMergeable(dst, src, b)
    decreases |blocks|
  {
    if blocks != [] {
      var b0, rest := blocks[0], blocks[1..];
      DistinctTail(blocks);
      var first := MergeBlock(dst, src, b0);
      if first.Ok? {
        var d1 := first.value;
        MergeBlocksOk(d1, src, rest);
        forall b | b in rest ensures BlockMergeable(d1, src, b) == BlockMergeable(dst, src, b) {
          assert b != b0;
          assert b in d1 <==> b in dst;
        }
      }
    }
  }

  /** A successful loop over distinct blocks appends each block's source
      rows to its destination rows. */
  lemma {:induction false} MergeBlocksRows(dst: Document, src: Document, blocks: seq<string>)
    requires Distinct(blocks) && MergeBlocks(dst, src, blocks).Ok?
    ensures forall b :: b in blocks ==>
      BlockRows(MergeBlocks(dst, src, blocks).value, b) == BlockRows(dst, b) + BlockRows(src, b)
    decreases |blocks|
  {
    if blocks != [] {
      var b0, rest := blocks[0], blocks[1..];
      DistinctTail(blocks);
      var d1 := MergeBlock(dst, src, b0).value;
      var r := MergeBlocks(d1, src, rest).value;
      assert r == MergeBlocks(dst, src, blocks).value;
      MergeBlocksRows(d1, src, rest);
      MergeBlocksFrame(d1, src, rest);
      forall b | b in blocks ensures BlockRows(r, b) == BlockRows(dst, b) + BlockRows(src, b) {
        if b == b0 {
          assert b0 in d1 ==> b0 in r && r[b0] == d1[b0];
          assert BlockRows(r, b0) == BlockRows(d1, b0);
        } else {
          assert b in rest;
          assert b in d1 <==> b in dst;
          assert BlockRows(d1, b) == BlockRows(dst, b);
        }
      }
    }
  }

  /** The loop adds exactly the blocks the source has and leaves every key
      outside `blocks`, and every block the source lacks, alone. */
  lemma {:induction false} MergeBlocksFrame(dst: Document, src: Document, blocks: seq<string>)
    ensures MergeBlocks(dst, src, blocks).Ok? ==>
      var r := MergeBlocks(dst, src, blocks).value;
      && r.Keys == dst.Keys + (set b | b in blocks && b in src)
      && (forall k :: k in dst && (k !in blocks || k !in src) ==> r[k] == dst[k])
    decreases |blocks|
  {
    if blocks != [] {
      var b0, rest := blocks[0], blocks[1..];
      assert forall b :: b in blocks <==> b == b0 || b in rest by {
        assert blocks == [b0] + rest;
      }
      var first := MergeBlock(dst, src, b0);
      if first.Ok? {
        MergeBlocksFrame(first.value, src, rest);
      }
    }
  }

  /** After a successful loop over distinct blocks, a block of the source
      that the destination lacked holds the source's columns and rows and
      nothing else; a block the destination had is still an object with its
      own columns and other members. */
  lemma {:induction false} MergeBlocksValues(dst: Document, src: Document, blocks: seq<string>, b: string)
    requires Distinct(blocks) && b in blocks && b in src && MergeBlocks(dst, src, blocks).Ok?
    ensures var r := MergeBlocks(dst, src, blocks).value;
      && b in r && src[b].Object?
      && (b !in dst ==> r[b] == Object(Some(src[b].columns.GetOr([])), Some(BlockRows(src, b)), map[]))
      && (b in dst ==> dst[b].Object? && r[b].Object? && r[b].columns == dst[b].columns && r[b].rest == dst[b].rest)
    decreases |blocks|
  {
    var b0, rest := blocks[0], blocks[1..];
    DistinctTail(blocks);
    var d1 := MergeBlock(dst, src, b0).value;
    assert MergeBlocks(dst, src, blocks) == MergeBlocks(d1, src, rest);
    if b == b0 {
      MergeBlocksFrame(d1, src, rest);
    } else {
      MergeBlocksValues(d1, src, rest, b);
    }
  }

  /** `_merge_responses(destination, source)`; an empty destination hands
      back the source itself. */
  function Merge(dst: Document, src: Document): (r: Result<Document>)
    ensures dst == map[] ==> r == Ok(src)
  {
    if dst == map[] then Ok(src)
    else
      var merged :- MergeBlocks(dst, src, KnownBlocks);
      Ok(if "meta" in src && "meta" !in merged then merged["meta" := src["meta"]] else merged)
  }

  /** The merge raises exactly when the destination is non-empty and some
      known block of the source cannot be merged into it. */
  lemma MergeOk(dst: Document, src: Document)
    ensures Merge(dst, src).Ok? <==> dst == map[] || forall b :: b in KnownBlocks ==> BlockMergeable(dst, src, b)
  {
    assert Distinct(KnownBlocks);
    MergeBlocksOk(dst, src, KnownBlocks);
  }

  /** After a merge the rows of each known block are the destination's
      followed by the source's, and `meta` is the destination's when it has
      one, else the source's. */
  lemma MergeRows(dst: Document, src: Document)
    requires Merge(dst, src).Ok?
    ensures forall b :: b in KnownBlocks ==>
      BlockRows(Merge(dst, src).value, b) == BlockRows(dst, b) + BlockRows(src, b)
    ensures MetaOf(Merge(dst, src).value) == if "meta" in dst then MetaOf(dst) else MetaOf(src)
  {
    if dst != map[] {
      assert Distinct(KnownBlocks);
      MergeBlocksRows(dst, src, KnownBlocks);
      MergeBlocksFrame(dst, src, KnownBlocks);
      var merged := MergeBlocks(dst, src, KnownBlocks).value;
      assert "meta" !in KnownBlocks;
      assert "meta" in dst ==> "meta" in merged && merged["meta"] == dst["meta"];
      assert "meta" in merged ==> "meta" in dst;
    }
  }

  /** A merge into a non-empty destination keeps every key of it other than
      the known blocks the source has, and adds only the known blocks and the
      `meta` of the source. */
  lemma MergeFrame(dst: Document, src: Document)
    requires Merge(dst, src).Ok? && dst != map[]
    ensures forall k :: k in dst && (k !in KnownBlocks || k !in src) ==>
      k in Merge(dst, src).value && Merge(dst, src).value[k] == dst[k]
    ensures Merge(dst, src).value.Keys == dst.Keys + (set k | k in src && (k in KnownBlocks || k == "meta"))
  {
    MergeBlocksFrame(dst, src, KnownBlocks);
    var merged := MergeBlocks(dst, src, KnownBlocks).value;
    var result := Merge(dst, src).value;
    assert "meta" !in KnownBlocks;
    assert merged.Keys == dst.Keys + (set b | b in KnownBlocks && b in src);
    if "meta" in src && "meta" !in merged {
      assert result == merged["meta" := src["meta"]];
    } else {
      assert result == merged;
    }
    forall k ensures k in result <==> k in dst || (k in src && (k in KnownBlocks || k == "meta")) {
      assert k in merged <==> k in dst || (k in KnownBlocks && k in src);
    }
  }

  /** A merge into a non-empty destination gives a known block new to it the
      source's columns and rows and nothing else, and keeps a known block it
      already had an object with its own columns and other members. */
  lemma MergeBlockShape(dst: Document, src: Document, b: string)
    requires Merge(dst, src).Ok? && dst != map[] && b in KnownBlocks && b in src
    ensures var r := Merge(dst, src).value;
      && b in r && src[b].Object?
      && (b !in dst ==> r[b] == Object(Some(src[b].columns.GetOr([])), Some(BlockRows(src, b)), map[]))
      && (b in dst ==> dst[b].Object? && r[b].Object? && r[b].columns == dst[b].columns && r[b].rest == dst[b].rest)
  {
    assert Distinct(KnownBlocks);
    MergeBlocksValues(dst, src, KnownBlocks, b);
    MergeBlocksFrame(dst, src, KnownBlocks);
    assert "meta" !in KnownBlocks;
  }

  /** `_merge_responses` as the loop it is, updating its destination block by
      block. */
  method MergeResponses(destination: Document, source: Document) returns (r: Result<Document>)
    ensures r == Merge(destination, source)
  {
    if |destination| == 0 {
      return Ok(source);
    }
    var merged := destination;
    for i := 0 to |KnownBlocks|
      invariant MergeBlocks(merged, source, KnownBlocks[i..]) == MergeBlocks(destination, source, KnownBlocks)
    {
      var block := KnownBlocks[i];
      assert KnownBlocks[i..][1..] == KnownBlocks[i + 1..];
      if block !in source {
        continue;
      }
      var blockData := source[block];
      if blockData.NonObject? {
        return Err(MalformedBlock(block));
      }
      if block !in merged {
        merged := merged[block := Object(Some(blockData.columns.GetOr([])), Some(blockData.rows.GetOr([])), map[])];
      } else {
        var existing := merged[block];
        if existing.NonObject? || existing.rows.None? {
          return Err(MalformedBlock(block));
        }
        merged := merged[block := existing.(rows := Some(existing.rows.value + blockData.rows.GetOr([])))];
      }
    }
    if "meta" in source && "meta" !in merged {
      merged := merged["meta" := source["meta"]];
    }
    return Ok(merged);
  }

  /** `aggregated = _merge_responses(aggregated, response)` over a sequence of
      responses, stopping at the first merge that raises. */
  function FoldMerge(acc: Document, responses: seq<Document>): Result<Document>
    decreases |responses|
  {
    if responses == [] then Ok(acc)
    else
      var merged :- Merge(acc, responses[0]);
      FoldMerge(merged, responses[1..])
  }

  /** The rows of block `b` across `responses`, one response after another. */
  function ConcatRows(responses: seq<Document>, b: string): seq<Row>
  {
    if responses == [] then [] else BlockRows(responses[0], b) + ConcatRows(responses[1..], b)
  }

  /** The sum of the row counts of block `b` across `responses`. */
  function RowCount(responses: seq<Document>, b: string): nat
  {
    if responses == [] then 0 else |BlockRows(responses[0], b)| + RowCount(responses[1..], b)
  }

  /** The first `meta` member among `responses`. */
  function FirstMeta(responses: seq<Document>): Option<Value>
  {
    if responses == [] then None
    else if "meta" in responses[0] then MetaOf(responses[0])
    else FirstMeta(responses[1..])
  }

  /** Folding the merge over the chunk responses concatenates block `b`'s
      rows in chunk order. */
  lemma {:induction false} FoldMergeRows(acc: Document, responses: seq<Document>, b: string)
    requires FoldMerge(acc, responses).Ok? && b in KnownBlocks
    ensures BlockRows(FoldMerge(acc, responses).value, b) == BlockRows(acc, b) + ConcatRows(responses, b)
    decreases |responses|
  {
    if responses != [] {
      var first, rest := responses[0], responses[1..];
      var merged := Merge(acc, first).value;
      assert FoldMerge(acc, responses) == FoldMerge(merged, rest);
      MergeRows(acc, first);
      FoldMergeRows(merged, rest, b);
      var x, y, z := BlockRows(acc, b), BlockRows(first, b), ConcatRows(rest, b);
      assert ConcatRows(responses, b) == y + z;
      AppendAssoc(x, y, z);
    }
  }

  lemma AppendAssoc<T>(x: seq<T>, y: seq<T>, z: seq<T>)
    ensures (x + y) + z == x + (y + z)
  {
  }

  /** Folding the merge over the chunk responses keeps the first `meta` met. */
  lemma {:induction false} FoldMergeMeta(acc: Document, responses: seq<Document>)
    requires FoldMerge(acc, responses).Ok?
    ensures MetaOf(FoldMerge(acc, responses).value) ==
      if "meta" in acc then MetaOf(acc) else FirstMeta(responses)
    decreases |responses|
  {
    if responses != [] {
      var first, rest := responses[0], responses[1..];
      var merged := Merge(acc, first).value;
      assert FoldMerge(acc, responses) == FoldMerge(merged, rest);
      MergeRows(acc, first);
      FoldMergeMeta(merged, rest);
    }
  }

  /** Both together, for every known block. */
  lemma FoldMergeProperties(acc: Document, responses: seq<Document>)
    requires FoldMerge(acc, responses).Ok?
    ensures forall b :: b in KnownBlocks ==>
      BlockRows(FoldMerge(acc, responses).value, b) == BlockRows(acc, b) + ConcatRows(responses, b)
    ensures MetaOf(FoldMerge(acc, responses).value) ==
      if "meta" in acc then MetaOf(acc) else FirstMeta(responses)
  {
    forall b | b in KnownBlocks
      ensures BlockRows(FoldMerge(acc, responses).value, b) == BlockRows(acc, b) + ConcatRows(responses, b)
    {
      FoldMergeRows(acc, responses, b);
    }
    FoldMergeMeta(acc, responses);
  }

  /** The merged row count of a block is the sum of the per-chunk counts. */
  lemma {:induction false} ConcatRowsCount(responses: seq<Document>, b: string)
    ensures |ConcatRows(responses, b)| == RowCount(responses, b)
    decreases |responses|
  {
    if responses != [] {
      ConcatRowsCount(responses[1..], b);
    }
  }
}
