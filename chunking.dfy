/** The batcher `_chunk` (polybridge/client.py:152-155): consecutive slices of
    at most `size` identifiers, in order. */
module Chunking {
  import opened Types

  /** The elements of a sequence of sequences, one after another. */
  function Concat<T>(ss: seq<seq<T>>): seq<T>
  {
    if ss == [] then [] else ss[0] + Concat(ss[1..])
  }

  /** The slices `s[0..size]`, `s[size..2*size]`, ... of `s`, the last one cut
      short at the end of `s`. */
  function ChunksOf<T>(s: seq<T>, size: nat): (r: seq<seq<T>>)
    requires size > 0
    ensures s == [] <==> r == []
    ensures forall i :: 0 <= i < |r| ==> 0 < |r[i]| <= size
    ensures forall i :: 0 <= i < |r| - 1 ==> |r[i]| == size
    decreases |s|
  {
    if s == [] then []
    else if |s| <= size then [s]
    else [s[..size]] + ChunksOf(s[size..], size)
  }

  /** What `_chunk(sequence, size)` yields, as a whole: `range(0, len, size)`
      rejects a zero step with ValueError, and yields nothing for a negative
      step. */
  function ChunkSpec<T>(s: seq<T>, size: int): (r: Result<seq<seq<T>>>)
    ensures r.Err? <==> size == 0
    ensures size < 0 ==> r == Ok([])
  {
    if size == 0 then Err(ZeroChunkSize)
    else if size < 0 then Ok([])
    else Ok(ChunksOf(s, size))
  }

  /** `_chunk` as the generator loop it is: one slice per index of
      `range(0, len(sequence), size)`. */
  method Chunk<T>(sequence: seq<T>, size: int) returns (r: Result<seq<seq<T>>>)
    ensures r == ChunkSpec(sequence, size)
  {
    if size == 0 {
      return Err(ZeroChunkSize);
    }
    var chunks: seq<seq<T>> := [];
    var index := 0;
    if size > 0 {
      ghost var todo := sequence;
      while index < |sequence|
        invariant 0 <= index
        invariant index < |sequence| ==> todo == sequence[index..]
        invariant index >= |sequence| ==> todo == []
        invariant chunks + ChunksOf(todo, size) == ChunksOf(sequence, size)
        decreases |sequence| - index
      {
        var stop := if index + size < |sequence| then index + size else |sequence|;
        ghost var next := if index + size < |sequence| then sequence[index + size..] else [];
        assert ChunksOf(todo, size) == [sequence[index..stop]] + ChunksOf(next, size) by {
          if |todo| > size {
            assert todo[size..] == next;
            assert todo[..size] == sequence[index..stop];
          } else {
            assert todo == sequence[index..stop];
          }
        }
        assert chunks + ([sequence[index..stop]] + ChunksOf(next, size))
            == (chunks + [sequence[index..stop]]) + ChunksOf(next, size);
        chunks := chunks + [sequence[index..stop]];
        index := index + size;
        todo := next;
      }
      assert chunks + ChunksOf(todo, size) == chunks;
    }
    return Ok(chunks);
  }

  /** Concatenating the chunks in order gives back the sequence. */
  lemma {:induction false} ChunksConcat<T>(s: seq<T>, size: nat)
    requires size > 0
    ensures Concat(ChunksOf(s, size)) == s
    decreases |s|
  {
    if s == [] {
    } else if |s| <= size {
      assert Concat([s]) == s + Concat([]);
    } else {
      var r := ChunksOf(s, size);
      ChunksConcat(s[size..], size);
      assert r[1..] == ChunksOf(s[size..], size);
      assert s[..size] + s[size..] == s;
    }
  }

  lemma MulSucc(k: int, size: int)
    ensures (k + 1) * size == k * size + size
  {
  }

  /** There are ceil(|s| / size) chunks: the least k with |s| <= k * size. */
  lemma {:induction false} ChunkCount<T>(s: seq<T>, size: nat)
    requires size > 0
    ensures |ChunksOf(s, size)| * size >= |s|
    ensures |ChunksOf(s, size)| > 0 ==> (|ChunksOf(s, size)| - 1) * size < |s|
    decreases |s|
  {
    if |s| > size {
      var rest := s[size..];
      ChunkCount(rest, size);
      var k := |ChunksOf(rest, size)|;
      assert k > 0;
      assert |ChunksOf(s, size)| == k + 1;
      MulSucc(k, size);
      MulSucc(k - 1, size);
    } else if s != [] {
      assert |ChunksOf(s, size)| == 1;
    }
  }

  /** Five ids in chunks of two: two full chunks and a last one of one. */
  lemma ChunkExample()
    ensures ChunkSpec(["a", "b", "c", "d", "e"], 2) == Ok([["a", "b"], ["c", "d"], ["e"]])
  {
    var s := ["a", "b", "c", "d", "e"];
    assert s[..2] == ["a", "b"] && s[2..] == ["c", "d", "e"];
    assert s[2..][..2] == ["c", "d"] && s[2..][2..] == ["e"];
    assert ChunksOf(s[2..][2..], 2) == [["e"]];
    assert ChunksOf(s[2..], 2) == [["c", "d"], ["e"]];
    assert ChunksOf(s, 2) == [["a", "b"], ["c", "d"], ["e"]];
  }
}
