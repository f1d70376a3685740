/** The text chunker of `chunkText`: a cursor walks the text, emitting slices
    of `chunkSize` characters (the last one shorter) and stepping back
    `overlap` characters before the next slice. */
module Chunker {
  import opened Text

  const DefaultChunkSize: nat := 1000
  const DefaultOverlap: nat := 200

  /** The chunks emitted once the cursor stands at `start`. */
  function ChunksFrom(text: string, size: nat, overlap: nat, start: nat): (cs: seq<string>)
    requires overlap < size
    ensures |cs| == 0 <==> start >= |text|
    ensures forall k :: 0 <= k < |cs| ==> 0 < |cs[k]| <= size
    ensures forall k :: 0 <= k < |cs| - 1 ==> |cs[k]| == size
    decreases |text| - start
  {
    if start >= |text| then []
    else if start + size >= |text| then [text[start..]]
    else [text[start..start + size]] + ChunksFrom(text, size, overlap, start + size - overlap)
  }

  /** What `chunkText(text, size, overlap)` returns. */
  function Chunks(text: string, size: nat, overlap: nat): seq<string>
    requires overlap < size
  {
    ChunksFrom(text, size, overlap, 0)
  }

  /** The cursor loop of `chunkText`. The source does not guard its arguments;
      with `overlap >= chunkSize` and text longer than `chunkSize` the cursor
      never advances past the first slice's start and the loop does not
      terminate, so the precondition is what makes the loop terminate. */
  method ChunkText(text: string, chunkSize: nat, overlap: nat) returns (chunks: seq<string>)
    requires overlap < chunkSize
    ensures chunks == Chunks(text, chunkSize, overlap)
  {
    chunks := [];
    var start: nat := 0;
    while start < |text|
      invariant chunks + ChunksFrom(text, chunkSize, overlap, start) == Chunks(text, chunkSize, overlap)
      decreases |text| - start
    {
      var end := Min(start + chunkSize, |text|);
      chunks := chunks + [text[start..end]];
      if end == |text| {
        assert start + chunkSize >= |text| && text[start..end] == text[start..];
        assert chunks == Chunks(text, chunkSize, overlap);
        break;
      }
      start := end - overlap;
    }
  }

  /** Where chunk `k` begins: the cursor moves `size - overlap` per chunk. */
  function ChunkStart(size: nat, overlap: nat, start: nat, k: nat): nat
    requires overlap < size
  {
    start + k * (size - overlap)
  }

  /** Chunk `k` is the slice `[start + k*(size-overlap), min(that + size, |text|))`,
      and it is the last chunk exactly when that slice reaches the end of the text. */
  lemma {:induction false} ChunkAt(text: string, size: nat, overlap: nat, start: nat, k: nat)
    requires overlap < size
    requires k < |ChunksFrom(text, size, overlap, start)|
    ensures ChunkStart(size, overlap, start, k) < |text|
    ensures ChunksFrom(text, size, overlap, start)[k]
         == text[ChunkStart(size, overlap, start, k)..Min(ChunkStart(size, overlap, start, k) + size, |text|)]
    ensures k == |ChunksFrom(text, size, overlap, start)| - 1
        <==> ChunkStart(size, overlap, start, k) + size >= |text|
    decreases k
  {
    var step := size - overlap;
    if k > 0 {
      assert start + size < |text|;
      var next := start + size - overlap;
      assert ChunksFrom(text, size, overlap, start)[k] == ChunksFrom(text, size, overlap, next)[k - 1];
      ChunkAt(text, size, overlap, next, k - 1);
      assert ChunkStart(size, overlap, next, k - 1) == ChunkStart(size, overlap, start, k) by {
        calc {
          next + (k - 1) * step;
          start + step + (k - 1) * step;
          start + k * step;
        }
      }
    }
  }

  /** The chunk count in closed form is not needed; these are the boundary facts:
      chunk 0 is a prefix of the text and the last chunk ends the text. */
  lemma ChunkBoundaries(text: string, size: nat, overlap: nat)
    requires overlap < size
    requires |text| > 0
    ensures var cs := Chunks(text, size, overlap);
      |cs| >= 1 && cs[0] <= text && cs[|cs| - 1] == text[|text| - |cs[|cs| - 1]|..]
  {
    var cs := Chunks(text, size, overlap);
    ChunkAt(text, size, overlap, 0, 0);
    ChunkAt(text, size, overlap, 0, |cs| - 1);
  }

  /** Consecutive chunks share exactly `overlap` characters: the last `overlap`
      characters of chunk `k` begin chunk `k + 1`. */
  lemma ChunksOverlap(text: string, size: nat, overlap: nat, k: nat)
    requires overlap < size
    requires k + 1 < |Chunks(text, size, overlap)|
    ensures var cs := Chunks(text, size, overlap);
      |cs[k]| == size && overlap < |cs[k + 1]| && cs[k][size - overlap..] == cs[k + 1][..overlap]
  {
    var cs := Chunks(text, size, overlap);
    ChunkAt(text, size, overlap, 0, k);
    ChunkAt(text, size, overlap, 0, k + 1);
    var s := ChunkStart(size, overlap, 0, k);
    assert ChunkStart(size, overlap, 0, k + 1) == s + (size - overlap);
    assert cs[k] == text[s..s + size];
  }

  /** Rebuilds the text from its chunks by dropping the shared `overlap`
      characters from every chunk but the last. */
  function Reassemble(cs: seq<string>, overlap: nat): string
  {
    if |cs| == 0 then ""
    else if |cs| == 1 then cs[0]
    else cs[0][..if overlap <= |cs[0]| then |cs[0]| - overlap else 0] + Reassemble(cs[1..], overlap)
  }

  /** No gap: the chunks, with the overlaps dropped, give back the text from the cursor on. */
  lemma {:induction false} ReassembleChunksFrom(text: string, size: nat, overlap: nat, start: nat)
    requires overlap < size
    requires start <= |text|
    ensures Reassemble(ChunksFrom(text, size, overlap, start), overlap) == text[start..]
    decreases |text| - start
  {
    if start < |text| && start + size < |text| {
      var next := start + size - overlap;
      ReassembleChunksFrom(text, size, overlap, next);
      var cs := ChunksFrom(text, size, overlap, start);
      assert cs[1..] == ChunksFrom(text, size, overlap, next);
      assert |ChunksFrom(text, size, overlap, next)| >= 1;
      assert cs[0][..size - overlap] == text[start..next];
      assert text[start..next] + text[next..] == text[start..];
    }
  }

  /** Every character of the text is recovered from the chunks. */
  lemma ChunksCoverText(text: string, size: nat, overlap: nat)
    requires overlap < size
    ensures Reassemble(Chunks(text, size, overlap), overlap) == text
  {
    ReassembleChunksFrom(text, size, overlap, 0);
  }

  /** Plain concatenation. */
  function Concat(cs: seq<string>): string
  {
    if |cs| == 0 then "" else cs[0] + Concat(cs[1..])
  }

  lemma {:induction false} ReassembleNoOverlap(cs: seq<string>)
    ensures Reassemble(cs, 0) == Concat(cs)
  {
    if |cs| == 1 {
      assert Concat(cs) == cs[0] + Concat(cs[1..]);
    } else if |cs| > 1 {
      ReassembleNoOverlap(cs[1..]);
      assert cs[0][..|cs[0]|] == cs[0];
    }
  }

  /** With no overlap the chunks simply concatenate back to the text. */
  lemma ConcatChunksNoOverlap(text: string, size: nat)
    requires 0 < size
    ensures Concat(Chunks(text, size, 0)) == text
  {
    ChunksCoverText(text, size, 0);
    ReassembleNoOverlap(Chunks(text, size, 0));
  }

  /** The worked example: ten letters, chunks of 4, overlap 1. */
  lemma ChunkExample()
    ensures Chunks("abcdefghij", 4, 1) == ["abcd", "defg", "ghij"]
  {
    var t := "abcdefghij";
    assert t[0..4] == "abcd" && t[3..7] == "defg" && t[6..] == "ghij";
    assert ChunksFrom(t, 4, 1, 6) == [t[6..]];
    assert ChunksFrom(t, 4, 1, 3) == [t[3..7]] + ChunksFrom(t, 4, 1, 6);
    assert Chunks(t, 4, 1) == [t[0..4]] + ChunksFrom(t, 4, 1, 3);
  }
}
