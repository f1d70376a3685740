/** The upload route: the file's text is chunked (1000 characters, overlap
    200); each chunk is embedded and then offered to three insertion
    strategies in order (the insert RPC, a direct insert with the vector
    literal, a text fallback), stopping at the first that the store accepts.
    A chunk that no strategy stores is skipped; an embedding failure is not
    caught inside the loop and ends the whole upload with status 500, after
    the earlier chunks were already stored. */
module Upload {
  import opened Records
  import Chunker

  datatype File = File(name: string, text: string)

  datatype Strategy = RpcInsert | DirectInsert | TextFallback

  /** The insertion order of the strategies. */
  function Rank(s: Strategy): nat
  {
    match s
    case RpcInsert => 0
    case DirectInsert => 1
    case TextFallback => 2
  }

  /** What every strategy sends for chunk `chunkIndex`; the strategies differ
      only in how the embedding is written (array, `[..]` literal, JSON text). */
  datatype InsertRequest = InsertRequest(filename: string, content: string, chunkIndex: nat, embedding: Embedding)

  /** A row the store accepted, and the strategy that stored it. */
  datatype Stored = Stored(strategy: Strategy, request: InsertRequest)

  /** The embedding service (`None` when it throws) and the store's answer to
      one insertion attempt (`false` for a non-ok status or an exception). */
  datatype Backend = Backend(
    embed: string -> Option<Embedding>,
    insert: (Strategy, InsertRequest) -> bool)

  datatype UploadResponse =
    | FileRequired                      // 400
    | UploadFailed                      // 500
    | Uploaded(chunksProcessed: nat, totalChunks: nat, successRate: Option<nat>)

  /** The strategy that stores a request: the first, in rank order, that the store accepts. */
  function StoreChunk(b: Backend, req: InsertRequest): (s: Option<Strategy>)
    ensures s.Some? ==> b.insert(s.value, req)
    ensures s.Some? ==> forall t :: Rank(t) < Rank(s.value) ==> !b.insert(t, req)
    ensures s.None? <==> !b.insert(RpcInsert, req) && !b.insert(DirectInsert, req) && !b.insert(TextFallback, req)
  {
    if b.insert(RpcInsert, req) then Some(RpcInsert)
    else if b.insert(DirectInsert, req) then Some(DirectInsert)
    else if b.insert(TextFallback, req) then Some(TextFallback)
    else None
  }

  /** The state of the loop after the first `k` chunks: the rows stored so
      far, and whether an embedding failure has ended the upload. */
  datatype Run = Run(stored: seq<Stored>, aborted: bool)

  function Ingest(b: Backend, name: string, chunks: seq<string>, k: nat): Run
    requires k <= |chunks|
  {
    if k == 0 then Run([], false)
    else
      var prev := Ingest(b, name, chunks, k - 1);
      if prev.aborted then prev
      else match b.embed(chunks[k - 1])
        case None => Run(prev.stored, true)
        case Some(e) =>
          var req := InsertRequest(name, chunks[k - 1], k - 1, e);
          match StoreChunk(b, req)
          case None => prev
          case Some(s) => Run(prev.stored + [Stored(s, req)], false)
  }

  /** `Math.round(processed / total * 100)`, in exact arithmetic; there is no
      rate (the source prints `NaN%`) when there are no chunks. */
  function SuccessRate(processed: nat, total: nat): (r: Option<nat>)
    ensures r.None? <==> total == 0
    ensures r.Some? ==> 2 * r.value * total <= 200 * processed + total < 2 * (r.value + 1) * total
  {
    if total == 0 then None else Some((200 * processed + total) / (2 * total))
  }

  /** The response of the route, as a function of the request and the backend. */
  function UploadSpec(file: Option<File>, b: Backend): (UploadResponse, seq<Stored>)
  {
    match file
    case None => (FileRequired, [])
    case Some(f) =>
      var chunks := Chunker.Chunks(f.text, Chunker.DefaultChunkSize, Chunker.DefaultOverlap);
      var run := Ingest(b, f.name, chunks, |chunks|);
      if run.aborted then (UploadFailed, run.stored)
      else (Uploaded(|run.stored|, |chunks|, SuccessRate(|run.stored|, |chunks|)), run.stored)
  }

  /** The route as the source runs it. `stored` is the route's `results`:
      the rows it recorded as stored, also when the upload ends in an error. */
  method Upload(file: Option<File>, b: Backend) returns (response: UploadResponse, stored: seq<Stored>)
    ensures (response, stored) == UploadSpec(file, b)
  {
    if file.None? {
      return FileRequired, [];
    }
    var f := file.value;
    var chunks := Chunker.ChunkText(f.text, Chunker.DefaultChunkSize, Chunker.DefaultOverlap);
    stored := [];
    for i := 0 to |chunks|
      invariant Ingest(b, f.name, chunks, i) == Run(stored, false)
    {
      var embedding := b.embed(chunks[i]);
      if embedding.None? {
        AbortIsFinal(b, f.name, chunks, i + 1, |chunks|);
        return UploadFailed, stored;
      }
      var req := InsertRequest(f.name, chunks[i], i, embedding.value);
      if b.insert(RpcInsert, req) {
        stored := stored + [Stored(RpcInsert, req)];
        continue;
      }
      if b.insert(DirectInsert, req) {
        stored := stored + [Stored(DirectInsert, req)];
        continue;
      }
      if b.insert(TextFallback, req) {
        stored := stored + [Stored(TextFallback, req)];
      }
    }
    response := Uploaded(|stored|, |chunks|, SuccessRate(|stored|, |chunks|));
  }

  // ---------------------------------------------------------------------------
  // Properties of the ingest loop

  /** Once an embedding has failed, later chunks change nothing. */
  lemma {:induction false} AbortIsFinal(b: Backend, name: string, chunks: seq<string>, k: nat, m: nat)
    requires k <= m <= |chunks|
    requires Ingest(b, name, chunks, k).aborted
    ensures Ingest(b, name, chunks, m) == Ingest(b, name, chunks, k)
    decreases m
  {
    if m > k {
      AbortIsFinal(b, name, chunks, k, m - 1);
    }
  }

  /** Rows are stored in chunker order, at most one per chunk: row `j` carries
      the file's name, the content of chunk `chunkIndex` and that index, the
      indices strictly increase, and the strategy named is the first the store
      accepted for that request. */
  lemma {:induction false} StoredInChunkOrder(b: Backend, name: string, chunks: seq<string>, k: nat)
    requires k <= |chunks|
    ensures var st := Ingest(b, name, chunks, k).stored;
      && |st| <= k
      && (forall j :: 0 <= j < |st| ==>
            && st[j].request.chunkIndex < k
            && st[j].request.filename == name
            && st[j].request.content == chunks[st[j].request.chunkIndex]
            && StoreChunk(b, st[j].request) == Some(st[j].strategy))
      && (forall i, j :: 0 <= i < j < |st| ==> st[i].request.chunkIndex < st[j].request.chunkIndex)
    decreases k
  {
    if k > 0 {
      StoredInChunkOrder(b, name, chunks, k - 1);
    }
  }

  /** The upload ends in an error exactly when some chunk's embedding failed. */
  lemma {:induction false} AbortedIffEmbeddingFailed(b: Backend, name: string, chunks: seq<string>, k: nat)
    requires k <= |chunks|
    ensures Ingest(b, name, chunks, k).aborted <==> exists j :: 0 <= j < k && b.embed(chunks[j]).None?
    decreases k
  {
    if k > 0 {
      AbortedIffEmbeddingFailed(b, name, chunks, k - 1);
    }
  }

  /** Whether chunk `j` gets stored when it is reached: its embedding succeeds
      and some strategy accepts it. */
  predicate Storable(b: Backend, name: string, chunks: seq<string>, j: nat)
    requires j < |chunks|
  {
    b.embed(chunks[j]).Some?
    && StoreChunk(b, InsertRequest(name, chunks[j], j, b.embed(chunks[j]).value)).Some?
  }

  /** A storage failure on one chunk does not stop the others: without an
      embedding failure, a chunk is stored exactly when some strategy accepted it. */
  lemma {:induction false} OnlyRejectedChunksSkipped(b: Backend, name: string, chunks: seq<string>, k: nat)
    requires k <= |chunks|
    requires !Ingest(b, name, chunks, k).aborted
    ensures var st := Ingest(b, name, chunks, k).stored;
      forall j :: 0 <= j < k ==>
        (Storable(b, name, chunks, j) <==> exists t :: 0 <= t < |st| && st[t].request.chunkIndex == j)
    decreases k
  {
    if k > 0 {
      var prev := Ingest(b, name, chunks, k - 1);
      assert !prev.aborted;
      OnlyRejectedChunksSkipped(b, name, chunks, k - 1);
      StoredInChunkOrder(b, name, chunks, k - 1);
      var st := Ingest(b, name, chunks, k).stored;
      forall j | 0 <= j < k
        ensures Storable(b, name, chunks, j) <==> exists t :: 0 <= t < |st| && st[t].request.chunkIndex == j
      {
        if j < k - 1 {
          if Storable(b, name, chunks, j) {
            var t :| 0 <= t < |prev.stored| && prev.stored[t].request.chunkIndex == j;
            assert st[t] == prev.stored[t];
          }
        } else if Storable(b, name, chunks, j) {
          assert st[|st| - 1].request.chunkIndex == j;
        }
      }
    }
  }

  /** Rounding never pushes the rate past 100 while processed <= total. */
  lemma SuccessRateBounded(processed: nat, total: nat)
    requires processed <= total && total > 0
    ensures SuccessRate(processed, total).value <= 100
    ensures processed == total ==> SuccessRate(processed, total).value == 100
    ensures processed == 0 ==> SuccessRate(processed, total).value == 0
  {
    var r := SuccessRate(processed, total).value;
    if r > 100 {
      MulLe(202, 2 * r, total);
    }
    if processed == total && r < 100 {
      MulLe(2 * (r + 1), 200, total);
    }
    if processed == 0 && r > 0 {
      MulLe(2, 2 * r, total);
    }
  }

  lemma MulLe(a: int, b: int, c: nat)
    requires a <= b
    ensures a * c <= b * c
  {
  }

  /** The summary: processed is the number of stored rows, at most the number
      of chunks, and the rate lies between 0 and 100. */
  lemma UploadSummary(f: File, b: Backend)
    ensures var out := UploadSpec(Some(f), b);
      out.0.Uploaded? ==>
        && out.0.chunksProcessed == |out.1| <= out.0.totalChunks
        && out.0.totalChunks == |Chunker.Chunks(f.text, Chunker.DefaultChunkSize, Chunker.DefaultOverlap)|
        && (out.0.totalChunks > 0 ==> out.0.successRate.Some? && out.0.successRate.value <= 100)
        && (out.0.totalChunks == 0 ==> out.0.successRate.None?)
  {
    var chunks := Chunker.Chunks(f.text, Chunker.DefaultChunkSize, Chunker.DefaultOverlap);
    StoredInChunkOrder(b, f.name, chunks, |chunks|);
    var p := |Ingest(b, f.name, chunks, |chunks|).stored|;
    if |chunks| > 0 {
      SuccessRateBounded(p, |chunks|);
    }
  }

  /** A request without a file is answered 400 and stores nothing. */
  lemma MissingFileStoresNothing(b: Backend)
    ensures UploadSpec(None, b) == (FileRequired, [])
  {
  }
}
