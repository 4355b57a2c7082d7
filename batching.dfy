/**
 * The batch fetcher: ids are cut into consecutive chunks of at most CHUNK_SIZE,
 * each chunk is fetched, and the per-chunk results are concatenated in chunk order.
 */
module Batching {
  import opened Records

  /** The slice width of the chunking comprehension. */
  const CHUNK_SIZE: nat := 10

  function Min(a: int, b: int): int
  {
    if a < b then a else b
  }

  /** The number of start offsets 0, 10, 20, ... below n. */
  function ChunkCount(n: nat): nat
  {
    (n + CHUNK_SIZE - 1) / CHUNK_SIZE
  }

  /** The slices of s taken at offsets 0, 10, 20, ...: chunk j starts at 10 * j and holds at most 10 elements. */
  function Chunks<T>(s: seq<T>): seq<seq<T>>
  {
    seq(ChunkCount(|s|), j requires 0 <= j < ChunkCount(|s|) =>
      s[j * CHUNK_SIZE .. Min(j * CHUNK_SIZE + CHUNK_SIZE, |s|)])
  }

  /** The elements of every inner sequence, inner sequences in order. */
  function Flatten<T>(ss: seq<seq<T>>): seq<T>
  {
    if ss == [] then [] else ss[0] + Flatten(ss[1..])
  }

  /** Every chunk holds between 1 and 10 ids, and every chunk but the last holds exactly 10. */
  lemma ChunkShape<T>(s: seq<T>)
    ensures |Chunks(s)| == 0 <==> |s| == 0
    ensures forall j :: 0 <= j < |Chunks(s)| ==>
      && 1 <= |Chunks(s)[j]| <= CHUNK_SIZE
      && (j < |Chunks(s)| - 1 ==> |Chunks(s)[j]| == CHUNK_SIZE)
  {
  }

  /** Chunking two sequences of the same length cuts them at the same places. */
  lemma ChunksAligned<T, U>(s: seq<T>, t: seq<U>)
    requires |s| == |t|
    ensures |Chunks(s)| == |Chunks(t)|
    ensures forall j :: 0 <= j < |Chunks(s)| ==> |Chunks(s)[j]| == |Chunks(t)[j]|
  {
  }

  /** The chunks of a nonempty s are its first chunk followed by the chunks of the rest. */
  lemma ChunksUnfold<T>(s: seq<T>)
    requires |s| > 0
    ensures Chunks(s) == [s[..Min(CHUNK_SIZE, |s|)]] + Chunks(s[Min(CHUNK_SIZE, |s|)..])
  {
    var m := Min(CHUNK_SIZE, |s|);
    var rest := s[m..];
    var lhs, rhs := Chunks(s), [s[..m]] + Chunks(rest);
    assert ChunkCount(|s|) == ChunkCount(|rest|) + 1;
    forall j | 0 <= j < |lhs| ensures lhs[j] == rhs[j] {
      if j > 0 {
        var lo := (j - 1) * CHUNK_SIZE;
        var hi := Min(lo + CHUNK_SIZE, |rest|);
        assert rhs[j] == rest[lo..hi];
        assert rest[lo..hi] == s[m + lo .. m + hi];
      }
    }
  }

  /** Concatenating the chunks gives back the original sequence. */
  lemma {:induction false} FlattenChunks<T>(s: seq<T>)
    ensures Flatten(Chunks(s)) == s
    decreases |s|
  {
    if |s| > 0 {
      var m := Min(CHUNK_SIZE, |s|);
      ChunksUnfold(s);
      FlattenChunks(s[m..]);
      var cs := Chunks(s);
      assert cs[0] == s[..m] && cs[1..] == Chunks(s[m..]);
      assert s == s[..m] + s[m..];
    }
  }

  /** Flattening per-chunk fetches is fetching the flattened chunks. */
  lemma {:induction false} FlattenFetched(cs: seq<seq<int>>, ss: seq<seq<Timestamp>>, results: seq<seq<Record>>)
    requires |cs| == |ss| == |results|
    requires forall j :: 0 <= j < |cs| ==> |cs[j]| == |ss[j]| && results[j] == Fetched(cs[j], ss[j])
    ensures |Flatten(cs)| == |Flatten(ss)|
    ensures Flatten(results) == Fetched(Flatten(cs), Flatten(ss))
    decreases |cs|
  {
    if |cs| > 0 {
      FlattenFetched(cs[1..], ss[1..], results[1..]);
      FetchedAppend(cs[0], ss[0], Flatten(cs[1..]), Flatten(ss[1..]));
    }
  }

  /**
   * parallel_fetch_and_process, with the worker pool's map run sequentially:
   * executor.map yields the chunk results in submission order, so the flattened
   * result is the sequential fetch of all ids, in input order.
   */
  method ParallelFetchAndProcess(ids: seq<int>, clock: seq<Timestamp>) returns (processed: seq<Record>)
    requires |clock| == |ids|
    ensures |processed| == |ids|
    ensures processed == Fetched(ids, clock)
  {
    var chunks := Chunks(ids);
    var readings := Chunks(clock);
    ChunksAligned(ids, clock);
    var results: seq<seq<Record>> := [];
    for j := 0 to |chunks|
      invariant |results| == j
      invariant forall k :: 0 <= k < j ==> results[k] == Fetched(chunks[k], readings[k])
    {
      var part := FetchAmazonData(chunks[j], readings[j]);
      results := results + [part];
    }
    processed := Flatten(results);
    FlattenFetched(chunks, readings, results);
    FlattenChunks(ids);
    FlattenChunks(clock);
  }
}
