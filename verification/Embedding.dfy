/** Filling the vectors of the entries being indexed, in place and in chunks
    (internal/memory/notes.go). */
module Embedding {
  import opened Text
  import opened NoteFile
  import opened Vectors
  import opened NoteIndex

  /** The `p`-th missing position has `p` missing positions before it. */
  lemma {:induction false} RankOfMissing(es: seq<Entry>, p: nat)
    requires p < |Missing(es)|
    ensures |Missing(es[..Missing(es)[p]])| == p
    decreases |es|
  {
    var last := |es| - 1;
    var before := Missing(es[..last]);
    if p < |before| {
      RankOfMissing(es[..last], p);
      assert es[..last][..before[p]] == es[..before[p]];
    }
  }

  lemma EmptyMissing(es: seq<Entry>)
    ensures Missing(es[..0]) == []
  {
  }

  lemma MissingStep(es: seq<Entry>, i: nat)
    requires i < |es|
    ensures Missing(es[..i + 1]) == if es[i].vec == None then Missing(es[..i]) + [i] else Missing(es[..i])
  {
    assert es[..i + 1][..i] == es[..i];
  }

  /** A missing position comes before the end in its rank too. */
  lemma RankBelow(es: seq<Entry>, i: nat)
    requires i < |es| && es[i].vec == None
    ensures |Missing(es[..i])| < |Missing(es)| && Missing(es)[|Missing(es[..i])|] == i
  {
    var p :| 0 <= p < |Missing(es)| && Missing(es)[p] == i;
    RankOfMissing(es, p);
  }

  /** Every position of a chunk belongs to that chunk. */
  lemma InChunk(c: nat, size: nat, p: nat)
    requires size > 0 && c * size <= p < c * size + size
    ensures p / size == c
  {
    var q := p / size;
    DivBounds(p, size);
    if q < c { ChunkBefore(q, c, size); }
    if c < q { ChunkBefore(c, q, size); }
  }

  lemma DivBounds(p: nat, size: nat)
    requires size > 0
    ensures p / size * size <= p < p / size * size + size
  {
  }

  lemma ChunkBefore(a: nat, b: nat, size: nat)
    requires a < b
    ensures a * size + size <= b * size
  {
    var rest := b - a - 1;
    Distribute(a + 1, rest, size);
    Distribute(a, 1, size);
    assert b == (a + 1) + rest;
  }

  lemma Distribute(x: nat, y: nat, size: nat)
    ensures (x + y) * size == x * size + y * size && y * size >= 0
  {
  }

  /** What is stored at position `i` when the missing positions below `start` are done, and `j`
      more of the chunk that starts there. */
  function During(w: World, ep: Endpoint, es: seq<Entry>, start: nat, j: nat, i: nat): Entry
    requires ep.Endpoint? && w.chunk > 0 && i < |es|
  {
    var rank := |Missing(es[..i])|;
    if es[i].vec == None && ((rank < start && ep.chunkUp(rank / w.chunk)) || start <= rank < start + j)
    then Embedded(w, ep.model, es[i]) else es[i]
  }

  lemma NothingDone(w: World, ep: Endpoint, es: seq<Entry>)
    requires ep.Endpoint? && w.chunk > 0
    ensures forall i :: 0 <= i < |es| ==> During(w, ep, es, 0, 0, i) == es[i]
  {
    hide Missing;
  }

  lemma NextChunk(c: nat, size: nat)
    ensures (c + 1) * size == c * size + size
  {
  }

  lemma ChunkDone(w: World, ep: Endpoint, es: seq<Entry>, c: nat, j: nat, i: nat)
    requires ep.Endpoint? && w.chunk > 0 && i < |es|
    requires j == if !ep.chunkUp(c) then 0
                  else if |Missing(es)| < c * w.chunk + w.chunk then |Missing(es)| - c * w.chunk else w.chunk
    ensures During(w, ep, es, c * w.chunk, j, i) == During(w, ep, es, c * w.chunk + w.chunk, 0, i)
  {
    hide Missing;
    if es[i].vec == None {
      RankBelow(es, i);
      var rank := |Missing(es[..i])|;
      if c * w.chunk <= rank < c * w.chunk + w.chunk { InChunk(c, w.chunk, rank); }
    }
  }

  lemma AllDone(w: World, ep: Endpoint, es: seq<Entry>, start: nat, i: nat)
    requires ep.Endpoint? && w.chunk > 0 && i < |es| && ep.up && start >= |Missing(es)|
    ensures During(w, ep, es, start, 0, i) == Asked(w, ep, es)[i]
  {
    hide Missing;
    if es[i].vec == None { RankBelow(es, i); }
  }

  /** One chunk whose call succeeded. */
  method FillChunk(w: World, ep: Endpoint, entries: array<Entry>, ghost es: seq<Entry>, bodies: seq<string>,
                   idx: seq<nat>, start: nat, end: nat)
    requires ep.Endpoint? && w.chunk > 0 && entries.Length == |es| && idx == Missing(es) && |bodies| == |idx|
    requires forall p :: 0 <= p < |idx| ==> bodies[p] == es[idx[p]].note.body
    requires start <= end <= |idx|
    requires forall i :: 0 <= i < |es| ==> entries[i] == During(w, ep, es, start, 0, i)
    modifies entries
    ensures forall i :: 0 <= i < |es| ==> entries[i] == During(w, ep, es, start, end - start, i)
  {
    hide Missing;
    for j := 0 to end - start
      invariant forall i :: 0 <= i < |es| ==> entries[i] == During(w, ep, es, start, j, i)
    {
      var k := idx[start + j];
      RankOfMissing(es, start + j);
      forall i | 0 <= i < |es| && es[i].vec == None && |Missing(es[..i])| == start + j ensures i == k {
        RankBelow(es, i);
      }
      entries[k] := entries[k].(vec := w.vector(ep.model, bodies[start + j]), model := ep.model);
    }
  }

  /** The loop over the chunks of `reindexEmbed`. */
  method EmbedChunks(w: World, ep: Endpoint, entries: array<Entry>, ghost es: seq<Entry>, bodies: seq<string>,
                     idx: seq<nat>)
    returns (calls: nat)
    requires ep.Endpoint? && ep.up && w.chunk > 0 && entries[..] == es && idx == Missing(es) && |bodies| == |idx|
    requires forall p :: 0 <= p < |idx| ==> bodies[p] == es[idx[p]].note.body
    modifies entries
    ensures entries[..] == Asked(w, ep, es)
    ensures calls == (|idx| + w.chunk - 1) / w.chunk
  {
    hide Missing, During, Asked;
    NothingDone(w, ep, es);
    var start := 0;
    calls := 0;

    while start < |bodies|
      invariant start == calls * w.chunk && entries.Length == |es|
      invariant calls > 0 ==> start - w.chunk < |bodies|
      invariant forall i :: 0 <= i < |es| ==> entries[i] == During(w, ep, es, start, 0, i)
      decreases |bodies| - start
    {
      var end := if start + w.chunk > |bodies| then |bodies| else start + w.chunk;
      ghost var done := 0;
      if ep.chunkUp(calls) {
        FillChunk(w, ep, entries, es, bodies, idx, start, end);
        done := end - start;
      }
      forall i | 0 <= i < |es| ensures entries[i] == During(w, ep, es, start + w.chunk, 0, i) {
        ChunkDone(w, ep, es, calls, done, i);
      }
      NextChunk(calls, w.chunk);
      calls := calls + 1;
      start := start + w.chunk;
    }
    forall i | 0 <= i < |es| ensures entries[i] == Asked(w, ep, es)[i] { AllDone(w, ep, es, start, i); }
    ChunkCount(calls, w.chunk, |idx|);
  }

  lemma ChunkCount(c: nat, size: nat, n: nat)
    requires size > 0 && c * size >= n && (c > 0 ==> c * size - size < n) && (c == 0 ==> n == 0)
    ensures c == (n + size - 1) / size
  {
    if c == 0 {
      assert (size - 1) / size == 0;
    } else {
      InChunk(c, size, n + size - 1);
    }
  }

  lemma NoneMissing(w: World, ep: Endpoint, es: seq<Entry>)
    requires ep.Endpoint? && w.chunk > 0 && |Missing(es)| == 0
    ensures Asked(w, ep, es) == es
  {
    hide Missing;
    assert forall i :: 0 <= i < |es| ==> es[i].vec != None;
  }

  /** The first pass of `reindexEmbed`: vectors of unchanged bodies come from the cache. */
  method FillFromCache(cache: map<CacheKey, Cached>, model: string, entries: array<Entry>) returns (needs: nat)
    requires forall i :: 0 <= i < entries.Length ==> entries[i].vec == None
    modifies entries
    ensures entries[..] == FromCache(cache, model, old(entries[..]))
    ensures needs == |Missing(entries[..])|
  {
    hide Hit, Missing;
    ghost var before := entries[..];
    ghost var es := FromCache(cache, model, before);
    EmptyMissing(es);
    needs := 0;
    for i := 0 to entries.Length
      invariant forall k :: 0 <= k < i ==> entries[k] == es[k]
      invariant forall k :: i <= k < entries.Length ==> entries[k] == before[k]
      invariant needs == |Missing(es[..i])|
    {
      MissingStep(es, i);
      var hit := Hit(cache, model, entries[i]);
      if hit.Some? {
        entries[i] := entries[i].(vec := hit, model := model);
      } else {
        needs := needs + 1;
      }
    }
    assert entries[..] == es && es[..|es|] == es;
  }

  /** No call when nothing is missing, one when the endpoint is down, and otherwise one more than the least
      number of chunks that hold what is missing. */
  lemma CallsAre(w: World, ep: Endpoint, missing: nat)
    requires ep.Endpoint? && w.chunk > 0
    ensures missing == 0 ==> Calls(w, ep, missing) == 0
    ensures missing > 0 && !ep.up ==> Calls(w, ep, missing) == 1
    ensures missing > 0 && ep.up ==>
              var chunks := Calls(w, ep, missing) - 1;
              chunks > 0 && (chunks - 1) * w.chunk < missing <= chunks * w.chunk
  {
    if missing > 0 && ep.up {
      var size := w.chunk;
      var chunks := (missing + size - 1) / size;
      DivBounds(missing + size - 1, size);
      if chunks > 0 { NextChunk(chunks - 1, size); }
    }
  }

  /** The bodies to embed and where their vectors go. */
  method Gather(entries: array<Entry>) returns (bodies: seq<string>, idx: seq<nat>)
    ensures idx == Missing(entries[..]) && |bodies| == |idx|
    ensures forall p :: 0 <= p < |idx| ==> bodies[p] == entries[idx[p]].note.body
  {
    hide Missing;
    ghost var es := entries[..];
    EmptyMissing(es);
    bodies, idx := [], [];
    for i := 0 to entries.Length
      invariant idx == Missing(es[..i]) && |bodies| == |idx|
      invariant forall p :: 0 <= p < |idx| ==> idx[p] < |es| && bodies[p] == es[idx[p]].note.body
    {
      MissingStep(es, i);
      if entries[i].vec == None {
        bodies, idx := bodies + [entries[i].note.body], idx + [i];
      }
    }
    assert es[..|es|] == es;
  }

  /** `reindexEmbed` */
  method ReindexEmbed(w: World, cache: map<CacheKey, Cached>, ep: Endpoint, entries: array<Entry>) returns (calls: nat)
    requires ep.Endpoint? && w.chunk > 0
    requires forall i :: 0 <= i < entries.Length ==> entries[i].vec == None
    modifies entries
    ensures entries[..] == Asked(w, ep, FromCache(cache, ep.model, old(entries[..])))
    ensures calls == Calls(w, ep, |Missing(FromCache(cache, ep.model, old(entries[..])))|)
  {
    hide Missing, FromCache;
    var needs := FillFromCache(cache, ep.model, entries);
    ghost var es := entries[..];
    if needs == 0 {
      NoneMissing(w, ep, es);
      return 0;
    }
    var bodies, idx := Gather(entries);
    if !ep.up {
      assert Asked(w, ep, es) == es;
      return 1;
    }
    calls := EmbedChunks(w, ep, entries, es, bodies, idx);
    calls := calls + 1;
  }
}
