/** Which vectors a rebuild and an approval store: exactly those that the cache still holds or the endpoint
    delivers (internal/memory/notes.go). */
module NoteBlobs {
  import opened Text
  import opened Lines
  import opened NoteFile
  import opened Reviews
  import opened Vectors
  import opened NoteIndex
  import opened Embedding
  import opened NoteVectors

  // ---------- the vector of one note ----------

  /** The cache holds a vector of the model for the note's path and present body. */
  predicate CachedFor(w: World, cache: map<CacheKey, Cached>, model: string, n: Note) {
    var k := (n.project + "/" + n.file, model);
    k in cache && cache[k].digest == w.digest(n.body) && |cache[k].blob| % 4 == 0
  }

  /** The notes before position `i` that have to be embedded. */
  ghost function Waiting(w: World, cache: map<CacheKey, Cached>, model: string, ns: seq<Note>, i: nat): set<int>
    requires i <= |ns|
  {
    set j | 0 <= j < i && !CachedFor(w, cache, model, ns[j])
  }

  /** The endpoint is up, and so is the chunk in which the note's body is sent. */
  ghost predicate Delivers(w: World, cache: map<CacheKey, Cached>, ep: Endpoint, ns: seq<Note>, i: nat)
    requires ep.Endpoint? && w.chunk > 0 && i < |ns|
  {
    ep.up && ep.chunkUp(|Waiting(w, cache, ep.model, ns, i)| / w.chunk)
  }

  /** The vector of note `i` and the model it is from. */
  ghost function VectorAt(w: World, cache: map<CacheKey, Cached>, ep: Endpoint, ns: seq<Note>, i: nat)
    : (Option<Vec>, string)
    requires w.chunk > 0 && i < |ns|
  {
    if ep.NoEmbedder? then (None, "")
    else if CachedFor(w, cache, ep.model, ns[i]) then
      (DecodedVec(cache[(ns[i].project + "/" + ns[i].file, ep.model)].blob), ep.model)
    else if Delivers(w, cache, ep, ns, i) then (w.vector(ep.model, ns[i].body), ep.model)
    else (None, "")
  }

  /** The vector that is stored as these bytes. */
  ghost function DecodedVec(blob: seq<Byte>): (v: Option<Vec>)
    requires |blob| % 4 == 0
    ensures v.Some? && Pack(v.value) == blob
  {
    PackUnpack(blob);
    Unpack(blob)
  }

  lemma {:induction false} MissingIsBefore(w: World, cache: map<CacheKey, Cached>, model: string, ns: seq<Note>, i: nat)
    requires i <= |ns|
    ensures |Missing(FromCache(cache, model, Fresh(w, ns))[..i])| == |Waiting(w, cache, model, ns, i)|
    decreases i
  {
    hide Missing, CachedFor, Waiting, FromCache;
    var es := FromCache(cache, model, Fresh(w, ns));
    if i == 0 {
      EmptyMissing(es);
      NoneWaiting(w, cache, model, ns);
    } else {
      MissingIsBefore(w, cache, model, ns, i - 1);
      MissingStep(es, i - 1);
      FromCacheAt(w, cache, model, ns, i - 1);
      WaitingStep(w, cache, model, ns, i - 1);
    }
  }

  lemma NoneWaiting(w: World, cache: map<CacheKey, Cached>, model: string, ns: seq<Note>)
    ensures Waiting(w, cache, model, ns, 0) == {}
  {
  }

  lemma WaitingStep(w: World, cache: map<CacheKey, Cached>, model: string, ns: seq<Note>, i: nat)
    requires i < |ns|
    ensures |Waiting(w, cache, model, ns, i + 1)|
         == |Waiting(w, cache, model, ns, i)| + if CachedFor(w, cache, model, ns[i]) then 0 else 1
  {
    hide CachedFor;
    var a, b := Waiting(w, cache, model, ns, i), Waiting(w, cache, model, ns, i + 1);
    if CachedFor(w, cache, model, ns[i]) {
      assert a == b;
    } else {
      assert b == a + {i as int};
    }
  }

  lemma FromCacheAt(w: World, cache: map<CacheKey, Cached>, model: string, ns: seq<Note>, i: nat)
    requires i < |ns|
    ensures var e := FromCache(cache, model, Fresh(w, ns))[i];
            && e.note == ns[i] && e.digest == w.digest(ns[i].body)
            && (e.vec == None <==> !CachedFor(w, cache, model, ns[i]))
            && (CachedFor(w, cache, model, ns[i]) ==>
                  e.vec == DecodedVec(cache[(ns[i].project + "/" + ns[i].file, model)].blob) && e.model == model)
            && (!CachedFor(w, cache, model, ns[i]) ==> e.model == "")
  {
    FilledIs(w, cache, model, ns[i]);
  }

  lemma FilledIs(w: World, cache: map<CacheKey, Cached>, model: string, n: Note)
    ensures var e := Filled(cache, model, Entry(n, w.digest(n.body), None, ""));
            && e.note == n && e.digest == w.digest(n.body)
            && (e.vec, e.model) == if CachedFor(w, cache, model, n)
                                   then (DecodedVec(cache[(n.project + "/" + n.file, model)].blob), model)
                                   else (None, "")
  {
  }

  /** The entries of a rebuild, one by one. */
  lemma EmbedsExact(w: World, cache: map<CacheKey, Cached>, ep: Endpoint, ns: seq<Note>)
    requires w.chunk > 0
    ensures var es := Embeds(w, cache, ep, Fresh(w, ns));
            && |es| == |ns|
            && forall i :: 0 <= i < |ns| ==>
                 es[i].note == ns[i] && es[i].digest == w.digest(ns[i].body)
                 && (es[i].vec, es[i].model) == VectorAt(w, cache, ep, ns, i)
  {
    hide Missing, FromCache, Waiting, CachedFor;
    var es := Embeds(w, cache, ep, Fresh(w, ns));
    if ep.Endpoint? {
      var filled := FromCache(cache, ep.model, Fresh(w, ns));
      forall i | 0 <= i < |ns|
        ensures es[i].note == ns[i] && es[i].digest == w.digest(ns[i].body)
        ensures (es[i].vec, es[i].model) == VectorAt(w, cache, ep, ns, i)
      {
        FromCacheAt(w, cache, ep.model, ns, i);
        MissingIsBefore(w, cache, ep.model, ns, i);
        assert es[i] == if filled[i].vec == None && ep.up && ep.chunkUp(|Missing(filled[..i])| / w.chunk)
                        then Embedded(w, ep.model, filled[i]) else filled[i];
      }
    }
  }

  // ---------- the rows ----------

  /** Note `i` is the last one with the id. */
  predicate LastWith(ns: seq<Note>, id: string, i: int) {
    0 <= i < |ns| && ns[i].id == id && forall j :: i < j < |ns| ==> ns[j].id != id
  }

  lemma {:induction false} InsertLast(es: seq<Entry>, id: string) returns (i: int)
    ensures id in Insert(map[], es) <==> exists j :: 0 <= j < |es| && es[j].note.id == id
    ensures id in Insert(map[], es) ==>
              0 <= i < |es| && es[i].note.id == id && (forall j :: i < j < |es| ==> es[j].note.id != id)
              && Insert(map[], es)[id] == RowOf(es[i])
    decreases |es|
  {
    hide RowOf;
    i := |es| - 1;
    if es != [] && es[i].note.id != id {
      var init := es[..|es| - 1];
      i := InsertLast(init, id);
      forall j | 0 <= j < |init| ensures init[j] == es[j] {}
      if exists j :: 0 <= j < |es| && es[j].note.id == id {
        var j :| 0 <= j < |es| && es[j].note.id == id;
        assert init[j].note.id == id;
      }
    }
  }

  /** The row holds the note, and the bytes of its vector when there is one with any numbers in it. */
  predicate Holds(r: Row, n: Note, vec: Option<Vec>, model: string) {
    && r.note == n && r.model == model
    && if vec.Some? && vec.value != [] then r.blob == Some(Pack(vec.value)) else r.blob == None
  }

  lemma RowHolds(e: Entry)
    ensures Holds(RowOf(e), e.note, e.vec, e.model)
  {
  }

  /** The rows of a rebuild: one for every id, of the last note with it. */
  ghost predicate RowsStored(w: World, cache: map<CacheKey, Cached>, ep: Endpoint, ns: seq<Note>,
                             rows: map<string, Row>)
    requires w.chunk > 0
  {
    && (forall id :: id in rows <==> exists i :: LastWith(ns, id, i))
    && forall id, i :: LastWith(ns, id, i) && id in rows ==>
         var (vec, model) := VectorAt(w, cache, ep, ns, i); Holds(rows[id], ns[i], vec, model)
  }

  lemma InsertStores(w: World, cache: map<CacheKey, Cached>, ep: Endpoint, ns: seq<Note>)
    requires w.chunk > 0
    ensures RowsStored(w, cache, ep, ns, Insert(map[], Embeds(w, cache, ep, Fresh(w, ns))))
  {
    hide Embeds, Insert, VectorAt, Holds, RowOf;
    var es := Embeds(w, cache, ep, Fresh(w, ns));
    var rows := Insert(map[], es);
    EmbedsExact(w, cache, ep, ns);
    forall id | id in rows ensures exists i :: LastWith(ns, id, i) {
      var i := InsertLast(es, id);
      assert forall j :: 0 <= j < |ns| ==> es[j].note == ns[j];
      assert LastWith(ns, id, i);
    }
    forall id, i | LastWith(ns, id, i)
      ensures id in rows && var (vec, model) := VectorAt(w, cache, ep, ns, i); Holds(rows[id], ns[i], vec, model)
    {
      assert forall j :: 0 <= j < |ns| ==> es[j].note == ns[j];
      assert es[i].note.id == id;
      var k := InsertLast(es, id);
      assert k == i;
      RowHolds(es[i]);
    }
  }

  // ---------- the cache ----------

  /** Note `i` is the last one at the path that has a vector. */
  ghost predicate LastEmbedded(w: World, cache: map<CacheKey, Cached>, ep: Endpoint, ns: seq<Note>, path: string,
                               i: int)
    requires w.chunk > 0
  {
    && 0 <= i < |ns| && ns[i].project + "/" + ns[i].file == path && VectorAt(w, cache, ep, ns, i).0.Some?
    && forall j :: i < j < |ns| && ns[j].project + "/" + ns[j].file == path ==> VectorAt(w, cache, ep, ns, j).0.None?
  }

  lemma {:induction false} StoreLast(cache: map<CacheKey, Cached>, model: string, es: seq<Entry>, k: CacheKey)
    returns (i: int)
    ensures var t := Store(cache, model, es);
            && (k.1 != model ==> (k in t <==> k in cache) && (k in t ==> t[k] == cache[k]))
            && (k.1 == model && k !in cache ==>
                  (k in t <==> exists j :: 0 <= j < |es| && Rel(es[j].note) == k.0 && es[j].vec.Some?)
                  && (k in t ==>
                       && 0 <= i < |es| && Rel(es[i].note) == k.0 && es[i].vec.Some?
                       && (forall j :: i < j < |es| && Rel(es[j].note) == k.0 ==> es[j].vec.None?)
                       && t[k] == Cached(es[i].digest, Pack(es[i].vec.value))))
    decreases |es|
  {
    hide Rel;
    i := |es| - 1;
    if es != [] && !(Rel(es[i].note) == k.0 && es[i].vec.Some?) {
      var init := es[..|es| - 1];
      i := StoreLast(cache, model, init, k);
      forall j | 0 <= j < |init| ensures init[j] == es[j] {}
      if exists j :: 0 <= j < |es| && Rel(es[j].note) == k.0 && es[j].vec.Some? {
        var j :| 0 <= j < |es| && Rel(es[j].note) == k.0 && es[j].vec.Some?;
        assert init[j] == es[j];
      }
    } else if es != [] {
      var _ := StoreLast(cache, model, es[..|es| - 1], k);
    }
  }

  /** The cache of a rebuild: other models' entries stay, this model's are the vectors now in use. */
  ghost predicate CacheStored(w: World, was: map<CacheKey, Cached>, ep: Endpoint, ns: seq<Note>,
                              cache: map<CacheKey, Cached>)
    requires w.chunk > 0
  {
    if ep.NoEmbedder? then cache == was
    else
      && (forall k: CacheKey :: k.1 != ep.model ==> (k in cache <==> k in was) && (k in cache ==> cache[k] == was[k]))
      && (forall path :: (path, ep.model) in cache <==> exists i :: LastEmbedded(w, was, ep, ns, path, i))
      && forall path, i :: LastEmbedded(w, was, ep, ns, path, i) && (path, ep.model) in cache ==>
           cache[(path, ep.model)] == Cached(w.digest(ns[i].body), Pack(VectorAt(w, was, ep, ns, i).0.value))
  }

  lemma StoreStores(w: World, was: map<CacheKey, Cached>, ep: Endpoint, ns: seq<Note>)
    requires w.chunk > 0 && ep.Endpoint?
    ensures CacheStored(w, was, ep, ns, Store(DropModel(was, ep.model), ep.model, Embeds(w, was, ep, Fresh(w, ns))))
  {
    hide Embeds, VectorAt, Store;
    var es := Embeds(w, was, ep, Fresh(w, ns));
    var kept := DropModel(was, ep.model);
    var t := Store(kept, ep.model, es);
    EmbedsExact(w, was, ep, ns);
    assert forall j :: 0 <= j < |ns| ==> es[j].note == ns[j] && es[j].vec == VectorAt(w, was, ep, ns, j).0;
    forall k: CacheKey | k.1 != ep.model ensures (k in t <==> k in was) && (k in t ==> t[k] == was[k]) {
      var _ := StoreLast(kept, ep.model, es, k);
    }
    forall path | (path, ep.model) in t ensures exists i :: LastEmbedded(w, was, ep, ns, path, i) {
      var i := StoreLast(kept, ep.model, es, (path, ep.model));
      assert LastEmbedded(w, was, ep, ns, path, i);
    }
    forall path, i | LastEmbedded(w, was, ep, ns, path, i)
      ensures (path, ep.model) in t
      ensures t[(path, ep.model)] == Cached(w.digest(ns[i].body), Pack(VectorAt(w, was, ep, ns, i).0.value))
    {
      var k := StoreLast(kept, ep.model, es, (path, ep.model));
      assert Rel(es[i].note) == path && es[i].vec.Some?;
      assert k == i;
    }
  }

  // ---------- the operations ----------

  /** A completed rebuild stores exactly the vectors that the cache still held or the endpoint delivered,
      in the rows and in the cache, and counts the notes. */
  lemma RebuildStores(w: World, s: State, project: string, ep: Endpoint, fault: Fault)
    requires w.chunk > 0 && ReindexSpec(w, s, project, ep, fault).1.Some?
    ensures var (t, count) := ReindexSpec(w, s, project, ep, fault);
            var ns := Collect(s.tree, TrimSpace(project));
            && ns.Some? && count == Some(|ns.value|)
            && RowsStored(w, s.cache, ep, ns.value, t.rows) && CacheStored(w, s.cache, ep, ns.value, t.cache)
  {
    hide Collect, Embeds, Store, DropModel, Insert, TrimSpace, RowsStored;
    var ns := Collect(s.tree, TrimSpace(project)).value;
    InsertStores(w, s.cache, ep, ns);
    EmbedsExact(w, s.cache, ep, ns);
    if ep.Endpoint? {
      hide CacheStored;
      StoreStores(w, s.cache, ep, ns);
    }
  }

  /** While cache and embedder agree: the vector of a note is the one its model gives its body when the
      cache holds it or the endpoint delivers it, and there is none otherwise. */
  lemma VectorIsModels(w: World, cache: map<CacheKey, Cached>, ep: Endpoint, ns: seq<Note>, i: nat)
    requires w.chunk > 0 && CacheAgrees(w, cache) && ep.Endpoint? && i < |ns|
    ensures VectorAt(w, cache, ep, ns, i)
         == if CachedFor(w, cache, ep.model, ns[i]) || Delivers(w, cache, ep, ns, i)
            then (w.vector(ep.model, ns[i].body), ep.model) else (None, "")
  {
    if CachedFor(w, cache, ep.model, ns[i]) {
      var k := (ns[i].project + "/" + ns[i].file, ep.model);
      assert CachedAgrees(w, ep.model, cache[k]);
      assert Agrees(w, ep.model, ns[i].body, cache[k].blob);
      UnpackPack(w.vector(ep.model, ns[i].body).value);
    }
  }

  /** While cache and embedder agree, a completed rebuild gives a row its model's vector of its body whenever
      that has any numbers in it and was cached or delivered. */
  lemma RebuildEmbeds(w: World, s: State, project: string, ep: Endpoint, fault: Fault, i: nat)
    requires w.chunk > 0 && CacheAgrees(w, s.cache) && ep.Endpoint? && ReindexSpec(w, s, project, ep, fault).1.Some?
    requires Collect(s.tree, TrimSpace(project)).Some?
    requires var ns := Collect(s.tree, TrimSpace(project)).value;
             && i < |ns| && LastWith(ns, ns[i].id, i)
             && (CachedFor(w, s.cache, ep.model, ns[i]) || Delivers(w, s.cache, ep, ns, i))
             && w.vector(ep.model, ns[i].body).Some? && w.vector(ep.model, ns[i].body).value != []
    ensures var t, n := ReindexSpec(w, s, project, ep, fault).0, Collect(s.tree, TrimSpace(project)).value[i];
            && n.id in t.rows && t.rows[n.id].note == n && t.rows[n.id].model == ep.model
            && t.rows[n.id].blob == Some(Pack(w.vector(ep.model, n.body).value))
  {
    hide ReindexSpec, Collect, TrimSpace, CachedFor, CacheAgrees, CacheStored;
    RebuildStores(w, s, project, ep, fault);
    var ns := Collect(s.tree, TrimSpace(project)).value;
    VectorIsModels(w, s.cache, ep, ns, i);
    hide VectorAt, Delivers;
    assert LastWith(ns, ns[i].id, i);
  }

  /** An approval that got as far as the index stores the vector that the endpoint gives the body, when it
      is up and that has any numbers in it. */
  lemma ApproveStores(w: World, ep: Endpoint, n: Note)
    ensures Holds(IndexRow(w, ep, n), n, if ep.Endpoint? && ep.up then w.vector(ep.model, n.body) else None,
                  if ep.Endpoint? && ep.up then ep.model else "")
  {
  }
}
