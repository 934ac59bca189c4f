/** The vectors in the index and in the cache belong to the bodies they stand beside, whatever
    chunks, calls and rebuilds fail. */
module NoteVectors {
  import opened Text
  import opened Lines
  import opened NoteFile
  import opened Reviews
  import opened Vectors
  import opened NoteIndex

  // ---------- runs ----------

  datatype Op =
    | Save(project: string, title: string, text: string, saved: string, reason: seq<string>, at: int)
    | Approve(id: string, now: int, ep: Endpoint, halt: Halt)
    | Reject(id: string, fails: bool)
    | Reindex(name: string, ep: Endpoint, fault: Fault)

  function Next(w: World, s: State, op: Op): State
    requires w.chunk > 0
  {
    match op
    case Save(project, title, text, id, reason, now) => SaveSpec(s, project, title, text, id, reason, now).0
    case Approve(id, now, ep, halt) => ApproveSpec(w, s, id, now, ep, halt).0
    case Reject(id, fails) => RejectSpec(s, id, fails).0
    case Reindex(project, ep, fault) => ReindexSpec(w, s, project, ep, fault).0
  }

  function Run(w: World, s: State, ops: seq<Op>): State
    requires w.chunk > 0
  {
    if ops == [] then s else Next(w, Run(w, s, ops[..|ops| - 1]), ops[|ops| - 1])
  }

  // ---------- agreement ----------

  ghost predicate Injective(w: World) { forall a, b :: w.digest(a) == w.digest(b) ==> a == b }

  /** The blob is the vector that the model gives the body. */
  ghost predicate Agrees(w: World, model: string, body: string, blob: seq<Byte>) {
    w.vector(model, body).Some? && blob == Pack(w.vector(model, body).value)
  }

  ghost predicate RowAgrees(w: World, r: Row) { r.blob.Some? ==> Agrees(w, r.model, r.note.body, r.blob.value) }

  ghost predicate RowsAgree(w: World, rows: map<string, Row>) { forall id :: id in rows ==> RowAgrees(w, rows[id]) }

  /** Whatever body has the digest, the cached blob is its vector. */
  ghost predicate CachedAgrees(w: World, model: string, c: Cached) {
    forall body :: w.digest(body) == c.digest ==> Agrees(w, model, body, c.blob)
  }

  ghost predicate CacheAgrees(w: World, cache: map<CacheKey, Cached>) {
    forall k :: k in cache ==> CachedAgrees(w, k.1, cache[k])
  }

  ghost predicate EntryAgrees(w: World, e: Entry) {
    e.digest == w.digest(e.note.body) && (e.vec.Some? ==> w.vector(e.model, e.note.body) == e.vec)
  }

  ghost predicate EntriesAgree(w: World, es: seq<Entry>) { forall i :: 0 <= i < |es| ==> EntryAgrees(w, es[i]) }

  lemma FilledAgrees(w: World, cache: map<CacheKey, Cached>, model: string, e: Entry)
    requires CacheAgrees(w, cache) && EntryAgrees(w, e)
    ensures EntryAgrees(w, Filled(cache, model, e))
  {
    if Hit(cache, model, e).Some? {
      var blob := cache[(Rel(e.note), model)].blob;
      assert Agrees(w, model, e.note.body, blob);
      UnpackPack(w.vector(model, e.note.body).value);
    }
  }

  lemma EmbedsAgree(w: World, cache: map<CacheKey, Cached>, ep: Endpoint, es: seq<Entry>)
    requires w.chunk > 0 && CacheAgrees(w, cache) && EntriesAgree(w, es)
    ensures EntriesAgree(w, Embeds(w, cache, ep, es)) && |Embeds(w, cache, ep, es)| == |es|
    ensures ep.Endpoint? && (forall i :: 0 <= i < |es| ==> es[i].vec == None) ==>
              forall i :: 0 <= i < |es| && Embeds(w, cache, ep, es)[i].vec.Some? ==>
                Embeds(w, cache, ep, es)[i].model == ep.model
  {
    hide Hit, Missing, CacheAgrees, EntryAgrees;
    if ep.Endpoint? {
      var filled := FromCache(cache, ep.model, es);
      var out := Embeds(w, cache, ep, es);
      forall i | 0 <= i < |es| ensures EntryAgrees(w, out[i]) {
        FilledAgrees(w, cache, ep.model, es[i]);
        EmbeddedAgrees(w, ep.model, filled[i]);
      }
      forall i | 0 <= i < |es| && es[i].vec == None && out[i].vec.Some? ensures out[i].model == ep.model {
        assert out[i] == Embedded(w, ep.model, filled[i]) || out[i] == filled[i] == Filled(cache, ep.model, es[i]);
      }
    }
  }

  lemma EmbeddedAgrees(w: World, model: string, e: Entry)
    requires EntryAgrees(w, e)
    ensures EntryAgrees(w, Embedded(w, model, e))
  {
  }

  lemma {:induction false} InsertAgrees(w: World, rows: map<string, Row>, es: seq<Entry>)
    requires RowsAgree(w, rows) && EntriesAgree(w, es)
    ensures RowsAgree(w, Insert(rows, es))
    decreases |es|
  {
    if es != [] {
      InsertAgrees(w, rows, es[..|es| - 1]);
      assert EntryAgrees(w, es[|es| - 1]);
    }
  }

  lemma {:induction false} StoreAgrees(w: World, cache: map<CacheKey, Cached>, model: string, es: seq<Entry>)
    requires Injective(w) && CacheAgrees(w, cache) && EntriesAgree(w, es)
    requires forall i :: 0 <= i < |es| && es[i].vec.Some? ==> es[i].model == model
    ensures CacheAgrees(w, Store(cache, model, es))
    decreases |es|
  {
    if es != [] {
      hide CachedAgrees;
      StoreAgrees(w, cache, model, es[..|es| - 1]);
      var e := es[|es| - 1];
      assert EntryAgrees(w, e);
      if e.vec.Some? { StoredAgrees(w, model, e); }
    }
  }

  lemma StoredAgrees(w: World, model: string, e: Entry)
    requires Injective(w) && EntryAgrees(w, e) && e.vec.Some? && e.model == model
    ensures CachedAgrees(w, model, Cached(e.digest, Pack(e.vec.value)))
  {
    forall body | w.digest(body) == e.digest ensures Agrees(w, model, body, Pack(e.vec.value)) {}
  }

  lemma ReindexAgrees(w: World, s: State, project: string, ep: Endpoint, fault: Fault)
    requires w.chunk > 0 && Injective(w) && RowsAgree(w, s.rows) && CacheAgrees(w, s.cache)
    ensures var t := ReindexSpec(w, s, project, ep, fault).0; RowsAgree(w, t.rows) && CacheAgrees(w, t.cache)
  {
    hide Collect, Embeds, CachedAgrees, Store, Insert, Injective;
    match Collect(s.tree, TrimSpace(project)) {
      case Some(ns) =>
        var es := Embeds(w, s.cache, ep, Fresh(w, ns));
        EmbedsAgree(w, s.cache, ep, Fresh(w, ns));
        InsertAgrees(w, map[], es);
        if ep.Endpoint? {
          assert CacheAgrees(w, DropModel(s.cache, ep.model));
          StoreAgrees(w, DropModel(s.cache, ep.model), ep.model, es);
        }
      case None =>
    }
  }

  lemma ApproveAgrees(w: World, s: State, id: string, now: int, ep: Endpoint, halt: Halt)
    requires RowsAgree(w, s.rows)
    ensures var t := ApproveSpec(w, s, id, now, ep, halt).0; RowsAgree(w, t.rows) && t.cache == s.cache
  {
    hide FindPending, NoteOf, WriteNote, Dropped;
  }

  lemma RejectKeepsIndex(s: State, id: string, fails: bool)
    ensures var t := RejectSpec(s, id, fails).0; t.rows == s.rows && t.cache == s.cache && t.tree == s.tree
  {
    hide FindPending, Dropped;
  }

  lemma SaveKeepsIndex(s: State, project: string, title: string, text: string, id: string, reason: seq<string>,
                       now: int)
    ensures var t := SaveSpec(s, project, title, text, id, reason, now).0;
            t.rows == s.rows && t.cache == s.cache && t.tree == s.tree
  {
    hide TrimSpace, ReviewLine;
  }

  /** After any run of captures, approvals, rejections and rebuilds, with any of them failing at any
      point: every stored vector is the one its model gives its note's current body, and every
      cache row is the vector of the body its digest stands for. */
  lemma {:induction false} VectorsAgree(w: World, s: State, ops: seq<Op>)
    requires w.chunk > 0 && Injective(w) && RowsAgree(w, s.rows) && CacheAgrees(w, s.cache)
    ensures RowsAgree(w, Run(w, s, ops).rows) && CacheAgrees(w, Run(w, s, ops).cache)
    decreases |ops|
  {
    if ops != [] {
      hide Injective, CacheAgrees, RowsAgree, ApproveSpec, RejectSpec, SaveSpec, ReindexSpec;
      var before, op := Run(w, s, ops[..|ops| - 1]), ops[|ops| - 1];
      VectorsAgree(w, s, ops[..|ops| - 1]);
      match op {
        case Reindex(project, ep, fault) => ReindexAgrees(w, before, project, ep, fault);
        case Approve(id, now, ep, halt) => ApproveAgrees(w, before, id, now, ep, halt);
        case Reject(id, fails) => RejectKeepsIndex(before, id, fails);
        case Save(project, title, text, id, reason, now) =>
          SaveKeepsIndex(before, project, title, text, id, reason, now);
      }
    }
  }
}
