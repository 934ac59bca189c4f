/** The notes store as an object: capture, approve, reject, rebuild (internal/memory/notes.go). */
module NoteStore {
  import opened Text
  import opened Fields
  import opened Lines
  import opened Names
  import opened NoteFile
  import opened Reviews
  import opened ReviewsProofs
  import opened Vectors
  import opened NoteIndex
  import opened Embedding
  import opened NoteSteps
  import opened NoteVectors
  import opened NoteSync
  import opened NoteBlobs

  class Notes {
    const w: World
    var tree: Tree
    var queue: map<string, string>
    var rows: map<string, Row>
    var cache: map<CacheKey, Cached>

    ghost function Now(): State
      reads this
    {
      State(tree, queue, rows, cache)
    }

    ghost predicate Valid() { w.chunk > 0 }

    constructor (w: World)
      requires w.chunk > 0
      ensures Valid() && this.w == w && Now() == State(map[], map[], map[], map[])
    {
      this.w := w;
      tree, queue, rows, cache := map[], map[], map[], map[];
    }

    /** The inner loop of `walkProjects`: one directory's notes. */
    method CollectDirectory(files: map<string, string>) returns (notes: Option<seq<Note>>)
      ensures notes == CollectFiles(files, SortedKeys(files.Keys))
    {
      hide ParseNote, EndsMd, SortedKeys, CollectFiles;
      var names := SortedKeys(files.Keys);
      var found: seq<Note> := [];
      assert names[0..] == names;
      NoneBefore(CollectFiles(files, names));
      for j := 0 to |names|
        invariant CollectFiles(files, names) == Then(Some(found), CollectFiles(files, names[j..]))
      {
        FileStep(files, names[j..]);
        assert names[j..][1..] == names[j + 1..];
        if EndsMd(names[j]) {
          match ParseNote(files[names[j]]) {
            case Parsed(n) =>
              Regroup(found, [n], CollectFiles(files, names[j + 1..]));
              found := found + [n];
            case _ => return None;
          }
        }
      }
      NoFiles(files, names[|names|..], found);
      notes := Some(found);
    }

    /** `walkProjects` with the callback of `Reindex`. */
    method CollectNotes(project: string) returns (notes: Option<seq<Note>>)
      ensures notes == Collect(tree, project)
    {
      hide SortedKeys, CollectFiles, CollectDirs;
      var dirs := SortedKeys(tree.Keys);
      var found: seq<Note> := [];
      assert dirs[0..] == dirs;
      AllListed(tree);
      NoneBefore(CollectDirs(tree, dirs, project));
      for i := 0 to |dirs|
        invariant Collect(tree, project) == Then(Some(found), CollectDirs(tree, dirs[i..], project))
      {
        var dir := dirs[i];
        DirStep(tree, dirs[i..], project);
        assert dirs[i..][1..] == dirs[i + 1..];
        if !Visible(dir) || (project != "" && dir != project) { continue; }
        var here := CollectDirectory(tree[dir]);
        if here == None { return None; }
        Regroup(found, here.value, CollectDirs(tree, dirs[i + 1..], project));
        found := found + here.value;
      }
      NoDirs(tree, dirs[|dirs|..], project, found);
      notes := Some(found);
    }

    /** The rows of a rebuild. */
    method InsertRows(es: seq<Entry>)
      modifies this`rows
      ensures rows == Insert(old(rows), es)
    {
      for i := 0 to |es|
        invariant rows == Insert(old(rows), es[..i])
      {
        assert es[..i + 1][..i] == es[..i];
        rows := rows[es[i].note.id := RowOf(es[i])];
      }
      assert es[..|es|] == es;
    }

    /** The cache of a rebuild: this model's entries are replaced by the vectors in use. */
    method RefreshCache(model: string, es: seq<Entry>)
      modifies this`cache
      ensures cache == Store(DropModel(old(cache), model), model, es)
    {
      hide DropModel;
      cache := DropModel(cache, model);
      for i := 0 to |es|
        invariant cache == Store(DropModel(old(cache), model), model, es[..i])
      {
        assert es[..i + 1][..i] == es[..i];
        if es[i].vec != None {
          cache := cache[(Rel(es[i].note), model) := Cached(es[i].digest, Pack(es[i].vec.value))];
        }
      }
      assert es[..|es|] == es;
    }

    /** `Reindex`: files and queue stay as they are; a completed rebuild of everything leaves the rows
        exactly the notes in the files, and one that fails after the table was emptied leaves no row. */
    method Reindex(project: string, ep: Endpoint, fault: Fault) returns (count: Option<nat>)
      requires Valid()
      modifies this
      ensures (Now(), count) == ReindexSpec(w, old(Now()), project, ep, fault)
      ensures Rebuilt(w, old(Now()), (Now(), count), project, ep, fault)
    {
      hide Rebuilt, Collect, Asked, FromCache, Missing, DropModel, Store, Insert, TrimSpace, Embeds;
      ReindexRebuilds(w, Now(), project, ep, fault);
      if fault.DropFails? { return None; }
      rows := map[];
      var notes := CollectNotes(TrimSpace(project));
      if notes == None || fault.ReadFails? { return None; }
      var ns := notes.value;
      var entries := new Entry[|ns|](i requires 0 <= i < |ns| => Entry(ns[i], w.digest(ns[i].body), None, ""));
      assert entries[..] == Fresh(w, ns);
      if ep.Endpoint? && |ns| > 0 {
        if fault.QueryFails? { return None; }
        var _ := ReindexEmbed(w, cache, ep, entries);
      }
      if ep.Endpoint? && |ns| == 0 { NothingAsked(w, cache, ep); }
      var es := entries[..];
      EmbedsAsks(w, cache, ep, Fresh(w, ns));
      assert es == Embeds(w, cache, ep, Fresh(w, ns));
      if fault.InsertFails? { return None; }
      InsertRows(es);
      if ep.Endpoint? { RefreshCache(ep.model, es); }
      count := Some(|es|);
    }

    /** `findReview` */
    method FindEntry(id: string) returns (found: Option<(string, Review)>)
      ensures found == FindPending(queue, id)
      ensures found.Some? ==> found.value.0 in queue && found.value.1.id == id
    {
      hide Pending, SortedKeys, FirstWith;
      var names := SortedKeys(queue.Keys);
      for i := 0 to |names|
        invariant FindPending(queue, id) == FindIn(queue, names[i..], id)
      {
        assert names[i..][1..] == names[i + 1..];
        var e := FindReview(queue[names[i]], id);
        if e.Some? {
          FirstHasId(Pending(queue[names[i]]), id);
          return Some((names[i], e.value));
        }
      }
      found := None;
    }

    /** `Approve`: it succeeds exactly for a pending entry when nothing fails; then no entry with the id is
        pending in that file, and rows and files that were the same stay so in exactly the case of
        `StaysSynced`. */
    method Approve(id: string, now: int, ep: Endpoint, halt: Halt) returns (approved: Option<Note>)
      modifies this
      ensures (Now(), approved) == ApproveSpec(w, old(Now()), id, now, ep, halt)
      ensures Settles(w, old(Now()), Now(), id, now, ep, halt, approved)
    {
      hide Settles;
      ApproveSettles(w, Now(), id, now, ep, halt);
      hide FindPending, FileName, Marshal, KeptLines, Joined;
      var found := FindEntry(id);
      if found == None { return None; }
      var (file, e) := found.value;
      var n := Note(e.id, e.title, e.project, FileName(e.title, e.id), "project", now, now, false, e.text);
      if halt.WriteFails? { return None; }
      tree := WriteNote(tree, n);
      var vec, model := None, "";
      if ep.Endpoint? && ep.up { vec, model := w.vector(ep.model, n.body), ep.model; }
      if halt.IndexFails? { return None; }
      rows := rows[n.id := Row(n, Blob(vec), model)];
      if halt.DropLineFails? { return None; }
      var kept := DropLine(queue[file], e.id);
      queue := queue[file := kept];
      approved := Some(n);
    }

    /** `Reject`: the entries with the id leave their file, in order, and nothing else changes. */
    method Reject(id: string, fails: bool) returns (ok: bool)
      modifies this`queue
      ensures (Now(), ok) == RejectSpec(old(Now()), id, fails)
      ensures ok <==> !fails && FindPending(old(queue), id).Some?
      ensures if ok then Cleared(old(Now()), Now(), FindPending(old(queue), id).value.0, id) else Now() == old(Now())
    {
      ghost var was := Now();
      hide Cleared;
      hide FindPending, KeptLines, Joined, Pending;
      var found := FindEntry(id);
      if found == None || fails { return false; }
      var (file, e) := found.value;
      var kept := DropLine(queue[file], e.id);
      queue := queue[file := kept];
      DroppedIsCleared(was, Now(), file, id);
      ok := true;
    }

    /** `SaveToReview`: a note is refused exactly for a bad project name, a blank title or a text that
        is too long; a captured one is the last entry of its project's queue, and nothing else changes. */
    method SaveToReview(project: string, title: string, text: string, id: string, reason: seq<string>, now: int)
      returns (captured: Option<Review>)
      modifies this`queue
      ensures (Now(), captured) == SaveSpec(old(Now()), project, title, text, id, reason, now)
      ensures captured.Some? <==> ValidProject(project).Some? && TrimSpace(title) != "" && |text| <= MAX_TEXT
      ensures captured.None? ==> queue == old(queue)
      ensures captured.Some? ==>
                && captured.value.id == id && captured.value.text == text && captured.value.reason == reason
                && captured.value.createdAt == now && captured.value.title == TrimSpace(title)
                && ValidProject(project) == Some(captured.value.project)
      ensures captured.Some? && Int64(now) && Closed(QueueText(old(queue), captured.value.project + ".jsonl")) ==>
                var file := captured.value.project + ".jsonl";
                && Pending(QueueText(queue, file)) == Pending(QueueText(old(queue), file)) + [captured.value]
                && Closed(QueueText(queue, file))
                && forall f :: f != file ==> QueueText(queue, f) == QueueText(old(queue), f)
    {
      hide TrimSpace, ReviewLine, Pending, Closed;
      var p := ValidProject(project);
      if p == None { return None; }
      var t := TrimSpace(title);
      if t == "" || |text| > MAX_TEXT { return None; }
      var e := Review(id, p.value, t, text, reason, now);
      var file := p.value + ".jsonl";
      var before := QueueText(queue, file);
      queue := queue[file := before + ReviewLine(e)];
      captured := Some(e);
      if Int64(now) && Closed(before) { CaptureAppends(before, e); }
    }
  }

  // ---------- what the operations mean ----------

  /** A rebuild leaves files and queue as they are; one of everything that completes leaves the rows
      exactly the notes in the files, any that completes stores exactly the vectors that the cache held or
      the endpoint delivered, and one that fails after the table was emptied leaves no row. */
  ghost predicate Rebuilt(w: World, s: State, result: (State, Option<nat>), project: string, ep: Endpoint, fault: Fault)
    requires w.chunk > 0
  {
    var (t, count) := result;
    var ns := Collect(s.tree, TrimSpace(project));
    && t.tree == s.tree && t.queue == s.queue
    && (count.None? ==> t.cache == s.cache && t.rows == if fault.DropFails? then s.rows else map[])
    && (count.Some? && TrimSpace(project) == "" && OnePlace(s.tree) ==> SyncedBut(t, iset{}))
    && (count.Some? ==>
          && ns.Some? && count == Some(|ns.value|)
          && RowsStored(w, s.cache, ep, ns.value, t.rows) && CacheStored(w, s.cache, ep, ns.value, t.cache))
  }

  lemma ReindexRebuilds(w: World, s: State, project: string, ep: Endpoint, fault: Fault)
    requires w.chunk > 0
    ensures Rebuilt(w, s, ReindexSpec(w, s, project, ep, fault), project, ep, fault)
  {
    hide Collect, Embeds, Store, DropModel, Insert, TrimSpace, OnePlace, SyncedBut, RowsStored, CacheStored;
    if ReindexSpec(w, s, project, ep, fault).1.Some? { RebuildStores(w, s, project, ep, fault); }
    if ReindexSpec(w, s, project, ep, fault).1.Some? && TrimSpace(project) == "" && OnePlace(s.tree) {
      ReindexSyncs(w, s, project, ep, fault);
    }
  }

  /** The queue after the entries with the id are gone from one file, the others in order. */
  ghost predicate Cleared(s: State, t: State, file: string, id: string) {
    && Pending(QueueText(t.queue, file)) == Without(Pending(QueueText(s.queue, file)), id)
    && FirstWith(Pending(QueueText(t.queue, file)), id) == None
    && forall f :: f != file ==> QueueText(t.queue, f) == QueueText(s.queue, f)
  }

  /** The note has what was captured, is new and not pinned, and belongs to its project. */
  predicate NoteFor(e: Review, now: int, n: Note) {
    && n.id == e.id && n.title == e.title && n.project == e.project && n.body == e.text
    && n.createdAt == now && n.updatedAt == now && !n.pinned && n.scope == "project"
  }

  /** The text of a file, if it is there. */
  function TextAt(tree: Tree, dir: string, file: string): Option<string> {
    if dir in tree && file in tree[dir] then Some(tree[dir][file]) else None
  }

  /** The note's file is written, and every other file is as it was. */
  ghost predicate Wrote(tree: Tree, after: Tree, n: Note) {
    forall d, f :: TextAt(after, d, f) == if d == n.project && f == n.file then Some(Marshal(n)) else TextAt(tree, d, f)
  }

  lemma WriteWrites(tree: Tree, n: Note)
    ensures Wrote(tree, WriteNote(tree, n), n)
  {
    hide Marshal;
  }

  /** An approval succeeds exactly for a pending entry when nothing fails.  It writes the note's file, then
      its row, then takes the entries with its id out of the queue file, and stops at the first of these
      that fails.  Once it succeeded, rows and files that were the same stay so exactly in the case of
      `StaysSynced`. */
  ghost predicate Settles(w: World, s: State, t: State, id: string, now: int, ep: Endpoint, halt: Halt,
                          approved: Option<Note>)
  {
    match FindPending(s.queue, id)
    case None => t == s && approved == None
    case Some((file, e)) =>
      var n := NoteOf(e, now);
      && NoteFor(e, now, n) && t.cache == s.cache
      && approved == (if halt.NoHalt? then Some(n) else None)
      && (if halt.WriteFails? then t.tree == s.tree else Wrote(s.tree, t.tree, n))
      && (if halt.WriteFails? || halt.IndexFails? then t.rows == s.rows else RowAdded(w, s.rows, t.rows, id, ep, n))
      && (if halt.NoHalt? then Cleared(s, t, file, id) else t.queue == s.queue)
      && (halt.NoHalt? && SyncedBut(s, iset{}) && Int64(now) ==>
            (SyncedBut(t, iset{}) <==> StaysSynced(s.tree, e, now)))
  }

  /** The rows after an approval: its own, and the others as they were. */
  ghost predicate RowAdded(w: World, was: map<string, Row>, rows: map<string, Row>, id: string, ep: Endpoint, n: Note) {
    && rows.Keys == was.Keys + {id} && (forall k :: k in was && k != id ==> rows[k] == was[k])
    && if ep.Endpoint? && ep.up then Holds(rows[id], n, w.vector(ep.model, n.body), ep.model)
       else Holds(rows[id], n, None, "")
  }

  lemma ApproveSettles(w: World, s: State, id: string, now: int, ep: Endpoint, halt: Halt)
    ensures var (t, approved) := ApproveSpec(w, s, id, now, ep, halt);
            Settles(w, s, t, id, now, ep, halt, approved)
  {
    hide SyncedBut, StaysSynced, FindPending, WriteNote, FileName, Cleared, IndexRow, Dropped, RowAdded, Wrote, NoteFor;
    FoundIsPending(s.queue, id);
    var found := FindPending(s.queue, id);
    if found.Some? {
      var (file, e) := found.value;
      var n := NoteOf(e, now);
      NoteIsFor(e, now);
      var t := s.(tree := WriteNote(s.tree, n), rows := s.rows[id := IndexRow(w, ep, n)],
                  queue := Dropped(s.queue, file, e.id));
      WriteWrites(s.tree, n);
      RowIsAdded(w, s.rows, id, ep, n);
      DroppedIsCleared(s, t, file, id);
      if halt.NoHalt? {
        assert ApproveSpec(w, s, id, now, ep, halt) == (t, Some(n));
        if SyncedBut(s, iset{}) && Int64(now) { ApproveSyncs(w, s, id, now, ep); }
      }
    }
  }

  lemma NoteIsFor(e: Review, now: int)
    ensures NoteFor(e, now, NoteOf(e, now))
  {
    hide FileName;
  }

  lemma RowIsAdded(w: World, was: map<string, Row>, id: string, ep: Endpoint, n: Note)
    ensures RowAdded(w, was, was[id := IndexRow(w, ep, n)], id, ep, n)
  {
    ApproveStores(w, ep, n);
    hide Holds, IndexRow;
  }

  lemma DroppedIsCleared(s: State, t: State, file: string, id: string)
    requires file in s.queue && t.queue == Dropped(s.queue, file, id)
    ensures Cleared(s, t, file, id)
  {
    hide KeptLines, Joined, Pending;
    DropIsExact(s.queue[file], id);
  }
}
