/** Every note in a file or in the index was captured, and approved while it was pending
    (internal/memory/notes.go). */
module NoteApproval {
  import opened Text
  import opened Lines
  import opened Fields
  import opened Names
  import opened NoteFile
  import opened Reviews
  import opened ReviewsProofs
  import opened Vectors
  import opened NoteIndex
  import opened NoteSteps
  import opened NoteVectors
  import opened NoteSync

  // ---------- approved notes ----------

  /** The operation approves a pending entry, and `n` is that entry's note. */
  ghost predicate Approves(s: State, op: Op, n: Note) {
    op.Approve? && exists file, e :: PendingAt(s.queue, file, e) && e.id == op.id && n == NoteOf(e, op.now)
  }

  /** A note as it is read back from its file: a final line end is gone. */
  function AsRead(n: Note): Note { n.(body := TrimNewline(n.body)) }

  ghost predicate ApprovedAt(w: World, s: State, ops: seq<Op>, n: Note, k: int)
    requires w.chunk > 0 && 0 <= k < |ops|
  {
    Approves(Run(w, s, ops[..k]), ops[k], n)
  }

  /** Some operation of the run approved the note. */
  ghost predicate Approved(w: World, s: State, ops: seq<Op>, n: Note)
    requires w.chunk > 0
  {
    exists k :: 0 <= k < |ops| && ApprovedAt(w, s, ops, n, k)
  }

  /** `m` is what an approved note reads back as. */
  ghost predicate Filed(w: World, s: State, ops: seq<Op>, m: Note)
    requires w.chunk > 0
  {
    exists n :: Approved(w, s, ops, n) && m == AsRead(n)
  }

  ghost predicate AllApproved(w: World, s: State, ops: seq<Op>)
    requires w.chunk > 0
  {
    var t := Run(w, s, ops);
    && (forall q, m :: NoteAt(t.tree, q, m) ==> Filed(w, s, ops, m))
    && (forall id :: id in t.rows ==>
          t.rows[id].note.id == id && (Approved(w, s, ops, t.rows[id].note) || Filed(w, s, ops, t.rows[id].note)))
  }

  lemma ApprovedStays(w: World, s: State, ops: seq<Op>, n: Note)
    requires w.chunk > 0 && ops != []
    ensures Approved(w, s, ops[..|ops| - 1], n) ==> Approved(w, s, ops, n)
    ensures Filed(w, s, ops[..|ops| - 1], n) ==> Filed(w, s, ops, n)
    ensures Approves(Run(w, s, ops[..|ops| - 1]), ops[|ops| - 1], n) ==> Approved(w, s, ops, n)
  {
    hide Run, Approves;
    var init := ops[..|ops| - 1];
    forall m | Approved(w, s, init, m) ensures Approved(w, s, ops, m) {
      var k :| 0 <= k < |init| && ApprovedAt(w, s, init, m, k);
      assert init[..k] == ops[..k];
      assert ApprovedAt(w, s, ops, m, k);
    }
    if Approves(Run(w, s, init), ops[|ops| - 1], n) { assert ApprovedAt(w, s, ops, n, |ops| - 1); }
  }

  // ---------- one operation ----------

  ghost predicate InFiles(tree: Tree, n: Note) { exists q :: NoteAt(tree, q, n) }

  /** What an operation adds: files of notes it approves; rows of those, or of notes in files. */
  ghost predicate AddsApproved(s: State, op: Op, t: State) {
    && (forall q, m :: NoteAt(t.tree, q, m) && !NoteAt(s.tree, q, m) ==>
         exists n :: Approves(s, op, n) && m == AsRead(n))
    && (forall id :: id in t.rows && (id !in s.rows || t.rows[id] != s.rows[id]) ==>
         t.rows[id].note.id == id && (Approves(s, op, t.rows[id].note) || InFiles(s.tree, t.rows[id].note)))
  }

  lemma WrittenIs(tree: Tree, n: Note, q: Place, m: Note)
    requires Int64(n.createdAt) && Int64(n.updatedAt) && EndsMd(n.file) && NoteAt(WriteNote(tree, n), q, m)
    ensures NoteAt(tree, q, m) || m == AsRead(n)
  {
    hide Marshal, ParseNote, EndsMd, TrimNewline, WriteNote;
    WrittenFiles(tree, n, q);
    RoundTrip(n);
  }

  lemma ApproveAdds(w: World, s: State, id: string, now: int, ep: Endpoint, halt: Halt)
    requires w.chunk > 0 && Int64(now)
    ensures AddsApproved(s, Approve(id, now, ep, halt), ApproveSpec(w, s, id, now, ep, halt).0)
  {
    hide NoteAt, WriteNote, FileName, TrimNewline, FindPending, Dropped, PendingAt;
    var op, t := Approve(id, now, ep, halt), ApproveSpec(w, s, id, now, ep, halt).0;
    FoundIsPending(s.queue, id);
    match FindPending(s.queue, id) {
      case None =>
      case Some((file, e)) =>
        var n := NoteOf(e, now);
        FileNameEnds(e.title, e.id);
        assert Approves(s, op, n);
        assert t.tree == s.tree || t.tree == WriteNote(s.tree, n);
        forall q, m | NoteAt(t.tree, q, m) && !NoteAt(s.tree, q, m) ensures m == AsRead(n) {
          WrittenIs(s.tree, n, q, m);
        }
    }
  }

  /** What a rebuild of one project reads are notes in files, too. */
  lemma CollectSome(tree: Tree, project: string)
    ensures Collect(tree, project).Some? ==> forall n :: n in Collect(tree, project).value ==>
              exists q :: NoteAt(tree, q, n)
  {
    hide NoteAt;
    CollectDirsSome(tree, SortedKeys(tree.Keys), project);
  }

  lemma {:induction false} CollectDirsSome(tree: Tree, dirs: seq<string>, project: string)
    requires forall i :: 0 <= i < |dirs| ==> dirs[i] in tree
    ensures CollectDirs(tree, dirs, project).Some? ==>
              forall n :: n in CollectDirs(tree, dirs, project).value ==> exists q :: NoteAt(tree, q, n)
    decreases |dirs|
  {
    hide CollectFiles, SortedKeys, ParseNote, EndsMd;
    if dirs != [] {
      DirectoryExact(tree[dirs[0]]);
      CollectDirsSome(tree, dirs[1..], project);
      DirStep(tree, dirs, project);
      forall n | Visible(dirs[0]) && InDirectory(tree[dirs[0]], n) ensures exists q :: NoteAt(tree, q, n) {
        var f :| f in tree[dirs[0]] && EndsMd(f) && ParseNote(tree[dirs[0]][f]) == Parsed(n);
        assert NoteAt(tree, (dirs[0], f), n);
      }
    }
  }

  lemma ReindexAdds(w: World, s: State, project: string, ep: Endpoint, fault: Fault)
    requires w.chunk > 0
    ensures AddsApproved(s, Reindex(project, ep, fault), ReindexSpec(w, s, project, ep, fault).0)
  {
    hide Collect, Embeds, NoteAt, Store, DropModel, Insert, TrimSpace, Approves;
    var r := ReindexSpec(w, s, project, ep, fault);
    if r.1.Some? {
      var ns := Collect(s.tree, TrimSpace(project)).value;
      var es := Embeds(w, s.cache, ep, Fresh(w, ns));
      CollectSome(s.tree, TrimSpace(project));
      EmbedsKeepNotes(w, s.cache, ep, Fresh(w, ns));
      forall id | id in r.0.rows ensures r.0.rows[id].note.id == id && InFiles(s.tree, r.0.rows[id].note) {
        var i := InsertIds(es, id);
        assert es[i].note == ns[i] && ns[i] in ns;
      }
    }
  }

  lemma OpAdds(w: World, s: State, op: Op)
    requires w.chunk > 0 && (op.Approve? ==> Int64(op.now))
    ensures AddsApproved(s, op, Next(w, s, op))
  {
    hide AddsApproved, ApproveSpec, ReindexSpec, RejectSpec, SaveSpec;
    match op {
      case Approve(id, now, ep, halt) => ApproveAdds(w, s, id, now, ep, halt);
      case Reindex(project, ep, fault) => ReindexAdds(w, s, project, ep, fault);
      case Reject(id, fails) => RejectKeepsIndex(s, id, fails); AddsNothing(s, op, Next(w, s, op));
      case Save(project, title, text, id, reason, now) =>
        SaveKeepsIndex(s, project, title, text, id, reason, now);
        AddsNothing(s, op, Next(w, s, op));
    }
  }

  lemma AddsNothing(s: State, op: Op, t: State)
    requires t.tree == s.tree && t.rows == s.rows
    ensures AddsApproved(s, op, t)
  {
    hide NoteAt, Approves;
  }

  // ---------- runs ----------

  /** Approvals and captures happen at times a clock can tell. */
  ghost predicate Dated(ops: seq<Op>) {
    forall i :: 0 <= i < |ops| ==> (ops[i].Approve? ==> Int64(ops[i].now)) && (ops[i].Save? ==> Int64(ops[i].at))
  }

  /** With no files and no rows at first, whatever fails: every note in a file is the note of an entry
      that was pending when it was approved, less one final line end, and every row is such a note,
      with or without that line end, under its own id. */
  lemma {:induction false} NothingUnapproved(w: World, queue: map<string, string>, cache: map<CacheKey, Cached>,
                                             ops: seq<Op>)
    requires w.chunk > 0 && Dated(ops)
    ensures AllApproved(w, State(map[], queue, map[], cache), ops)
    decreases |ops|
  {
    if ops != [] {
      hide Next, AllApproved;
      var start, init := State(map[], queue, map[], cache), ops[..|ops| - 1];
      NothingUnapproved(w, queue, cache, init);
      OpAdds(w, Run(w, start, init), ops[|ops| - 1]);
      ApprovedSoFar(w, start, ops);
    }
  }

  lemma ApprovedSoFar(w: World, s: State, ops: seq<Op>)
    requires w.chunk > 0 && ops != [] && AllApproved(w, s, ops[..|ops| - 1])
    requires AddsApproved(Run(w, s, ops[..|ops| - 1]), ops[|ops| - 1], Run(w, s, ops))
    ensures AllApproved(w, s, ops)
  {
    hide Run, Approves, Approved, NoteAt;
    var init, op := ops[..|ops| - 1], ops[|ops| - 1];
    var before, t := Run(w, s, init), Run(w, s, ops);
    forall n
      ensures Approved(w, s, init, n) ==> Approved(w, s, ops, n)
      ensures Filed(w, s, init, n) ==> Filed(w, s, ops, n)
      ensures Approves(before, op, n) ==> Approved(w, s, ops, n)
    {
      ApprovedStays(w, s, ops, n);
    }
    forall q, m | NoteAt(t.tree, q, m) ensures Filed(w, s, ops, m) {
      if !NoteAt(before.tree, q, m) {
        var n :| Approves(before, op, n) && m == AsRead(n);
      }
    }
  }

  // ---------- captured entries ----------

  ghost predicate CapturedAt(w: World, s: State, ops: seq<Op>, e: Review, k: int)
    requires w.chunk > 0 && 0 <= k < |ops|
  {
    var op := ops[k];
    op.Save? && SaveSpec(Run(w, s, ops[..k]), op.project, op.title, op.text, op.saved, op.reason, op.at).1 == Some(e)
  }

  /** Some operation of the run captured the entry. */
  ghost predicate Captured(w: World, s: State, ops: seq<Op>, e: Review)
    requires w.chunk > 0
  {
    exists k :: 0 <= k < |ops| && CapturedAt(w, s, ops, e, k)
  }

  ghost predicate QueueClosed(queue: map<string, string>) { forall f :: f in queue ==> Closed(queue[f]) }

  ghost predicate AllCaptured(w: World, s: State, ops: seq<Op>)
    requires w.chunk > 0
  {
    var queue := Run(w, s, ops).queue;
    QueueClosed(queue) && forall f, e :: PendingAt(queue, f, e) ==> Captured(w, s, ops, e)
  }

  lemma CapturedStays(w: World, s: State, ops: seq<Op>, e: Review)
    requires w.chunk > 0 && ops != []
    ensures Captured(w, s, ops[..|ops| - 1], e) ==> Captured(w, s, ops, e)
    ensures CapturedAt(w, s, ops, e, |ops| - 1) ==> Captured(w, s, ops, e)
  {
    hide Run, SaveSpec;
    var init := ops[..|ops| - 1];
    if Captured(w, s, init, e) {
      var k :| 0 <= k < |init| && CapturedAt(w, s, init, e, k);
      assert init[..k] == ops[..k];
      assert CapturedAt(w, s, ops, e, k);
    }
  }

  /** The entries an operation leaves pending were pending, or are the one it captured. */
  ghost predicate AddsCaptured(s: State, op: Op, t: State) {
    && QueueClosed(t.queue)
    && forall f, e :: PendingAt(t.queue, f, e) && !PendingAt(s.queue, f, e) ==>
         op.Save? && SaveSpec(s, op.project, op.title, op.text, op.saved, op.reason, op.at).1 == Some(e)
  }

  lemma SaveAdds(s: State, op: Op)
    requires op.Save? && Int64(op.at) && QueueClosed(s.queue)
    ensures AddsCaptured(s, op, SaveSpec(s, op.project, op.title, op.text, op.saved, op.reason, op.at).0)
  {
    hide TrimSpace, ReviewLine, Pending, Ended;
    var (t, captured) := SaveSpec(s, op.project, op.title, op.text, op.saved, op.reason, op.at);
    if captured.Some? {
      var file := ValidProject(op.project).value + ".jsonl";
      EmptyFile();
      CaptureAppends(QueueText(s.queue, file), captured.value);
    }
  }

  lemma DropAdds(s: State, op: Op, t: State, file: string, id: string)
    requires QueueClosed(s.queue) && file in s.queue && t.queue == Dropped(s.queue, file, id)
    ensures AddsCaptured(s, op, t)
  {
    hide Pending, KeptLines, Joined, LinesOf, SaveSpec, Ended;
    DropIsExact(s.queue[file], id);
    NoneLeft(Pending(s.queue[file]), id);
  }

  lemma SameQueueAdds(s: State, op: Op, t: State)
    requires QueueClosed(s.queue) && t.queue == s.queue
    ensures AddsCaptured(s, op, t)
  {
    hide PendingAt, SaveSpec;
  }

  lemma OpCaptures(w: World, s: State, op: Op)
    requires w.chunk > 0 && QueueClosed(s.queue) && (op.Save? ==> Int64(op.at))
    ensures AddsCaptured(s, op, Next(w, s, op))
  {
    hide AddsCaptured, SaveSpec, QueueClosed, FindPending, Dropped, WriteNote, Collect, Embeds;
    var t := Next(w, s, op);
    if op.Save? { SaveAdds(s, op); }
    if t.queue == s.queue { SameQueueAdds(s, op, t); }
    else if op.Approve? || op.Reject? {
      var (file, e) := FindPending(s.queue, op.id).value;
      DropAdds(s, op, t, file, e.id);
    }
  }

  /** With an empty queue at first, whatever fails: every pending entry was captured. */
  lemma {:induction false} PendingWasCaptured(w: World, s: State, ops: seq<Op>)
    requires w.chunk > 0 && Dated(ops) && s.queue == map[]
    ensures AllCaptured(w, s, ops)
    decreases |ops|
  {
    if ops != [] {
      hide Next, SaveSpec;
      var init := ops[..|ops| - 1];
      PendingWasCaptured(w, s, init);
      OpCaptures(w, Run(w, s, init), ops[|ops| - 1]);
      forall e
        ensures Captured(w, s, init, e) ==> Captured(w, s, ops, e)
        ensures CapturedAt(w, s, ops, e, |ops| - 1) ==> Captured(w, s, ops, e)
      {
        CapturedStays(w, s, ops, e);
      }
    }
  }
}
