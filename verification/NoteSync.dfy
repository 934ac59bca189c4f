/** The index rows and the markdown files say the same (internal/memory/notes.go). */
module NoteSync {
  import opened Text
  import opened Lines
  import opened Fields
  import opened Names
  import opened NoteFile
  import opened Reviews
  import opened ReviewsProofs
  import opened Vectors
  import opened NoteIndex
  import opened NoteSteps
  import opened NoteVectors

  /** Project directory and file name. */
  type Place = (string, string)

  /** A file that a walk over the projects reaches. */
  predicate FileAt(tree: Tree, q: Place) { Visible(q.0) && q.0 in tree && q.1 in tree[q.0] && EndsMd(q.1) }

  predicate NoteAt(tree: Tree, q: Place, n: Note) { FileAt(tree, q) && ParseNote(tree[q.0][q.1]) == Parsed(n) }

  ghost predicate AllParse(tree: Tree) { forall q :: FileAt(tree, q) ==> ParseNote(tree[q.0][q.1]).Parsed? }

  /** No two files hold notes with one id. */
  ghost predicate OnePlace(tree: Tree) {
    forall q, r, m, n :: NoteAt(tree, q, m) && NoteAt(tree, r, n) && m.id == n.id ==> q == r
  }

  ghost predicate Backed(s: State, id: string)
    requires id in s.rows
  {
    s.rows[id].note.id == id && exists q :: NoteAt(s.tree, q, s.rows[id].note)
  }

  ghost predicate Indexed(s: State, n: Note) { n.id in s.rows && s.rows[n.id].note == n }

  /** Ids aside that may lag behind, the rows are exactly the notes in the files. */
  ghost predicate SyncedBut(s: State, lag: iset<string>) {
    && AllParse(s.tree) && OnePlace(s.tree)
    && (forall q, n :: NoteAt(s.tree, q, n) && n.id !in lag ==> Indexed(s, n))
    && (forall id :: id in s.rows && id !in lag ==> Backed(s, id))
  }

  // ---------- what a rebuild reads ----------

  ghost predicate From(files: map<string, string>, names: seq<string>, n: Note)
    requires forall i :: 0 <= i < |names| ==> names[i] in files
  {
    exists i :: 0 <= i < |names| && EndsMd(names[i]) && ParseNote(files[names[i]]) == Parsed(n)
  }

  lemma {:induction false} CollectFilesExact(files: map<string, string>, names: seq<string>)
    requires forall i :: 0 <= i < |names| ==> names[i] in files
    ensures CollectFiles(files, names).Some? <==>
              forall i :: 0 <= i < |names| && EndsMd(names[i]) ==> ParseNote(files[names[i]]).Parsed?
    ensures CollectFiles(files, names).Some? ==> forall n :: n in CollectFiles(files, names).value <==>
              From(files, names, n)
    decreases |names|
  {
    hide ParseNote, EndsMd;
    if names != [] {
      var rest := names[1..];
      CollectFilesExact(files, rest);
      assert forall i :: 0 <= i < |rest| ==> rest[i] == names[i + 1];
      if CollectFiles(files, names).Some? {
        forall n ensures n in CollectFiles(files, names).value <==> From(files, names, n) {
          if From(files, rest, n) {
            var i :| 0 <= i < |rest| && EndsMd(rest[i]) && ParseNote(files[rest[i]]) == Parsed(n);
            assert names[i + 1] == rest[i];
          }
          if From(files, names, n) {
            var i :| 0 <= i < |names| && EndsMd(names[i]) && ParseNote(files[names[i]]) == Parsed(n);
            if i > 0 { assert rest[i - 1] == names[i]; }
          }
        }
      }
    }
  }

  ghost predicate FilesParse(files: map<string, string>) {
    forall f :: f in files && EndsMd(f) ==> ParseNote(files[f]).Parsed?
  }

  ghost predicate InDirectory(files: map<string, string>, n: Note) {
    exists f :: f in files && EndsMd(f) && ParseNote(files[f]) == Parsed(n)
  }

  lemma DirectoryExact(files: map<string, string>)
    ensures var r := CollectFiles(files, SortedKeys(files.Keys));
            && (r.Some? <==> FilesParse(files))
            && (r.Some? ==> forall n :: n in r.value <==> InDirectory(files, n))
  {
    hide ParseNote, EndsMd, CollectFiles;
    var names := SortedKeys(files.Keys);
    hide SortedKeys;
    CollectFilesExact(files, names);
    if forall i :: 0 <= i < |names| && EndsMd(names[i]) ==> ParseNote(files[names[i]]).Parsed? {
      forall f | f in files && EndsMd(f) ensures ParseNote(files[f]).Parsed? {
        assert f in names;
        var i :| 0 <= i < |names| && names[i] == f;
      }
    }
    forall n ensures From(files, names, n) <==> InDirectory(files, n) {
      if From(files, names, n) {
        var i :| 0 <= i < |names| && EndsMd(names[i]) && ParseNote(files[names[i]]) == Parsed(n);
        assert names[i] in files;
      }
      if InDirectory(files, n) {
        var f :| f in files && EndsMd(f) && ParseNote(files[f]) == Parsed(n);
        assert f in names;
        var i :| 0 <= i < |names| && names[i] == f;
      }
    }
  }

  /** The walk lists the directory, and reads it for the project, or for all. */
  predicate Walked(dir: string, project: string) { Visible(dir) && (project == "" || dir == project) }

  ghost predicate InDirs(tree: Tree, dirs: seq<string>, project: string, n: Note)
    requires forall i :: 0 <= i < |dirs| ==> dirs[i] in tree
  {
    exists i :: 0 <= i < |dirs| && Walked(dirs[i], project) && InDirectory(tree[dirs[i]], n)
  }

  lemma {:induction false} CollectDirsExact(tree: Tree, dirs: seq<string>, project: string)
    requires forall i :: 0 <= i < |dirs| ==> dirs[i] in tree
    ensures CollectDirs(tree, dirs, project).Some? <==>
              forall i :: 0 <= i < |dirs| && Walked(dirs[i], project) ==> FilesParse(tree[dirs[i]])
    ensures CollectDirs(tree, dirs, project).Some? ==>
              forall n :: n in CollectDirs(tree, dirs, project).value <==> InDirs(tree, dirs, project, n)
    decreases |dirs|
  {
    hide FilesParse, InDirectory, SortedKeys, CollectFiles, Visible;
    if dirs != [] {
      var rest := dirs[1..];
      DirectoryExact(tree[dirs[0]]);
      CollectDirsExact(tree, rest, project);
      DirStep(tree, dirs, project);
      assert forall i :: 0 <= i < |rest| ==> rest[i] == dirs[i + 1];
      if CollectDirs(tree, dirs, project).Some? {
        forall n ensures n in CollectDirs(tree, dirs, project).value <==> InDirs(tree, dirs, project, n) {
          if InDirs(tree, rest, project, n) {
            var i :| 0 <= i < |rest| && Walked(rest[i], project) && InDirectory(tree[rest[i]], n);
            assert dirs[i + 1] == rest[i];
          }
          if InDirs(tree, dirs, project, n) {
            var i :| 0 <= i < |dirs| && Walked(dirs[i], project) && InDirectory(tree[dirs[i]], n);
            if i > 0 { assert rest[i - 1] == dirs[i]; }
          }
        }
      }
    }
  }

  ghost predicate ParseFor(tree: Tree, project: string) {
    forall q :: FileAt(tree, q) && (project == "" || q.0 == project) ==> ParseNote(tree[q.0][q.1]).Parsed?
  }

  /** A rebuild of a project, or of all, reads exactly the notes in its files, or fails when one of them does
      not parse. */
  lemma CollectForExact(tree: Tree, project: string)
    ensures Collect(tree, project).Some? <==> ParseFor(tree, project)
    ensures Collect(tree, project).Some? ==>
              forall n :: n in Collect(tree, project).value <==>
                exists q :: NoteAt(tree, q, n) && (project == "" || q.0 == project)
  {
    hide ParseNote, EndsMd, CollectDirs, Visible;
    var dirs := SortedKeys(tree.Keys);
    hide SortedKeys;
    CollectDirsExact(tree, dirs, project);
    if Collect(tree, project).Some? {
      forall q | FileAt(tree, q) && (project == "" || q.0 == project) ensures ParseNote(tree[q.0][q.1]).Parsed? {
        assert q.0 in dirs;
        var i :| 0 <= i < |dirs| && dirs[i] == q.0;
        assert FilesParse(tree[dirs[i]]);
      }
    }
    if ParseFor(tree, project) {
      forall i | 0 <= i < |dirs| && Walked(dirs[i], project) ensures FilesParse(tree[dirs[i]]) {
        forall f | f in tree[dirs[i]] && EndsMd(f) ensures ParseNote(tree[dirs[i]][f]).Parsed? {
          assert FileAt(tree, (dirs[i], f));
        }
      }
    }
    forall n
      ensures InDirs(tree, dirs, project, n) <==> exists q :: NoteAt(tree, q, n) && (project == "" || q.0 == project)
    {
      WalkedNote(tree, dirs, project, n);
    }
  }

  lemma WalkedNote(tree: Tree, dirs: seq<string>, project: string, n: Note)
    requires forall d :: d in dirs <==> d in tree
    ensures InDirs(tree, dirs, project, n) <==> exists q :: NoteAt(tree, q, n) && (project == "" || q.0 == project)
  {
    hide ParseNote, EndsMd, Visible;
    if InDirs(tree, dirs, project, n) {
      var i :| 0 <= i < |dirs| && Walked(dirs[i], project) && InDirectory(tree[dirs[i]], n);
      var f :| f in tree[dirs[i]] && EndsMd(f) && ParseNote(tree[dirs[i]][f]) == Parsed(n);
      assert NoteAt(tree, (dirs[i], f), n);
    }
    if exists q :: NoteAt(tree, q, n) && (project == "" || q.0 == project) {
      var q :| NoteAt(tree, q, n) && (project == "" || q.0 == project);
      assert q.0 in dirs;
      var i :| 0 <= i < |dirs| && dirs[i] == q.0;
      assert q.1 in tree[dirs[i]];
      assert InDirectory(tree[dirs[i]], n);
    }
  }

  /** A rebuild of everything reads exactly the notes in the files, or fails when one does not parse. */
  lemma CollectExact(tree: Tree)
    ensures Collect(tree, "").Some? <==> AllParse(tree)
    ensures Collect(tree, "").Some? ==> forall n :: n in Collect(tree, "").value <==> exists q :: NoteAt(tree, q, n)
  {
    hide Collect, NoteAt, FileAt, ParseNote;
    CollectForExact(tree, "");
  }

  // ---------- a rebuild ----------

  lemma {:induction false} InsertIds(es: seq<Entry>, id: string) returns (i: int)
    ensures id in Insert(map[], es) <==> exists j :: 0 <= j < |es| && es[j].note.id == id
    ensures id in Insert(map[], es) ==> 0 <= i < |es| && es[i].note.id == id && Insert(map[], es)[id].note == es[i].note
    decreases |es|
  {
    i := |es| - 1;
    if es != [] && es[i].note.id != id {
      var init := es[..|es| - 1];
      i := InsertIds(init, id);
      forall j | 0 <= j < |init| ensures init[j] == es[j] {}
      if exists j :: 0 <= j < |es| && es[j].note.id == id {
        var j :| 0 <= j < |es| && es[j].note.id == id;
        assert init[j].note.id == id;
      }
    }
  }

  lemma EmbedsKeepNotes(w: World, cache: map<CacheKey, Cached>, ep: Endpoint, es: seq<Entry>)
    requires w.chunk > 0
    ensures |Embeds(w, cache, ep, es)| == |es|
    ensures forall i :: 0 <= i < |es| ==> Embeds(w, cache, ep, es)[i].note == es[i].note
  {
    hide Hit, Missing;
    if ep.Endpoint? {
      var filled := FromCache(cache, ep.model, es);
      var out := Asked(w, ep, filled);
      forall i | 0 <= i < |es| ensures out[i].note == es[i].note {
        assert filled[i] == Filled(cache, ep.model, es[i]);
        assert out[i] == filled[i] || out[i] == Embedded(w, ep.model, filled[i]);
      }
    }
  }

  /** A completed rebuild of everything leaves the rows exactly the notes in the files. */
  lemma ReindexSyncs(w: World, s: State, project: string, ep: Endpoint, fault: Fault)
    requires w.chunk > 0 && TrimSpace(project) == "" && OnePlace(s.tree)
    requires ReindexSpec(w, s, project, ep, fault).1.Some?
    ensures SyncedBut(ReindexSpec(w, s, project, ep, fault).0, iset{})
  {
    hide Collect, Embeds, NoteAt, FileAt, AllParse, OnePlace, Store, DropModel, Insert, TrimSpace;
    var t := ReindexSpec(w, s, project, ep, fault).0;
    var ns := Collect(s.tree, "").value;
    var es := Embeds(w, s.cache, ep, Fresh(w, ns));
    CollectExact(s.tree);
    EmbedsKeepNotes(w, s.cache, ep, Fresh(w, ns));
    assert t.rows == Insert(map[], es) && t.tree == s.tree;
    forall id | id in t.rows ensures Backed(t, id) {
      var i := InsertIds(es, id);
      assert es[i].note == ns[i] && ns[i] in ns;
    }
    forall q, n | NoteAt(t.tree, q, n) ensures Indexed(t, n) {
      assert n in ns;
      var j :| 0 <= j < |ns| && ns[j] == n;
      var i := InsertIds(es, n.id);
      assert es[j].note == n && es[i].note == ns[i] && ns[i] in ns;
      var r :| NoteAt(s.tree, r, ns[i]);
      SameNote(s.tree, q, n, r, ns[i]);
    }
  }

  lemma SameNote(tree: Tree, q: Place, m: Note, r: Place, n: Note)
    requires OnePlace(tree) && NoteAt(tree, q, m) && NoteAt(tree, r, n) && m.id == n.id
    ensures m == n && q == r
  {
    hide FileAt;
    assert q == r;
  }

  // ---------- an approval ----------

  function PlaceOf(e: Review): Place { (e.project, FileName(e.title, e.id)) }

  /** The entry survives being written and read. */
  predicate EntryGood(e: Review) {
    Visible(e.project) && e.id != "" && e.title != "" && TrimNewline(e.text) == e.text
  }

  /** The file of the entry is the only one with its id, and holds no other note. */
  ghost predicate OwnPlace(tree: Tree, e: Review) {
    forall q, m :: NoteAt(tree, q, m) ==> (m.id == e.id <==> q == PlaceOf(e))
  }

  lemma FileNameEnds(title: string, id: string)
    ensures EndsMd(FileName(title, id))
  {
    hide Slug, TrimDashes, TrimSpace;
    var name := FileName(title, id);
    assert name[|name| - 3..] == ".md";
  }

  lemma WrittenFiles(tree: Tree, n: Note, q: Place)
    requires EndsMd(n.file)
    ensures var t := WriteNote(tree, n);
            && (FileAt(t, q) <==> (Visible(q.0) && q == (n.project, n.file)) || FileAt(tree, q))
            && (FileAt(t, q) ==> t[q.0][q.1] == if q == (n.project, n.file) then Marshal(n) else tree[q.0][q.1])
  {
    hide Marshal, EndsMd;
  }

  /** The files after an approval wrote its note. */
  lemma WrittenNotes(tree: Tree, e: Review, now: int, q: Place, m: Note)
    requires Int64(now) && e.id != "" && e.title != ""
    ensures NoteAt(WriteNote(tree, NoteOf(e, now)), q, m)
       <==> if q == PlaceOf(e) then Visible(e.project) && m == NoteOf(e, now).(body := TrimNewline(e.text))
            else NoteAt(tree, q, m)
  {
    hide Marshal, ParseNote, EndsMd, TrimNewline, FileName, WriteNote;
    var n := NoteOf(e, now);
    FileNameEnds(e.title, e.id);
    WrittenFiles(tree, n, q);
    RoundTrip(n);
  }

  lemma WrittenParse(tree: Tree, e: Review, now: int)
    requires Int64(now) && e.id != "" && e.title != "" && AllParse(tree)
    ensures AllParse(WriteNote(tree, NoteOf(e, now)))
  {
    hide Marshal, ParseNote, EndsMd, TrimNewline, FileName, WriteNote, FileAt;
    var n := NoteOf(e, now);
    var t := WriteNote(tree, n);
    FileNameEnds(e.title, e.id);
    forall q | FileAt(t, q) ensures ParseNote(Contents(t, q)).Parsed? {
      WrittenFiles(tree, n, q);
      RoundTrip(n);
    }
    ParsesFrom(t);
  }

  function Contents(tree: Tree, q: Place): string
    requires FileAt(tree, q)
  {
    tree[q.0][q.1]
  }

  lemma ParsesFrom(tree: Tree)
    requires forall q :: FileAt(tree, q) ==> ParseNote(Contents(tree, q)).Parsed?
    ensures AllParse(tree)
  {
    hide ParseNote, EndsMd;
    forall q | FileAt(tree, q) ensures ParseNote(tree[q.0][q.1]).Parsed? { assert Contents(tree, q) == tree[q.0][q.1]; }
  }

  /** Writing the file of an entry that has its own place leaves at most that entry lagging. */
  lemma WriteKeepsSync(s: State, lag: iset<string>, e: Review, now: int)
    requires SyncedBut(s, lag) && EntryGood(e) && OwnPlace(s.tree, e) && Int64(now)
    ensures SyncedBut(s.(tree := WriteNote(s.tree, NoteOf(e, now))), lag + iset{e.id})
  {
    hide NoteAt, WriteNote, FileName, TrimNewline, FileAt, AllParse;
    var n := NoteOf(e, now);
    var t := s.(tree := WriteNote(s.tree, n));
    WrittenParse(s.tree, e, now);
    forall q, m ensures NoteAt(t.tree, q, m) <==> if q == PlaceOf(e) then m == n else NoteAt(s.tree, q, m) {
      WrittenNotes(s.tree, e, now, q, m);
    }
    forall q, m | NoteAt(t.tree, q, m) && m.id !in lag + iset{e.id} ensures Indexed(t, m) {
      assert NoteAt(s.tree, q, m);
      assert Indexed(s, m);
    }
    forall id | id in t.rows && id !in lag + iset{e.id} ensures Backed(t, id) {
      assert Backed(s, id);
      var q :| NoteAt(s.tree, q, s.rows[id].note);
      assert NoteAt(t.tree, q, t.rows[id].note);
    }
  }

  /** Indexing it as well leaves it up to date, and every other row alone. */
  lemma ApproveKeepsSync(s: State, lag: iset<string>, e: Review, now: int, row: Row)
    requires SyncedBut(s, lag) && EntryGood(e) && OwnPlace(s.tree, e) && Int64(now) && row.note == NoteOf(e, now)
    ensures SyncedBut(s.(tree := WriteNote(s.tree, NoteOf(e, now)), rows := s.rows[e.id := row]), lag - iset{e.id})
  {
    hide NoteAt, WriteNote, FileName, TrimNewline, FileAt, AllParse;
    var n := NoteOf(e, now);
    var u := s.(tree := WriteNote(s.tree, n));
    var t := u.(rows := s.rows[e.id := row]);
    WriteKeepsSync(s, lag, e, now);
    forall q, m ensures NoteAt(t.tree, q, m) <==> if q == PlaceOf(e) then m == n else NoteAt(s.tree, q, m) {
      WrittenNotes(s.tree, e, now, q, m);
    }
    forall q, m | NoteAt(t.tree, q, m) && m.id !in lag - iset{e.id} ensures Indexed(t, m) {
      if m.id != e.id { assert Indexed(u, m); }
    }
    forall id | id in t.rows && id !in lag - iset{e.id} ensures Backed(t, id) {
      if id == e.id {
        assert NoteAt(t.tree, PlaceOf(e), n);
      } else {
        assert Backed(u, id);
      }
    }
  }

  /** Another file holds the note already. */
  ghost predicate Copied(tree: Tree, n: Note) { exists q :: NoteAt(tree, q, n) }

  /** In a project that the walk over the projects lists: the text does not end in a line end, id and
      title are not empty, and the file written is the only one with its id and held no other note.  In
      any other, the file is never read, so only a file elsewhere with the very same note will do. */
  ghost predicate StaysSynced(tree: Tree, e: Review, now: int) {
    if Visible(e.project) then EntryGood(e) && OwnPlace(tree, e) else Copied(tree, NoteOf(e, now))
  }

  /** Exactly when an approval keeps the rows and the files the same. */
  lemma ApproveSyncs(w: World, s: State, id: string, now: int, ep: Endpoint)
    requires SyncedBut(s, iset{}) && Int64(now) && FindPending(s.queue, id).Some?
    requires FindPending(s.queue, id).value.0 in s.queue
    ensures var e := FindPending(s.queue, id).value.1;
            SyncedBut(ApproveSpec(w, s, id, now, ep, NoHalt).0, iset{}) <==> StaysSynced(s.tree, e, now)
  {
    hide NoteAt, WriteNote, FileName, TrimNewline, FileAt, AllParse, FindPending, Dropped, OnePlace;
    var e := FindPending(s.queue, id).value.1;
    var n := NoteOf(e, now);
    var t := ApproveSpec(w, s, id, now, ep, NoHalt).0;
    var row := IndexRow(w, ep, n);
    var u := s.(tree := WriteNote(s.tree, n), rows := s.rows[e.id := row]);
    assert t == u.(queue := t.queue);
    QueueAside(u, t);
    if !Visible(e.project) {
      HiddenApproval(s, t, e, now, row);
    } else if EntryGood(e) && OwnPlace(s.tree, e) {
      ApproveKeepsSync(s, iset{}, e, now, row);
    } else if SyncedBut(t, iset{}) {
      OnlyIfGood(s, t, e, now, row);
    }
  }

  /** A file outside the directories that are walked changes no note that a rebuild reads. */
  lemma HiddenNotes(tree: Tree, n: Note)
    requires !Visible(n.project) && EndsMd(n.file)
    ensures forall q, m :: NoteAt(WriteNote(tree, n), q, m) <==> NoteAt(tree, q, m)
    ensures AllParse(WriteNote(tree, n)) <==> AllParse(tree)
  {
    hide Marshal, ParseNote, EndsMd, WriteNote, Visible;
    var t := WriteNote(tree, n);
    forall q ensures FileAt(t, q) <==> FileAt(tree, q) { WrittenFiles(tree, n, q); }
    forall q | FileAt(t, q) ensures t[q.0][q.1] == tree[q.0][q.1] { WrittenFiles(tree, n, q); }
    hide FileAt;
  }

  lemma HiddenApproval(s: State, t: State, e: Review, now: int, row: Row)
    requires SyncedBut(s, iset{}) && !Visible(e.project) && row.note == NoteOf(e, now)
    requires t.tree == WriteNote(s.tree, NoteOf(e, now)) && t.rows == s.rows[e.id := row]
    ensures SyncedBut(t, iset{}) <==> Copied(s.tree, NoteOf(e, now))
  {
    var n := NoteOf(e, now);
    FileNameEnds(e.title, e.id);
    hide NoteAt, WriteNote, FileName, FileAt, AllParse, Visible;
    HiddenNotes(s.tree, n);
    if Copied(s.tree, n) {
      forall q, m | NoteAt(t.tree, q, m) ensures Indexed(t, m) { assert Indexed(s, m); assert Indexed(s, n); }
      forall id | id in t.rows ensures Backed(t, id) {
        if id != e.id { assert Backed(s, id); }
      }
    }
    if SyncedBut(t, iset{}) { assert Backed(t, e.id); }
  }

  lemma QueueAside(s: State, t: State)
    requires s.tree == t.tree && s.rows == t.rows
    ensures forall lag :: SyncedBut(s, lag) <==> SyncedBut(t, lag)
  {
    hide NoteAt, AllParse, OnePlace;
    forall lag ensures SyncedBut(s, lag) <==> SyncedBut(t, lag) {
      forall id | id in s.rows ensures Backed(s, id) <==> Backed(t, id) {}
      forall n ensures Indexed(s, n) <==> Indexed(t, n) {}
    }
  }

  lemma UnnamedIsRefused(tree: Tree, e: Review, now: int)
    requires Int64(now) && Visible(e.project) && (e.id == "" || e.title == "")
    ensures !AllParse(WriteNote(tree, NoteOf(e, now)))
  {
    hide Marshal, ParseNote, EndsMd, FileName, WriteNote;
    var n := NoteOf(e, now);
    FileNameEnds(e.title, e.id);
    WrittenFiles(tree, n, PlaceOf(e));
    RoundTrip(n);
    assert FileAt(WriteNote(tree, n), PlaceOf(e));
  }

  lemma OnlyIfGood(s: State, t: State, e: Review, now: int, row: Row)
    requires SyncedBut(s, iset{}) && Int64(now) && Visible(e.project) && row.note == NoteOf(e, now)
    requires t.tree == WriteNote(s.tree, NoteOf(e, now)) && t.rows == s.rows[e.id := row]
    requires SyncedBut(t, iset{})
    ensures EntryGood(e) && OwnPlace(s.tree, e)
  {
    hide NoteAt, WriteNote, FileName, FileAt, AllParse, TrimNewline;
    if e.id == "" || e.title == "" { UnnamedIsRefused(s.tree, e, now); }
    var written := NoteOf(e, now).(body := TrimNewline(e.text));
    forall q, m ensures NoteAt(t.tree, q, m) <==> if q == PlaceOf(e) then m == written else NoteAt(s.tree, q, m) {
      WrittenNotes(s.tree, e, now, q, m);
    }
    assert NoteAt(t.tree, PlaceOf(e), written);
    assert Indexed(t, written);
    forall q, m | NoteAt(s.tree, q, m) ensures m.id == e.id <==> q == PlaceOf(e) {
      if q != PlaceOf(e) {
        assert NoteAt(t.tree, q, m);
      } else if m.id != e.id {
        OverwrittenIsLost(s, t, q, m, e);
      }
    }
  }

  /** A note whose file is overwritten by another keeps its row and loses its file. */
  lemma OverwrittenIsLost(s: State, t: State, q: Place, m: Note, e: Review)
    requires SyncedBut(s, iset{}) && NoteAt(s.tree, q, m) && m.id != e.id
    requires forall r, n :: r != q && NoteAt(t.tree, r, n) ==> NoteAt(s.tree, r, n)
    requires forall n :: NoteAt(t.tree, q, n) ==> n.id == e.id
    requires forall id :: id in s.rows && id != e.id ==> id in t.rows && t.rows[id] == s.rows[id]
    ensures !SyncedBut(t, iset{})
  {
    hide NoteAt, AllParse;
    assert Indexed(s, m);
    if Backed(t, m.id) {
      var r :| NoteAt(t.tree, r, m);
    }
  }

  // ---------- a project above the root ----------

  /** The directory above the root, and the root itself, are valid projects, and neither is listed. */
  lemma RootIsValid()
    ensures ValidProject("..") == Some("..") && !Visible("..")
    ensures ValidProject(".") == Some(".") && !Visible(".")
  {
    assert TrimSpace("..") == ".." && TrimSpace(".") == ".";
  }

  /** The store after a note was captured for the project `..` and approved. */
  function EscapedNote(w: World, id: string, now: int, ep: Endpoint): State {
    var empty := State(map[], map[], map[], map[]);
    var captured := SaveSpec(empty, "..", "t", "x", id, [], now).0;
    ApproveSpec(w, captured, id, now, ep, NoHalt).0
  }

  /** A note captured for the project `..` is approved and indexed; no walk finds its file, and the next
      rebuild, with nothing failing, forgets it. */
  lemma EscapedNoteIsForgotten(w: World, id: string, now: int, ep: Endpoint)
    requires w.chunk > 0 && Int64(now)
    ensures var s := EscapedNote(w, id, now, ep);
            && s.rows.Keys == {id} && s.rows[id].note.project == ".." && s.rows[id].note.body == "x"
            && !SyncedBut(s, iset{})
            && ReindexSpec(w, s, "", NoEmbedder, NoFault).0.rows == map[]
  {
    hide EscapedNote, ReindexSpec, SyncedBut, RowOf;
    var s := EscapedNote(w, id, now, ep);
    var n := NoteOf(EscapedEntry(id, now), now);
    EscapedState(w, id, now, ep);
    RootIsValid();
    FileNameEnds("t", id);
    hide WriteNote, Visible, TrimSpace, FileName;
    HiddenNotes(map[], n);
    NothingThere();
    NothingRead(w, s);
    UnreadRow(s, id);
  }

  function EscapedEntry(id: string, now: int): Review { Review(id, "..", "t", "x", [], now) }

  lemma EscapedState(w: World, id: string, now: int, ep: Endpoint)
    requires Int64(now)
    ensures var s, n := EscapedNote(w, id, now, ep), NoteOf(EscapedEntry(id, now), now);
            s.tree == WriteNote(map[], n) && s.rows == map[id := IndexRow(w, ep, n)]
  {
    hide FileName, Marshal, ReviewLine, Pending, Dropped, Visible, FindPending, WriteNote;
    var e := EscapedEntry(id, now);
    EscapedCapture(id, now);
    hide SaveSpec;
    EmptyFile();
    CaptureAppends("", e);
    var queue := map["...jsonl" := "" + ReviewLine(e)];
    assert [] + [e] == [e];
    SolePending(queue, "...jsonl", e);
  }

  lemma EscapedCapture(id: string, now: int)
    ensures SaveSpec(State(map[], map[], map[], map[]), "..", "t", "x", id, [], now).0
         == State(map[], map["...jsonl" := "" + ReviewLine(EscapedEntry(id, now))], map[], map[])
  {
    hide ReviewLine;
    RootIsValid();
    assert TrimSpace("t") == "t";
    assert ".." + ".jsonl" == "...jsonl";
    hide TrimSpace;
  }

  lemma NothingRead(w: World, s: State)
    requires w.chunk > 0 && AllParse(s.tree) && forall q, m :: !NoteAt(s.tree, q, m)
    ensures ReindexSpec(w, s, "", NoEmbedder, NoFault).0.rows == map[]
  {
    assert TrimSpace("") == "";
    hide NoteAt, AllParse, TrimSpace;
    CollectExact(s.tree);
    hide Collect;
    var ns := Collect(s.tree, "").value;
    EmptyOrSome(ns);
  }

  lemma EmptyOrSome(ns: seq<Note>)
    ensures ns == [] || exists n :: n in ns
  {
    if ns != [] { assert ns[0] in ns; }
  }

  lemma UnreadRow(s: State, id: string)
    requires id in s.rows && forall q, m :: !NoteAt(s.tree, q, m)
    ensures !SyncedBut(s, iset{})
  {
    hide NoteAt, AllParse;
    assert SyncedBut(s, iset{}) ==> Backed(s, id);
  }

  lemma NothingThere()
    ensures AllParse(map[]) && forall q, m :: !NoteAt(map[], q, m)
  {
  }

  lemma SolePending(queue: map<string, string>, file: string, e: Review)
    requires queue.Keys == {file} && Pending(queue[file]) == [e]
    ensures FindPending(queue, e.id) == Some((file, e))
  {
    hide Pending;
    var names := SortedKeys(queue.Keys);
    assert |names| == 1 && names[0] in names;
    hide SortedKeys;
    assert names == [file];
  }

  // ---------- runs ----------

  predicate PendingAt(queue: map<string, string>, file: string, e: Review) {
    file in queue && e in Pending(queue[file])
  }

  /** Every captured entry can be approved without losing anything. */
  ghost predicate QueueOk(s: State) {
    && (forall file :: file in s.queue ==> Closed(s.queue[file]))
    && (forall file, e :: PendingAt(s.queue, file, e) ==> EntryGood(e) && OwnPlace(s.tree, e))
    && (forall f, g, a, b ::
          PendingAt(s.queue, f, a) && PendingAt(s.queue, g, b) && (a.id == b.id || PlaceOf(a) == PlaceOf(b)) ==>
          f == g && a == b)
  }

  /** A new entry's id is new, its text does not end in a line end, and its file name is free. */
  ghost predicate Unclaimed(s: State, e: Review) {
    && Visible(e.project) && e.id != "" && TrimNewline(e.text) == e.text && Int64(e.createdAt)
    && (forall file, b :: PendingAt(s.queue, file, b) ==> b.id != e.id && PlaceOf(b) != PlaceOf(e))
    && (forall q, m :: NoteAt(s.tree, q, m) ==> m.id != e.id && q != PlaceOf(e))
  }

  ghost predicate OpOk(s: State, op: Op) {
    match op
    case Save(project, title, text, id, reason, now) =>
      var e := SaveSpec(s, project, title, text, id, reason, now).1;
      e.Some? ==> Unclaimed(s, e.value)
    case Approve(_, now, _, _) => Int64(now)
    case _ => true
  }

  ghost predicate RunOk(w: World, s: State, ops: seq<Op>)
    requires w.chunk > 0
    decreases |ops|
  {
    ops == [] || (RunOk(w, s, ops[..|ops| - 1]) && OpOk(Run(w, s, ops[..|ops| - 1]), ops[|ops| - 1]))
  }

  ghost const EVERY: iset<string> := iset id: string | |id| >= 0

  /** The ids whose row and file may differ after an operation: an approval that wrote the file and
      no row, everything after a rebuild that failed or covered one project; an approval that got
      as far as the row, or a completed full rebuild, puts them right. */
  ghost function Lag(w: World, s: State, op: Op, lag: iset<string>): iset<string>
    requires w.chunk > 0
  {
    match op
    case Approve(id, now, ep, halt) =>
      (match FindPending(s.queue, id)
       case None => lag
       case Some((_, e)) =>
         if halt.WriteFails? then lag else if halt.IndexFails? then lag + iset{e.id} else lag - iset{e.id})
    case Reindex(project, ep, fault) =>
      if fault.DropFails? then lag
      else if ReindexSpec(w, s, project, ep, fault).1.Some? && TrimSpace(project) == "" then iset{}
      else EVERY
    case _ => lag
  }

  ghost function Lagging(w: World, s: State, ops: seq<Op>, lag: iset<string>): iset<string>
    requires w.chunk > 0
    decreases |ops|
  {
    if ops == [] then lag
    else
      var init := ops[..|ops| - 1];
      Lag(w, Run(w, s, init), ops[|ops| - 1], Lagging(w, s, init, lag))
  }

  lemma {:induction false} FindInFile(queue: map<string, string>, names: seq<string>, id: string)
    requires forall i :: 0 <= i < |names| ==> names[i] in queue
    ensures var r := FindIn(queue, names, id);
            r.Some? ==> r.value.0 in queue && r.value.1.id == id && r.value.1 in Pending(queue[r.value.0])
    decreases |names|
  {
    hide Pending, FirstWith;
    if names != [] {
      FirstHasId(Pending(queue[names[0]]), id);
      FindInFile(queue, names[1..], id);
    }
  }

  lemma FoundIsPending(queue: map<string, string>, id: string)
    ensures var r := FindPending(queue, id); r.Some? ==> PendingAt(queue, r.value.0, r.value.1) && r.value.1.id == id
  {
    hide Pending, FindIn;
    var names := SortedKeys(queue.Keys);
    hide SortedKeys;
    FindInFile(queue, names, id);
  }

  /** The first entry of the queue file with the id. */
  ghost predicate FirstIn(es: seq<Review>, id: string, e: Review) {
    exists i :: 0 <= i < |es| && es[i] == e && e.id == id && forall j :: 0 <= j < i ==> es[j].id != id
  }

  lemma {:induction false} FirstWithIs(es: seq<Review>, id: string)
    ensures match FirstWith(es, id)
            case Some(e) => FirstIn(es, id, e)
            case None => forall j :: 0 <= j < |es| ==> es[j].id != id
    decreases |es|
  {
    if es != [] {
      FirstWithIs(es[1..], id);
      if es[0].id != id {
        assert forall j :: 0 < j < |es| ==> es[j] == es[1..][j - 1];
        if FirstWith(es, id).Some? {
          var e := FirstWith(es, id).value;
          var i :| 0 <= i < |es[1..]| && es[1..][i] == e && e.id == id
                   && forall j :: 0 <= j < i ==> es[1..][j].id != id;
          assert es[i + 1] == e;
        }
      } else {
        assert es[0] == FirstWith(es, id).value;
      }
    }
  }

  ghost predicate NoneIn(queue: map<string, string>, f: string, id: string)
    requires f in queue
  {
    forall e :: e in Pending(queue[f]) ==> e.id != id
  }

  lemma {:induction false} FindInIs(queue: map<string, string>, names: seq<string>, id: string) returns (k: nat)
    requires forall i :: 0 <= i < |names| ==> names[i] in queue
    ensures match FindIn(queue, names, id)
            case Some((f, e)) =>
              k < |names| && names[k] == f && FirstIn(Pending(queue[f]), id, e)
              && forall i :: 0 <= i < k ==> NoneIn(queue, names[i], id)
            case None => forall i :: 0 <= i < |names| ==> NoneIn(queue, names[i], id)
    decreases |names|
  {
    hide Pending, FirstIn;
    k := 0;
    if names != [] {
      FirstWithIs(Pending(queue[names[0]]), id);
      if FirstWith(Pending(queue[names[0]]), id).None? {
        k := FindInIs(queue, names[1..], id);
        k := k + 1;
        assert forall i :: 0 < i < |names| ==> names[i] == names[1..][i - 1];
      }
    }
  }

  /** The entry found is the first with the id in the first file, in byte order of the names, that has one;
      none is found exactly when no file has one. */
  lemma FindIsFirst(queue: map<string, string>, id: string)
    ensures match FindPending(queue, id)
            case Some((f, e)) =>
              f in queue && FirstIn(Pending(queue[f]), id, e)
              && forall g :: g in queue && Before(g, f) ==> NoneIn(queue, g, id)
            case None => forall g :: g in queue ==> NoneIn(queue, g, id)
  {
    hide Pending, FirstIn, NoneIn, FindIn;
    var names := SortedKeys(queue.Keys);
    SortedKeysAscend(queue.Keys);
    hide SortedKeys, Before;
    var k := FindInIs(queue, names, id);
    forall g | g in queue ensures exists i :: 0 <= i < |names| && names[i] == g { assert g in names; }
    if FindPending(queue, id).Some? {
      forall g | g in queue && Before(g, names[k]) ensures NoneIn(queue, g, id) {
        var i :| 0 <= i < |names| && names[i] == g;
        NotBoth(g, names[k]);
      }
    }
  }

  lemma NotBoth(a: string, b: string)
    ensures !(Before(a, b) && Before(b, a)) && !Before(a, a)
  {
    LessIsBefore(a, b);
    LessIsBefore(b, a);
    LessIsBefore(a, a);
    LessTotal(a, b);
  }

  // ---------- what each operation keeps ----------

  /** Capturing an unclaimed entry leaves a queue that can be approved entry by entry. */
  lemma CaptureKeepsQueue(s: State, file: string, e: Review)
    requires QueueOk(s) && Unclaimed(s, e) && e.title != ""
    ensures QueueOk(s.(queue := s.queue[file := (if file in s.queue then s.queue[file] else "") + ReviewLine(e)]))
  {
    hide Pending, ReviewLine, FileName, TrimNewline, NoteAt, Ended;
    var text := if file in s.queue then s.queue[file] else "";
    var t := s.(queue := s.queue[file := text + ReviewLine(e)]);
    EmptyFile();
    CaptureAppends(text, e);
    forall f, a ensures PendingAt(t.queue, f, a) <==> PendingAt(s.queue, f, a) || (f == file && a == e) {
      if f == file { assert Pending(t.queue[f]) == Pending(text) + [e]; }
    }
    hide PendingAt;
    forall f, a | PendingAt(t.queue, f, a) ensures EntryGood(a) && OwnPlace(t.tree, a) {
      if !PendingAt(s.queue, f, a) { assert a == e; }
    }
  }

  lemma EmptyFile()
    ensures Pending("") == [] && Closed("")
  {
  }

  lemma SaveKeeps(s: State, lag: iset<string>, op: Op)
    requires SyncedBut(s, lag) && QueueOk(s) && op.Save? && OpOk(s, op)
    ensures var t := SaveSpec(s, op.project, op.title, op.text, op.saved, op.reason, op.at).0;
            SyncedBut(t, lag) && QueueOk(t)
  {
    hide SyncedBut, QueueOk, Unclaimed, TrimSpace, ReviewLine;
    var (t, captured) := SaveSpec(s, op.project, op.title, op.text, op.saved, op.reason, op.at);
    if captured.Some? {
      CaptureKeepsQueue(s, ValidProject(op.project).value + ".jsonl", captured.value);
      QueueAside(s, t);
    }
  }

  /** Dropping the entries of an id leaves the others as they were. */
  lemma DropKeepsQueue(s: State, file: string, id: string)
    requires QueueOk(s) && file in s.queue
    ensures QueueOk(s.(queue := Dropped(s.queue, file, id)))
    ensures forall f, a :: PendingAt(Dropped(s.queue, file, id), f, a) ==>
              PendingAt(s.queue, f, a) && (f == file ==> a.id != id)
  {
    hide Pending, KeptLines, Joined, LinesOf, FileName, TrimNewline, NoteAt, Ended;
    var t := s.(queue := Dropped(s.queue, file, id));
    var text := s.queue[file];
    DropIsExact(text, id);
    NoneLeft(Pending(text), id);
    forall f, a | PendingAt(t.queue, f, a) ensures PendingAt(s.queue, f, a) && (f == file ==> a.id != id) {
      if f == file { assert a in Without(Pending(text), id); }
    }
  }

  lemma RejectKeeps(s: State, lag: iset<string>, id: string, fails: bool)
    requires SyncedBut(s, lag) && QueueOk(s)
    ensures var t := RejectSpec(s, id, fails).0; SyncedBut(t, lag) && QueueOk(t)
  {
    hide SyncedBut, QueueOk, FindPending, Dropped, PendingAt;
    FoundIsPending(s.queue, id);
    var found := FindPending(s.queue, id);
    if found.Some? && found.value.0 in s.queue {
      DropKeepsQueue(s, found.value.0, found.value.1.id);
      QueueAside(s, s.(queue := Dropped(s.queue, found.value.0, found.value.1.id)));
    }
  }

  /** Writing an entry's file keeps the places of the entries still pending. */
  lemma WriteKeepsQueue(s: State, file: string, e: Review, now: int)
    requires QueueOk(s) && PendingAt(s.queue, file, e) && Int64(now)
    ensures QueueOk(s.(tree := WriteNote(s.tree, NoteOf(e, now))))
  {
    hide Pending, FileName, TrimNewline, NoteAt, Ended, WriteNote, NoteOf;
    var t := s.(tree := WriteNote(s.tree, NoteOf(e, now)));
    forall f, a | PendingAt(t.queue, f, a) ensures OwnPlace(t.tree, a) {
      assert PendingAt(s.queue, f, a) && OwnPlace(s.tree, a);
      PlaceStays(s.tree, e, now, a);
    }
  }

  lemma PlaceStays(tree: Tree, e: Review, now: int, a: Review)
    requires Int64(now) && EntryGood(e) && OwnPlace(tree, a) && (a.id == e.id <==> PlaceOf(a) == PlaceOf(e))
    ensures OwnPlace(WriteNote(tree, NoteOf(e, now)), a)
  {
    hide FileName, TrimNewline, NoteAt, WriteNote;
    forall q, m | NoteAt(WriteNote(tree, NoteOf(e, now)), q, m) ensures m.id == a.id <==> q == PlaceOf(a) {
      WrittenNotes(tree, e, now, q, m);
    }
  }

  lemma ApproveKeeps(w: World, s: State, lag: iset<string>, id: string, now: int, ep: Endpoint, halt: Halt)
    requires w.chunk > 0 && SyncedBut(s, lag) && QueueOk(s) && Int64(now)
    ensures var t := ApproveSpec(w, s, id, now, ep, halt).0;
            SyncedBut(t, Lag(w, s, Approve(id, now, ep, halt), lag)) && QueueOk(t)
  {
    hide SyncedBut, FindPending, Dropped, WriteNote, FileName, Pending, EntryGood, OwnPlace;
    FoundIsPending(s.queue, id);
    match FindPending(s.queue, id) {
      case None =>
      case Some((file, e)) =>
        var n := NoteOf(e, now);
        var written := s.(tree := WriteNote(s.tree, n));
        assert EntryGood(e) && OwnPlace(s.tree, e);
        WriteKeepsQueue(s, file, e, now);
        hide QueueOk;
        WriteKeepsSync(s, lag, e, now);
        var row := IndexRow(w, ep, n);
        ApproveKeepsSync(s, lag, e, now, row);
        var indexed := written.(rows := s.rows[e.id := row]);
        SameQueue(written, indexed);
        DropKeepsQueue(indexed, file, e.id);
        QueueAside(indexed, indexed.(queue := Dropped(indexed.queue, file, e.id)));
    }
  }

  lemma SameQueue(s: State, t: State)
    requires s.tree == t.tree && s.queue == t.queue
    ensures QueueOk(s) <==> QueueOk(t)
  {
    hide PendingAt, OwnPlace, EntryGood, PlaceOf;
  }

  lemma ReindexKeeps(w: World, s: State, lag: iset<string>, project: string, ep: Endpoint, fault: Fault)
    requires w.chunk > 0 && SyncedBut(s, lag) && QueueOk(s)
    ensures var t := ReindexSpec(w, s, project, ep, fault).0;
            SyncedBut(t, Lag(w, s, Reindex(project, ep, fault), lag)) && QueueOk(t)
  {
    hide QueueOk, AllParse, OnePlace, NoteAt, Collect, TrimSpace, Backed, Indexed;
    var r := ReindexSpec(w, s, project, ep, fault);
    assert r.0.tree == s.tree && r.0.queue == s.queue;
    SameQueue(s, r.0);
    if !fault.DropFails? && r.1.Some? && TrimSpace(project) == "" {
      hide ReindexSpec, SyncedBut;
      ReindexSyncs(w, s, project, ep, fault) by { TreeOk(s, lag); }
    }
  }

  lemma TreeOk(s: State, lag: iset<string>)
    requires SyncedBut(s, lag)
    ensures OnePlace(s.tree)
  {
    hide AllParse, NoteAt;
  }

  /** After any run of captures of unclaimed entries, approvals, rejections and rebuilds, any of
      which may fail midway: but for the ids that a failure left lagging, the rows are exactly the
      notes in the files. */
  lemma {:induction false} RunKeepsSync(w: World, s: State, ops: seq<Op>, lag: iset<string>)
    requires w.chunk > 0 && SyncedBut(s, lag) && QueueOk(s) && RunOk(w, s, ops)
    ensures SyncedBut(Run(w, s, ops), Lagging(w, s, ops, lag)) && QueueOk(Run(w, s, ops))
    decreases |ops|
  {
    if ops != [] {
      hide SyncedBut, QueueOk, Unclaimed, ApproveSpec, RejectSpec, SaveSpec, ReindexSpec, Lag;
      var init, op := ops[..|ops| - 1], ops[|ops| - 1];
      RunKeepsSync(w, s, init, lag);
      OpKeepsSync(w, Run(w, s, init), Lagging(w, s, init, lag), op);
    }
  }

  lemma OpKeepsSync(w: World, s: State, lag: iset<string>, op: Op)
    requires w.chunk > 0 && SyncedBut(s, lag) && QueueOk(s) && OpOk(s, op)
    ensures SyncedBut(Next(w, s, op), Lag(w, s, op, lag)) && QueueOk(Next(w, s, op))
  {
    hide SyncedBut, QueueOk, Unclaimed, ApproveSpec, RejectSpec, SaveSpec, ReindexSpec;
    match op {
      case Save(_, _, _, _, _, _) => SaveKeeps(s, lag, op);
      case Approve(id, now, ep, halt) => ApproveKeeps(w, s, lag, id, now, ep, halt);
      case Reject(id, fails) => RejectKeeps(s, lag, id, fails);
      case Reindex(project, ep, fault) => ReindexKeeps(w, s, lag, project, ep, fault);
    }
  }

  /** A run in which every operation completes and every rebuild covers all projects. */
  ghost predicate Completes(w: World, s: State, op: Op)
    requires w.chunk > 0
  {
    match op
    case Approve(_, _, _, halt) => halt.NoHalt?
    case Reindex(project, ep, fault) => TrimSpace(project) == "" && ReindexSpec(w, s, project, ep, fault).1.Some?
    case _ => true
  }

  ghost predicate AllComplete(w: World, s: State, ops: seq<Op>)
    requires w.chunk > 0
    decreases |ops|
  {
    ops == [] || (AllComplete(w, s, ops[..|ops| - 1]) && Completes(w, Run(w, s, ops[..|ops| - 1]), ops[|ops| - 1]))
  }

  lemma {:induction false} NothingLags(w: World, s: State, ops: seq<Op>)
    requires w.chunk > 0 && AllComplete(w, s, ops)
    ensures Lagging(w, s, ops, iset{}) == iset{}
    decreases |ops|
  {
    if ops != [] {
      hide FindPending, ReindexSpec, TrimSpace;
      NothingLags(w, s, ops[..|ops| - 1]);
    }
  }

  /** An approval that failed midway is repaired by approving again or by a full rebuild. */
  lemma ApprovalIsRepaired(w: World, s: State, id: string, now: int, ep: Endpoint, halt: Halt, again: Op)
    requires w.chunk > 0 && SyncedBut(s, iset{}) && QueueOk(s) && Int64(now)
    requires var t := Next(w, s, Approve(id, now, ep, halt));
             Completes(w, t, again) && OpOk(t, again) && (again.Reindex? || (again.Approve? && again.id == id))
    ensures SyncedBut(Next(w, Next(w, s, Approve(id, now, ep, halt)), again), iset{})
  {
    hide SyncedBut, QueueOk, OpOk, Completes, Next, Lag;
    var first := Approve(id, now, ep, halt);
    var t := Next(w, s, first);
    ApproveMayRun(s, id, now, ep, halt);
    OpKeepsSync(w, s, iset{}, first);
    OpKeepsSync(w, t, Lag(w, s, first, iset{}), again);
    RepairLeavesNone(w, s, id, now, ep, halt, again);
  }

  lemma ApproveMayRun(s: State, id: string, now: int, ep: Endpoint, halt: Halt)
    requires Int64(now)
    ensures OpOk(s, Approve(id, now, ep, halt))
  {
  }

  lemma RepairLeavesNone(w: World, s: State, id: string, now: int, ep: Endpoint, halt: Halt, again: Op)
    requires w.chunk > 0
    requires var t := Next(w, s, Approve(id, now, ep, halt));
             Completes(w, t, again) && (again.Reindex? || (again.Approve? && again.id == id))
    ensures var first := Approve(id, now, ep, halt);
            Lag(w, Next(w, s, first), again, Lag(w, s, first, iset{})) == iset{}
  {
    hide ReindexSpec, TrimSpace, ApproveSpec, FindPending;
    var t := Next(w, s, Approve(id, now, ep, halt));
    if again.Approve? && halt.IndexFails? { HaltedQueue(w, s, id, now, ep, halt); }
    if again.Reindex? { CompletedDropped(w, t, again.name, again.ep, again.fault); }
    forall x: string ensures iset{} - iset{x} == iset{} && iset{} + iset{x} - iset{x} == iset{} { NothingBut(x); }
  }

  lemma CompletedDropped(w: World, s: State, project: string, ep: Endpoint, fault: Fault)
    requires w.chunk > 0 && ReindexSpec(w, s, project, ep, fault).1.Some?
    ensures !fault.DropFails?
  {
    hide Collect, Embeds;
  }

  lemma NothingBut(x: string)
    ensures iset{} - iset{x} == iset{} && iset{} + iset{x} - iset{x} == iset{}
  {
  }

  lemma HaltedQueue(w: World, s: State, id: string, now: int, ep: Endpoint, halt: Halt)
    requires halt.IndexFails?
    ensures ApproveSpec(w, s, id, now, ep, halt).0.queue == s.queue
  {
    hide FindPending, WriteNote, Dropped, NoteOf;
  }
}
