/** Single steps of the loops over the notes store (internal/memory/notes.go). */
module NoteSteps {
  import opened Text
  import opened Names
  import opened NoteFile
  import opened Reviews
  import opened NoteIndex

  /** The text of a queue file; a file that is not there is empty. */
  function QueueText(queue: map<string, string>, file: string): string { if file in queue then queue[file] else "" }

  // ---------- steps of the loops ----------

  lemma DirStep(tree: Tree, dirs: seq<string>, project: string)
    requires dirs != [] && forall i :: 0 <= i < |dirs| ==> dirs[i] in tree
    ensures CollectDirs(tree, dirs, project)
         == if !Visible(dirs[0]) || (project != "" && dirs[0] != project) then CollectDirs(tree, dirs[1..], project)
            else Then(CollectFiles(tree[dirs[0]], SortedKeys(tree[dirs[0]].Keys)),
              CollectDirs(tree, dirs[1..], project))
  {
  }

  lemma FileStep(files: map<string, string>, names: seq<string>)
    requires names != [] && forall i :: 0 <= i < |names| ==> names[i] in files
    ensures CollectFiles(files, names)
         == if !EndsMd(names[0]) then CollectFiles(files, names[1..])
            else match ParseNote(files[names[0]])
                 case Parsed(n) => Then(Some([n]), CollectFiles(files, names[1..]))
                 case _ => None
  {
    hide ParseNote, EndsMd;
  }

  lemma NoneBefore(a: Option<seq<Note>>)
    ensures Then(Some([]), a) == a && Then(a, Some([])) == a
  {
    if a.Some? { assert [] + a.value == a.value && a.value + [] == a.value; }
  }

  lemma Regroup(a: seq<Note>, b: seq<Note>, c: Option<seq<Note>>)
    ensures Then(Some(a), Then(Some(b), c)) == Then(Some(a + b), c)
  {
    if c.Some? { assert a + (b + c.value) == a + b + c.value; }
  }

  lemma NoFiles(files: map<string, string>, names: seq<string>, found: seq<Note>)
    requires names == []
    ensures Then(Some(found), CollectFiles(files, names)) == Some(found)
  {
    NoneBefore(Some(found));
  }

  lemma NoDirs(tree: Tree, dirs: seq<string>, project: string, found: seq<Note>)
    requires dirs == []
    ensures Then(Some(found), CollectDirs(tree, dirs, project)) == Some(found)
  {
    NoneBefore(Some(found));
  }

  lemma AllListed(tree: Tree)
    ensures forall i :: 0 <= i < |SortedKeys(tree.Keys)| ==> SortedKeys(tree.Keys)[i] in tree
  {
    var dirs := SortedKeys(tree.Keys);
    hide SortedKeys;
    forall i | 0 <= i < |dirs| ensures dirs[i] in tree { assert dirs[i] in dirs; }
  }

  lemma EmbedsAsks(w: World, cache: map<CacheKey, Cached>, ep: Endpoint, es: seq<Entry>)
    requires w.chunk > 0
    ensures Embeds(w, cache, ep, es) == if ep.Endpoint? then Asked(w, ep, FromCache(cache, ep.model, es)) else es
  {
    hide Asked, FromCache;
  }

  lemma NothingAsked(w: World, cache: map<CacheKey, Cached>, ep: Endpoint)
    requires ep.Endpoint? && w.chunk > 0
    ensures Asked(w, ep, FromCache(cache, ep.model, [])) == []
  {
  }

  lemma {:induction false} FirstHasId(es: seq<Review>, id: string)
    ensures FirstWith(es, id).Some? ==> FirstWith(es, id).value.id == id && FirstWith(es, id).value in es
    ensures FirstWith(es, id).None? ==> forall e :: e in es ==> e.id != id
    decreases |es|
  {
    if es != [] { FirstHasId(es[1..], id); }
  }
}
