/** The notes store: markdown files, the review queue, the derived index and the embedding cache
    (internal/memory/notes.go). */
module NoteIndex {
  import opened Text
  import opened Fields
  import opened Lines
  import opened Names
  import opened NoteFile
  import opened Reviews
  import opened Vectors

  type Vec = seq<Word>
  type Tree = map<string, map<string, string>>     // project directory, file name, text
  type CacheKey = (string, string)                 // note path, model

  /** What lies outside the store: the digest of a body, and the vector a model gives a text (a
      reply may hold no vector for it). */
  datatype World = World(digest: string -> string, vector: (string, string) -> Option<Vec>, chunk: nat)

  /** The embedder of one operation: whether the first call succeeds, and whether chunk `c` does. */
  datatype Endpoint = NoEmbedder | Endpoint(model: string, up: bool, chunkUp: nat -> bool)

  /** A note being indexed. */
  datatype Entry = Entry(note: Note, digest: string, vec: Option<Vec>, model: string)

  datatype Row = Row(note: Note, blob: Option<seq<Byte>>, model: string)

  datatype Cached = Cached(digest: string, blob: seq<Byte>)

  datatype State = State(tree: Tree, queue: map<string, string>, rows: map<string, Row>, cache: map<CacheKey, Cached>)

  // ---------- reading the tree ----------

  function Then(a: Option<seq<Note>>, b: Option<seq<Note>>): Option<seq<Note>> {
    match (a, b)
    case (Some(x), Some(y)) => Some(x + y)
    case _ => None
  }

  function CollectFiles(files: map<string, string>, names: seq<string>): Option<seq<Note>>
    requires forall i :: 0 <= i < |names| ==> names[i] in files
  {
    if names == [] then Some([])
    else if !EndsMd(names[0]) then CollectFiles(files, names[1..])
    else
      match ParseNote(files[names[0]])
      case Parsed(n) => Then(Some([n]), CollectFiles(files, names[1..]))
      case _ => None
  }

  function CollectDirs(tree: Tree, dirs: seq<string>, project: string): Option<seq<Note>>
    requires forall i :: 0 <= i < |dirs| ==> dirs[i] in tree
  {
    if dirs == [] then Some([])
    else if !Visible(dirs[0]) || (project != "" && dirs[0] != project) then CollectDirs(tree, dirs[1..], project)
    else Then(CollectFiles(tree[dirs[0]], SortedKeys(tree[dirs[0]].Keys)), CollectDirs(tree, dirs[1..], project))
  }

  /** The notes of one project, or of all; nothing when a file cannot be parsed. */
  function Collect(tree: Tree, project: string): Option<seq<Note>> {
    CollectDirs(tree, SortedKeys(tree.Keys), project)
  }

  // ---------- embedding ----------

  function Rel(n: Note): string { n.project + "/" + n.file }

  function Fresh(w: World, ns: seq<Note>): seq<Entry> {
    seq(|ns|, i requires 0 <= i < |ns| => Entry(ns[i], w.digest(ns[i].body), None, ""))
  }

  /** The cached vector of an unchanged body. */
  function Hit(cache: map<CacheKey, Cached>, model: string, e: Entry): Option<Vec> {
    var k := (Rel(e.note), model);
    if k in cache && cache[k].digest == e.digest then Unpack(cache[k].blob) else None
  }

  function Filled(cache: map<CacheKey, Cached>, model: string, e: Entry): Entry {
    match Hit(cache, model, e)
    case Some(v) => e.(vec := Some(v), model := model)
    case None => e
  }

  function FromCache(cache: map<CacheKey, Cached>, model: string, es: seq<Entry>): (r: seq<Entry>)
    ensures |r| == |es|
  {
    seq(|es|, i requires 0 <= i < |es| => Filled(cache, model, es[i]))
  }

  /** The positions still without a vector, in order. */
  function Missing(es: seq<Entry>): (idx: seq<nat>)
    ensures forall p :: 0 <= p < |idx| ==> idx[p] < |es| && es[idx[p]].vec == None
    ensures forall i :: 0 <= i < |es| && es[i].vec == None ==> i in idx
    ensures forall p, q :: 0 <= p < q < |idx| ==> idx[p] < idx[q]
  {
    if es == [] then []
    else
      var last := |es| - 1;
      var before := Missing(es[..last]);
      if es[last].vec == None then before + [last] else before
  }

  function Embedded(w: World, model: string, e: Entry): Entry {
    e.(vec := w.vector(model, e.note.body), model := model)
  }

  /** What the endpoint makes of the entries: the `p`-th missing one is embedded when the first
      call and the call of its chunk succeed. */
  function Asked(w: World, ep: Endpoint, es: seq<Entry>): (r: seq<Entry>)
    requires ep.Endpoint? && w.chunk > 0
    ensures |r| == |es|
  {
    seq(|es|, i requires 0 <= i < |es| =>
      if es[i].vec == None && ep.up && ep.chunkUp(|Missing(es[..i])| / w.chunk) then Embedded(w, ep.model, es[i])
      else es[i])
  }

  /** Calls to the endpoint: none when every body is cached, else one to warm the model and, if
      that succeeds, one per chunk. */
  function Calls(w: World, ep: Endpoint, missing: nat): nat
    requires ep.Endpoint? && w.chunk > 0
  {
    if missing == 0 then 0 else if !ep.up then 1 else 1 + (missing + w.chunk - 1) / w.chunk
  }

  // ---------- tables ----------

  /** `encodeVecOrNil` */
  function Blob(v: Option<Vec>): Option<seq<Byte>> {
    if v.Some? && v.value != [] then Some(Pack(v.value)) else None
  }

  function RowOf(e: Entry): Row { Row(e.note, Blob(e.vec), e.model) }

  function Insert(rows: map<string, Row>, es: seq<Entry>): map<string, Row> {
    if es == [] then rows
    else
      var e := es[|es| - 1];
      Insert(rows, es[..|es| - 1])[e.note.id := RowOf(e)]
  }

  function DropModel(cache: map<CacheKey, Cached>, model: string): map<CacheKey, Cached> {
    map k | k in cache && k.1 != model :: cache[k]
  }

  function Store(cache: map<CacheKey, Cached>, model: string, es: seq<Entry>): map<CacheKey, Cached> {
    if es == [] then cache
    else
      var e := es[|es| - 1];
      var before := Store(cache, model, es[..|es| - 1]);
      if e.vec == None then before else before[(Rel(e.note), model) := Cached(e.digest, Pack(e.vec.value))]
  }

  // ---------- the operations ----------

  /** Where a rebuild fails. */
  datatype Fault = NoFault | DropFails | ReadFails | QueryFails | InsertFails

  function Embeds(w: World, cache: map<CacheKey, Cached>, ep: Endpoint, es: seq<Entry>): seq<Entry>
    requires w.chunk > 0
  {
    if ep.NoEmbedder? then es else Asked(w, ep, FromCache(cache, ep.model, es))
  }

  /** `Reindex`: the number of notes, or nothing on failure. */
  function ReindexSpec(w: World, s: State, project: string, ep: Endpoint, fault: Fault): (State, Option<nat>)
    requires w.chunk > 0
  {
    var emptied := s.(rows := map[]);
    if fault.DropFails? then (s, None)
    else
      match Collect(s.tree, TrimSpace(project))
      case None => (emptied, None)
      case Some(ns) =>
        var asks := ep.Endpoint? && ns != [];
        if fault.ReadFails? || fault.InsertFails? || (fault.QueryFails? && asks) then (emptied, None)
        else
          var es := Embeds(w, s.cache, ep, Fresh(w, ns));
          (emptied.(rows := Insert(map[], es),
                    cache := if ep.Endpoint? then Store(DropModel(s.cache, ep.model), ep.model, es) else s.cache),
           Some(|es|))
  }

  /** `findReview` over the queue files in name order. */
  function FindIn(queue: map<string, string>, names: seq<string>, id: string): Option<(string, Review)>
    requires forall i :: 0 <= i < |names| ==> names[i] in queue
  {
    if names == [] then None
    else
      match FirstWith(Pending(queue[names[0]]), id)
      case Some(e) => Some((names[0], e))
      case None => FindIn(queue, names[1..], id)
  }

  function FindPending(queue: map<string, string>, id: string): Option<(string, Review)> {
    FindIn(queue, SortedKeys(queue.Keys), id)
  }

  function Dropped(queue: map<string, string>, file: string, id: string): map<string, string>
    requires file in queue
  {
    queue[file := Joined(KeptLines(LinesOf(queue[file]), id))]
  }

  function NoteOf(e: Review, now: int): Note {
    Note(e.id, e.title, e.project, FileName(e.title, e.id), "project", now, now, false, e.text)
  }

  function WriteNote(tree: Tree, n: Note): Tree {
    tree[n.project := (if n.project in tree then tree[n.project] else map[])[n.file := Marshal(n)]]
  }

  /** Where an approval fails. */
  datatype Halt = NoHalt | WriteFails | IndexFails | DropLineFails

  /** `attachEmbedding` and `indexNote` */
  function IndexRow(w: World, ep: Endpoint, n: Note): Row {
    if ep.Endpoint? && ep.up then Row(n, Blob(w.vector(ep.model, n.body)), ep.model) else Row(n, None, "")
  }

  function ApproveSpec(w: World, s: State, id: string, now: int, ep: Endpoint, halt: Halt): (State, Option<Note>) {
    match FindPending(s.queue, id)
    case None => (s, None)
    case Some((file, e)) =>
      var n := NoteOf(e, now);
      if halt.WriteFails? || file !in s.queue then (s, None)
      else
        var written := s.(tree := WriteNote(s.tree, n));
        if halt.IndexFails? then (written, None)
        else
          var indexed := written.(rows := s.rows[n.id := IndexRow(w, ep, n)]);
          if halt.DropLineFails? then (indexed, None)
          else (indexed.(queue := Dropped(s.queue, file, e.id)), Some(n))
  }

  function RejectSpec(s: State, id: string, fails: bool): (State, bool) {
    match FindPending(s.queue, id)
    case None => (s, false)
    case Some((file, e)) =>
      if fails || file !in s.queue then (s, false) else (s.(queue := Dropped(s.queue, file, e.id)), true)
  }

  const MAX_TEXT := 262144

  /** `SaveToReview`: `id`, `reason` and `now` come from outside. */
  function SaveSpec(s: State, project: string, title: string, text: string, id: string, reason: seq<string>, now: int)
    : (State, Option<Review>)
  {
    match (ValidProject(project), TrimSpace(title))
    case (Some(p), t) =>
      if t == "" || |text| > MAX_TEXT then (s, None)
      else
        var e := Review(id, p, t, text, reason, now);
        var file := p + ".jsonl";
        (s.(queue := s.queue[file := (if file in s.queue then s.queue[file] else "") + ReviewLine(e)]), Some(e))
    case _ => (s, None)
  }
}
