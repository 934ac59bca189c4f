/** The pruning walk that indexes a plain directory (internal/zoekttext/zoekttext.go). */
module DirWalk {
  import opened Text
  import opened Ignore

  /** A file that is no regular file is a link, a pipe or a device; one without content cannot be read. */
  datatype Node = Dir(entries: map<string, Node>) | File(regular: bool, size: nat, content: Option<string>)

  type Path = seq<string>

  /** What is added to the index; a file over the size limit is recorded without its content. */
  datatype Doc = Doc(path: Path, content: Option<string>)

  const CORE_SKIP := {".git", ".hg", ".svn", "node_modules", "vendor", "venv", ".venv", "__pycache__", ".tox",
                      ".pytest_cache", ".mypy_cache", ".ruff_cache", ".next", ".nuxt"}

  /** The walk does not enter the directory at this path. */
  predicate Pruned(rules: seq<Rule>, path: Path)
    requires path != []
  {
    path[|path| - 1] in CORE_SKIP || AnyMatches(rules, Joined(path), true)
  }

  /** What a file at this path adds. */
  function FileDoc(rules: seq<Rule>, max: nat, v: Node, path: Path): Option<Doc>
    requires v.File? && path != []
  {
    if AnyMatches(rules, Joined(path), false) || !v.regular then None
    else if v.size > max then Some(Doc(path, None))
    else if v.content.Some? then Some(Doc(path, v.content))
    else None
  }

  function WalkNode(rules: seq<Rule>, max: nat, v: Node, path: Path): seq<Doc>
    requires path != []
    decreases v, 1
  {
    match v
    case File(_, _, _) => (match FileDoc(rules, max, v, path) case Some(d) => [d] case None => [])
    case Dir(m) => if Pruned(rules, path) then [] else WalkEntries(rules, max, v, SortedKeys(m.Keys), path)
  }

  function WalkEntries(rules: seq<Rule>, max: nat, v: Node, ks: seq<string>, path: Path): seq<Doc>
    requires v.Dir? && forall i :: 0 <= i < |ks| ==> ks[i] in v.entries
    decreases v, 0, |ks|
  {
    if ks == [] then []
    else WalkNode(rules, max, v.entries[ks[0]], path + [ks[0]]) + WalkEntries(rules, max, v, ks[1..], path)
  }

  /** The index being built. */
  class Builder {
    var docs: seq<Doc>

    constructor ()
      ensures docs == []
    {
      docs := [];
    }

    /** The callback of the walk, at one file or directory. */
    method Visit(rules: seq<Rule>, max: nat, v: Node, path: Path)
      requires path != []
      modifies this
      ensures docs == old(docs) + WalkNode(rules, max, v, path)
      decreases v, 1
    {
      match v {
        case Dir(m) =>
          if path[|path| - 1] in CORE_SKIP || AnyMatches(rules, Joined(path), true) { return; }
          Entries(rules, max, v, path);
        case File(regular, size, content) =>
          if AnyMatches(rules, Joined(path), false) { return; }
          if !regular { return; }
          if size > max {
            docs := docs + [Doc(path, None)];
            return;
          }
          if content == None { return; }
          docs := docs + [Doc(path, content)];
      }
    }

    /** The entries of a directory, in name order. */
    method Entries(rules: seq<Rule>, max: nat, v: Node, path: Path)
      requires v.Dir?
      modifies this
      ensures docs == old(docs) + WalkEntries(rules, max, v, SortedKeys(v.entries.Keys), path)
      decreases v, 0
    {
      hide SortedKeys, WalkNode;
      var ks := SortedKeys(v.entries.Keys);
      ghost var was := docs;
      assert was + [] == was;
      for i := 0 to |ks|
        invariant was + WalkEntries(rules, max, v, ks, path) == docs + WalkEntries(rules, max, v, ks[i..], path)
      {
        assert ks[i..][1..] == ks[i + 1..];
        ghost var before, more := docs, WalkEntries(rules, max, v, ks[i + 1..], path);
        Visit(rules, max, v.entries[ks[i]], path + [ks[i]]);
        Regroup(before, WalkNode(rules, max, v.entries[ks[i]], path + [ks[i]]), more);
      }
      assert docs + [] == docs;
    }

    /** `IndexDir` of a directory: its own name is never tested. */
    method IndexDir(root: Node, ignores: seq<string>, max: nat)
      requires root.Dir?
      modifies this
      ensures docs == old(docs) + Indexed(root, ParseAll(ignores), max)
    {
      var rules := ParseIgnores(ignores);
      Entries(rules, max, root, []);
    }
  }

  lemma Regroup(a: seq<Doc>, b: seq<Doc>, c: seq<Doc>)
    ensures a + b + c == a + (b + c)
  {
  }

  function Indexed(root: Node, rules: seq<Rule>, max: nat): seq<Doc>
    requires root.Dir?
  {
    WalkEntries(rules, max, root, SortedKeys(root.entries.Keys), [])
  }

  // ---------- what is reached ----------

  function Lookup(v: Node, q: Path): Option<Node> {
    if q == [] then Some(v)
    else if v.Dir? && q[0] in v.entries then Lookup(v.entries[q[0]], q[1..])
    else None
  }

  /** No directory on the way, from `base` on, is pruned. */
  ghost predicate WayOpen(rules: seq<Rule>, base: Path, q: Path) {
    forall i :: 0 <= i < |q| ==> Enters(rules, base, q, i)
  }

  predicate Enters(rules: seq<Rule>, base: Path, q: Path, i: nat)
    requires i <= |q|
  {
    base + q[..i] == [] || !Pruned(rules, base + q[..i])
  }

  /** The document comes from the file at `q` below the node `v` at `base`. */
  ghost predicate Reached(rules: seq<Rule>, max: nat, v: Node, base: Path, q: Path, d: Doc) {
    && base + q != [] && Lookup(v, q).Some? && Lookup(v, q).value.File? && WayOpen(rules, base, q)
    && FileDoc(rules, max, Lookup(v, q).value, base + q) == Some(d)
  }

  ghost predicate ReachedBelow(rules: seq<Rule>, max: nat, v: Node, base: Path, d: Doc) {
    exists q :: Reached(rules, max, v, base, q, d)
  }

  lemma WayStep(rules: seq<Rule>, base: Path, q: Path)
    requires q != []
    ensures WayOpen(rules, base, q) <==> (base == [] || !Pruned(rules, base)) && WayOpen(rules, base + [q[0]], q[1..])
  {
    hide Pruned;
    assert base + q[..0] == base;
    forall i | 0 <= i < |q| - 1 ensures Enters(rules, base, q, i + 1) <==> Enters(rules, base + [q[0]], q[1..], i) {
      assert base + q[..i + 1] == base + [q[0]] + q[1..][..i];
    }
    if WayOpen(rules, base, q) {
      assert Enters(rules, base, q, 0);
      forall i | 0 <= i < |q[1..]| ensures Enters(rules, base + [q[0]], q[1..], i) {
        assert Enters(rules, base, q, i + 1);
      }
    }
    if (base == [] || !Pruned(rules, base)) && WayOpen(rules, base + [q[0]], q[1..]) {
      forall i | 0 <= i < |q| ensures Enters(rules, base, q, i) {
        if i > 0 { assert Enters(rules, base + [q[0]], q[1..], i - 1); }
      }
    }
  }

  lemma ReachedStep(rules: seq<Rule>, max: nat, v: Node, base: Path, q: Path, d: Doc)
    requires v.Dir? && q != []
    ensures Reached(rules, max, v, base, q, d) <==>
              q[0] in v.entries && (base == [] || !Pruned(rules, base))
              && Reached(rules, max, v.entries[q[0]], base + [q[0]], q[1..], d)
  {
    hide Pruned, FileDoc, WayOpen;
    WayStep(rules, base, q);
    assert base + q == base + [q[0]] + q[1..];
  }

  lemma {:induction false} WalkNodeReaches(rules: seq<Rule>, max: nat, v: Node, base: Path, d: Doc)
    requires base != []
    ensures d in WalkNode(rules, max, v, base) <==> ReachedBelow(rules, max, v, base, d)
    decreases v, 1
  {
    hide Pruned, FileDoc, SortedKeys;
    match v
    case File(_, _, _) =>
      assert base + [] == base;
      assert FileDoc(rules, max, v, base) == Some(d) <==> Reached(rules, max, v, base, [], d);
    case Dir(m) =>
      hide WalkEntries, Reached;
      NotItself(rules, max, v, base, d);
      if Pruned(rules, base) {
        forall q ensures !Reached(rules, max, v, base, q, d) {
          if q != [] { ReachedStep(rules, max, v, base, q, d); }
        }
      } else {
        WalkEntriesReach(rules, max, v, base, d);
      }
  }

  lemma NotItself(rules: seq<Rule>, max: nat, v: Node, base: Path, d: Doc)
    requires v.Dir?
    ensures !Reached(rules, max, v, base, [], d)
  {
    hide FileDoc, WayOpen;
  }

  /** A directory that is entered adds what its entries add. */
  lemma {:induction false} WalkEntriesReach(rules: seq<Rule>, max: nat, v: Node, base: Path, d: Doc)
    requires v.Dir? && (base == [] || !Pruned(rules, base))
    ensures d in WalkEntries(rules, max, v, SortedKeys(v.entries.Keys), base) <==> ReachedBelow(rules, max, v, base, d)
    decreases v, 0
  {
    hide Pruned, Reached, WalkEntries, SortedKeys, WalkNode;
    var ks := SortedKeys(v.entries.Keys);
    EntriesMember(rules, max, v, ks, base, d);
    forall k | k in v.entries ensures d in WalkNode(rules, max, v.entries[k], base + [k])
                                      <==> ReachedBelow(rules, max, v.entries[k], base + [k], d) {
      WalkNodeReaches(rules, max, v.entries[k], base + [k], d);
    }
    if ReachedBelow(rules, max, v, base, d) {
      var q :| Reached(rules, max, v, base, q, d);
      NotItself(rules, max, v, base, d);
      assert q != [];
      ReachedStep(rules, max, v, base, q, d);
      assert q[0] in ks;
      var i :| 0 <= i < |ks| && ks[i] == q[0];
      assert ReachedBelow(rules, max, v.entries[ks[i]], base + [ks[i]], d);
      assert EntryAdds(rules, max, v, ks, base, d, i);
    }
    if AnyEntryAdds(rules, max, v, ks, base, d) {
      var i :| 0 <= i < |ks| && EntryAdds(rules, max, v, ks, base, d, i);
      var k := ks[i];
      assert k in ks;
      var q :| Reached(rules, max, v.entries[k], base + [k], q, d);
      assert ([k] + q)[1..] == q;
      ReachedStep(rules, max, v, base, [k] + q, d);
    }
  }

  ghost predicate EntryAdds(rules: seq<Rule>, max: nat, v: Node, ks: seq<string>, base: Path, d: Doc, i: int)
    requires v.Dir? && (forall i :: 0 <= i < |ks| ==> ks[i] in v.entries) && 0 <= i < |ks|
  {
    d in WalkNode(rules, max, v.entries[ks[i]], base + [ks[i]])
  }

  ghost predicate AnyEntryAdds(rules: seq<Rule>, max: nat, v: Node, ks: seq<string>, base: Path, d: Doc)
    requires v.Dir? && forall i :: 0 <= i < |ks| ==> ks[i] in v.entries
  {
    exists i :: 0 <= i < |ks| && EntryAdds(rules, max, v, ks, base, d, i)
  }

  lemma {:induction false} EntriesMember(rules: seq<Rule>, max: nat, v: Node, ks: seq<string>, base: Path, d: Doc)
    requires v.Dir? && forall i :: 0 <= i < |ks| ==> ks[i] in v.entries
    ensures d in WalkEntries(rules, max, v, ks, base) <==> AnyEntryAdds(rules, max, v, ks, base, d)
    decreases |ks|
  {
    hide WalkNode;
    if ks != [] {
      EntriesMember(rules, max, v, ks[1..], base, d);
      if EntryAdds(rules, max, v, ks, base, d, 0) { assert AnyEntryAdds(rules, max, v, ks, base, d); }
      if AnyEntryAdds(rules, max, v, ks[1..], base, d) {
        var i :| 0 <= i < |ks[1..]| && EntryAdds(rules, max, v, ks[1..], base, d, i);
        assert EntryAdds(rules, max, v, ks, base, d, i + 1);
      }
      if AnyEntryAdds(rules, max, v, ks, base, d) {
        var i :| 0 <= i < |ks| && EntryAdds(rules, max, v, ks, base, d, i);
        if i > 0 { assert EntryAdds(rules, max, v, ks[1..], base, d, i - 1); }
      }
    }
  }

  /** The index holds exactly the regular files that no rule matches and that lie below no pruned
      directory: with their content, or without it when they are too large; a file that cannot be
      read is left out. */
  lemma WalkReaches(root: Node, rules: seq<Rule>, max: nat, d: Doc)
    requires root.Dir?
    ensures d in Indexed(root, rules, max) <==>
              && d.path != [] && Lookup(root, d.path).Some? && Lookup(root, d.path).value.File?
              && (forall i :: 0 < i < |d.path| ==> !Pruned(rules, d.path[..i]))
              && FileDoc(rules, max, Lookup(root, d.path).value, d.path) == Some(d)
  {
    hide Pruned, WalkEntries, SortedKeys;
    WalkEntriesReach(rules, max, root, [], d);
    forall q ensures Reached(rules, max, root, [], q, d) ==> q == d.path { assert [] + q == q; }
    assert [] + d.path == d.path;
    forall i | 0 <= i < |d.path| ensures Enters(rules, [], d.path, i) <==> i == 0 || !Pruned(rules, d.path[..i]) {
      assert [] + d.path[..i] == d.path[..i];
    }
    hide Enters, FileDoc, Lookup;
    assert WayOpen(rules, [], d.path) <==> forall i :: 0 < i < |d.path| ==> !Pruned(rules, d.path[..i]);
    assert ReachedBelow(rules, max, root, [], d) <==> Reached(rules, max, root, [], d.path, d);
  }

  /** Names of entries hold no slash. */
  predicate PlainNames(v: Node)
    decreases v
  {
    match v
    case Dir(m) => forall k :: k in m ==> '/' !in k && PlainNames(m[k])
    case File(_, _, _) => true
  }

  lemma {:induction false} PlainPath(v: Node, q: Path)
    requires PlainNames(v) && Lookup(v, q).Some?
    ensures forall i :: 0 <= i < |q| ==> '/' !in q[i]
    decreases |q|
  {
    if q != [] {
      PlainPath(v.entries[q[0]], q[1..]);
      forall i | 0 <= i < |q| ensures '/' !in q[i] {
        if i > 0 { assert q[i] == q[1..][i - 1]; }
      }
    }
  }

  /** The directory `i` names down is skipped by its name or covered by a rule. */
  ghost predicate Skips(rules: seq<Rule>, path: Path, i: int)
    requires 0 < i <= |path|
  {
    path[i - 1] in CORE_SKIP || AnyCovers(rules, path[..i], true)
  }

  ghost predicate NothingAboveSkipped(rules: seq<Rule>, path: Path) {
    forall i :: 0 < i < |path| ==> !Skips(rules, path, i)
  }

  /** What the index records for a regular file: its content, or none when it is too large; nothing when
      it is small enough and cannot be read. */
  predicate Recorded(v: Node, max: nat, content: Option<string>) {
    v.File? && v.regular && if v.size > max then content == None else v.content.Some? && content == v.content
  }

  /** The same in terms of names: the index holds exactly the regular files that no rule covers and that
      lie below no directory which is skipped by its name or covered by a rule. */
  lemma WalkIsExact(root: Node, rules: seq<Rule>, max: nat, d: Doc)
    requires root.Dir? && PlainNames(root)
    ensures d in Indexed(root, rules, max) <==>
              && d.path != [] && Lookup(root, d.path).Some? && Recorded(Lookup(root, d.path).value, max, d.content)
              && !AnyCovers(rules, d.path, false) && NothingAboveSkipped(rules, d.path)
  {
    hide Indexed, Lookup, AnyCovers, PlainNames, Pruned, FileDoc, Recorded, NothingAboveSkipped;
    WalkReaches(root, rules, max, d);
    if d.path != [] && Lookup(root, d.path).Some? && Lookup(root, d.path).value.File? {
      PlainPath(root, d.path);
      FileIsRecorded(rules, max, Lookup(root, d.path).value, d);
      WayIsOpen(rules, d.path);
    } else if d.path != [] && Lookup(root, d.path).Some? {
      OnlyFiles(Lookup(root, d.path).value, max, d.content);
    }
  }

  lemma OnlyFiles(v: Node, max: nat, content: Option<string>)
    ensures Recorded(v, max, content) ==> v.File?
  {
  }

  lemma FileIsRecorded(rules: seq<Rule>, max: nat, v: Node, d: Doc)
    requires v.File? && d.path != [] && forall i :: 0 <= i < |d.path| ==> '/' !in d.path[i]
    ensures FileDoc(rules, max, v, d.path) == Some(d) <==>
              Recorded(v, max, d.content) && !AnyCovers(rules, d.path, false)
  {
    hide AnyMatches, AnyCovers, Joined;
    AnyMatchesIsCovers(rules, d.path, false);
    assert d == Doc(d.path, d.content);
  }

  lemma WayIsOpen(rules: seq<Rule>, path: Path)
    requires forall i :: 0 <= i < |path| ==> '/' !in path[i]
    ensures (forall i :: 0 < i < |path| ==> !Pruned(rules, path[..i])) <==> NothingAboveSkipped(rules, path)
  {
    hide Pruned, Skips;
    forall i | 0 < i < |path| ensures Pruned(rules, path[..i]) <==> Skips(rules, path, i) {
      PrunedIsSkips(rules, path, i);
    }
    if forall i :: 0 < i < |path| ==> !Pruned(rules, path[..i]) {
      forall i | 0 < i < |path| ensures !Skips(rules, path, i) { assert !Pruned(rules, path[..i]); }
    }
    if NothingAboveSkipped(rules, path) {
      forall i | 0 < i < |path| ensures !Pruned(rules, path[..i]) { assert !Skips(rules, path, i); }
    }
  }

  lemma PrunedIsSkips(rules: seq<Rule>, path: Path, i: int)
    requires 0 < i <= |path| && forall j :: 0 <= j < |path| ==> '/' !in path[j]
    ensures Pruned(rules, path[..i]) <==> Skips(rules, path, i)
  {
    hide AnyMatches, AnyCovers, Joined;
    AnyMatchesIsCovers(rules, path[..i], true);
  }

  // ---------- in order, and nothing twice ----------

  ghost predicate DistinctDocs(ds: seq<Doc>) { forall i, j :: 0 <= i < j < |ds| ==> ds[i].path != ds[j].path }

  /** The paths agree for `n` names, and then `a` has the earlier one in byte order. */
  ghost predicate PartsAt(a: Path, b: Path, n: nat) {
    n < |a| && n < |b| && a[..n] == b[..n] && Before(a[n], b[n])
  }

  ghost predicate PathBefore(a: Path, b: Path) { exists n: nat :: PartsAt(a, b, n) }

  ghost predicate OrderedDocs(ds: seq<Doc>) {
    forall i, j :: 0 <= i < j < |ds| ==> PathBefore(ds[i].path, ds[j].path)
  }

  ghost predicate AllBelow(ds: seq<Doc>, base: Path) { forall i :: 0 <= i < |ds| ==> base <= ds[i].path }

  lemma NodeDocsBelow(rules: seq<Rule>, max: nat, v: Node, base: Path)
    requires base != []
    ensures AllBelow(WalkNode(rules, max, v, base), base)
  {
    hide Pruned, WalkNode;
    var ds := WalkNode(rules, max, v, base);
    forall i | 0 <= i < |ds| ensures base <= ds[i].path {
      WalkNodeReaches(rules, max, v, base, ds[i]);
      assert ds[i] in ds;
      var q :| Reached(rules, max, v, base, q, ds[i]);
      assert ds[i].path == base + q;
    }
  }

  lemma OrderedJoin(a: seq<Doc>, b: seq<Doc>, base: Path, k: string)
    requires OrderedDocs(a) && OrderedDocs(b) && AllBelow(a, base + [k])
    requires forall i :: 0 <= i < |b| ==> base <= b[i].path && |b[i].path| > |base| && Before(k, b[i].path[|base|])
    ensures OrderedDocs(a + b)
  {
    hide Before;
    var ds := a + b;
    forall i, j | 0 <= i < j < |ds| ensures PathBefore(ds[i].path, ds[j].path) {
      if i < |a| <= j {
        assert base + [k] <= a[i].path;
        assert a[i].path[|base|] == (base + [k])[|base|] == k;
        assert PartsAt(ds[i].path, ds[j].path, |base|);
      }
    }
  }

  lemma {:induction false} EntriesOrdered(rules: seq<Rule>, max: nat, v: Node, ks: seq<string>, base: Path)
    requires v.Dir? && (forall i :: 0 <= i < |ks| ==> ks[i] in v.entries) && Ascending(ks)
    ensures var ds := WalkEntries(rules, max, v, ks, base);
            && OrderedDocs(ds)
            && forall i :: 0 <= i < |ds| ==> base <= ds[i].path && |ds[i].path| > |base| && ds[i].path[|base|] in ks
    decreases v, 0, |ks|
  {
    hide WalkNode, OrderedDocs, Before;
    if ks == [] {
      NoDocs();
    } else {
      var k := ks[0];
      var a, b := WalkNode(rules, max, v.entries[k], base + [k]), WalkEntries(rules, max, v, ks[1..], base);
      NodeOrdered(rules, max, v.entries[k], base + [k]);
      NodeDocsBelow(rules, max, v.entries[k], base + [k]);
      EntriesOrdered(rules, max, v, ks[1..], base);
      forall i | 0 <= i < |b| ensures Before(k, b[i].path[|base|]) {
        var j :| 0 <= j < |ks[1..]| && ks[1..][j] == b[i].path[|base|];
        assert ks[j + 1] == ks[1..][j];
      }
      OrderedJoin(a, b, base, k);
      forall i | 0 <= i < |a| ensures base <= a[i].path && |a[i].path| > |base| && a[i].path[|base|] == k {
        assert base + [k] <= a[i].path;
        assert (base + [k])[|base|] == k && base <= base + [k];
      }
    }
  }

  lemma NoDocs()
    ensures OrderedDocs([])
  {
  }

  lemma {:induction false} NodeOrdered(rules: seq<Rule>, max: nat, v: Node, base: Path)
    requires base != []
    ensures OrderedDocs(WalkNode(rules, max, v, base))
    decreases v, 1
  {
    hide Pruned, FileDoc, SortedKeys, WalkEntries;
    match v
    case File(_, _, _) =>
    case Dir(m) =>
      SortedKeysAscend(m.Keys);
      EntriesOrdered(rules, max, v, SortedKeys(m.Keys), base);
  }

  /** The files stand in the index directory by directory in byte order of the names. */
  lemma IndexedInOrder(root: Node, rules: seq<Rule>, max: nat)
    requires root.Dir?
    ensures OrderedDocs(Indexed(root, rules, max))
  {
    hide WalkEntries, OrderedDocs, SortedKeys;
    SortedKeysAscend(root.entries.Keys);
    EntriesOrdered(rules, max, root, SortedKeys(root.entries.Keys), []);
  }

  lemma NotBeforeItself(a: Path)
    ensures !PathBefore(a, a)
  {
    forall n: nat ensures !PartsAt(a, a, n) {
      if n < |a| { LessIsBefore(a[n], a[n]); LessTotal(a[n], a[n]); }
    }
  }

  /** No file is indexed twice. */
  lemma IndexedOnce(root: Node, rules: seq<Rule>, max: nat)
    requires root.Dir?
    ensures DistinctDocs(Indexed(root, rules, max))
  {
    hide WalkEntries, Indexed, PathBefore;
    IndexedInOrder(root, rules, max);
    var ds := Indexed(root, rules, max);
    forall i, j | 0 <= i < j < |ds| ensures ds[i].path != ds[j].path {
      NotBeforeItself(ds[i].path);
    }
  }
}
