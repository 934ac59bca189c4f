/** The trim has a single cut point in the order of `rowContainers`. */
module CutPoint {
  import opened Text
  import opened Json
  import opened Rows
  import opened RowsProofs
  import opened TrimLaws
  import opened RowCount

  // ---------- the order of the containers ----------

  /** Out of one node: members in byte order of their keys, elements by position. */
  ghost predicate HopBefore(a: Step, b: Step) {
    (a.Key? && b.Key? && Before(a.key, b.key)) || (a.Index? && b.Index? && a.idx < b.idx)
  }

  /** The paths part after `n` hops, and `a` takes the earlier one. */
  ghost predicate PartsAt(a: Path, b: Path, n: nat) {
    n < |a| && n < |b| && a[..n] == b[..n] && HopBefore(a[n], b[n])
  }

  /** `a` lies below `b`, or takes the earlier hop where they part. */
  ghost predicate ComesBefore(a: Path, b: Path) {
    (|b| < |a| && a[..|b|] == b) || exists n: nat :: PartsAt(a, b, n)
  }

  ghost predicate InOrder(cs: seq<Path>) {
    forall i, j :: 0 <= i < j < |cs| ==> cs[i] == cs[j] || ComesBefore(cs[i], cs[j])
  }

  ghost predicate AllBefore(a: seq<Path>, b: seq<Path>) {
    forall x, y :: x in a && y in b ==> x == y || ComesBefore(x, y)
  }

  lemma InOrderAppend(a: seq<Path>, b: seq<Path>)
    requires InOrder(a) && InOrder(b) && AllBefore(a, b)
    ensures InOrder(a + b)
  {
    hide ComesBefore;
    var cs := a + b;
    forall i, j | 0 <= i < j < |cs| ensures cs[i] == cs[j] || ComesBefore(cs[i], cs[j]) {
      if i < |a| <= j { assert a[i] in a && b[j - |a|] in b; }
    }
  }

  lemma FewInOrder(p: Path)
    ensures InOrder([]) && InOrder([p])
  {
  }

  /** Deeper containers first, then by the order of their hops. */
  lemma {:induction false} WalkInOrder(v: Json, path: Path)
    ensures InOrder(WalkRows(v, path))
    decreases v
  {
    FewInOrder(path);
    match v
    case Arr(es) =>
      if !RowArray(es) {
        ElemsInOrder(es, 0, path);
        ElemsBelow(es, 0, path);
        SameElems(es, 0, path);
        hide WalkElems, UniqueElems, InOrder;
        var own := if ObjectArray(es) then [path] else [];
        assert AllBefore(WalkElems(es, 0, path), own);
        InOrderAppend(WalkElems(es, 0, path), own);
      }
    case Obj(m) =>
      SortedKeysAscend(m.Keys);
      FieldsInOrder(v, SortedKeys(m.Keys), path);
    case _ =>
  }

  lemma PartHere(path: Path, a: Step, b: Step, x: Path, y: Path)
    requires Below(path, x) && Below(path, y) && |x| > |path| && |y| > |path|
    requires x[|path|] == a && y[|path|] == b && HopBefore(a, b)
    ensures ComesBefore(x, y)
  {
    hide HopBefore;
    assert PartsAt(x, y, |path|);
  }

  lemma {:induction false} ElemsInOrder(es: seq<Json>, i: nat, path: Path)
    ensures InOrder(WalkElems(es, i, path))
    decreases es
  {
    FewInOrder(path);
    if es != [] {
      var q := path + [Index(i)];
      WalkInOrder(es[0], q);
      ElemsInOrder(es[1..], i + 1, path);
      RowsBelow(es[0], q);
      SameRows(es[0], q);
      ElemsBelow(es[1..], i + 1, path);
      SameElems(es[1..], i + 1, path);
      hide WalkRows, UniqueRows, InOrder, UniqueElems, ComesBefore;
      var here := if es[0].Arr? || es[0].Obj? then WalkRows(es[0], q) else [];
      var later := WalkElems(es[1..], i + 1, path);
      forall x, y | x in here && y in later ensures ComesBefore(x, y) {
        BelowStep(path, Index(i), x);
        PartHere(path, Index(i), y[|path|], x, y);
      }
      InOrderAppend(here, later);
    }
  }

  lemma {:induction false} FieldsInOrder(v: Json, ks: seq<string>, path: Path)
    requires v.Obj? && (forall i :: 0 <= i < |ks| ==> ks[i] in v.fields) && Ascending(ks)
    ensures InOrder(WalkFields(v, ks, path))
    decreases v, |ks|
  {
    FewInOrder(path);
    if ks != [] {
      var q, x := path + [Key(ks[0])], v.fields[ks[0]];
      AscendingTail(ks);
      WalkInOrder(x, q);
      FieldsInOrder(v, ks[1..], path);
      RowsBelow(x, q);
      SameRows(x, q);
      FieldsBelow(v, ks[1..], path);
      SameFields(v, ks[1..], path);
      var again := if x.Arr? && ObjectArray(x.elems) then [q] else [];
      MemberInOrder(WalkRows(x, q), again, q);
      hide WalkRows, UniqueRows, InOrder, UniqueFields, ComesBefore, Ascending;
      var here, later := WalkRows(x, q) + again, WalkFields(v, ks[1..], path);
      forall a, b | a in here && b in later ensures ComesBefore(a, b) {
        BelowStep(path, Key(ks[0]), a);
        PartHere(path, Key(ks[0]), b[|path|], a, b);
      }
      InOrderAppend(here, later);
    }
  }

  lemma AscendingTail(ks: seq<string>)
    requires ks != [] && Ascending(ks)
    ensures Ascending(ks[1..]) && forall k :: k in ks[1..] ==> Before(ks[0], k)
  {
    hide Before;
  }

  /** Registering the root of a subtree once more, last, keeps the order. */
  lemma MemberInOrder(rows: seq<Path>, again: seq<Path>, q: Path)
    requires InOrder(rows) && (again == [] || again == [q])
    requires forall c :: c in rows ==> Below(q, c)
    ensures InOrder(rows + again)
    ensures forall c :: c in rows + again ==> Below(q, c)
  {
    FewInOrder(q);
    forall x, y | x in rows && y in again ensures x == y || ComesBefore(x, y) {
      if |x| == |q| { assert x[..|q|] == x; }
    }
    hide ComesBefore;
    InOrderAppend(rows, again);
  }

  /** No container lies strictly below an earlier one. */
  ghost predicate NestedFirst(cs: seq<Path>) {
    forall i, j :: 0 <= i < j < |cs| && Below(cs[i], cs[j]) ==> cs[i] == cs[j]
  }

  lemma BeforeIsNotBelow(a: Path, b: Path)
    requires ComesBefore(a, b)
    ensures !Below(a, b)
  {
    if exists n: nat :: PartsAt(a, b, n) {
      var n: nat :| PartsAt(a, b, n);
      BeforeItself(if a[n].Key? then a[n].key else "");
      assert a[n] != b[n];
      if |a| <= |b| { assert b[..|a|][n] == b[n]; }
    }
  }

  lemma BeforeItself(k: string)
    ensures !Before(k, k)
  {
  }

  lemma WalkNestedFirst(v: Json, path: Path)
    ensures NestedFirst(WalkRows(v, path))
  {
    WalkInOrder(v, path);
    hide WalkRows, ComesBefore;
    var cs := WalkRows(v, path);
    forall i, j | 0 <= i < j < |cs| && Below(cs[i], cs[j]) ensures cs[i] == cs[j] {
      if ComesBefore(cs[i], cs[j]) { BeforeIsNotBelow(cs[i], cs[j]); }
    }
  }

  // ---------- a drop in one container ----------

  lemma BelowCons(p: Path, c: Path)
    requires p != [] && c != []
    ensures p[0] == c[0] && Below(p[1..], c[1..]) ==> Below(p, c)
  {
    if p[0] == c[0] && Below(p[1..], c[1..]) {
      assert c[..|p|] == [c[0]] + c[1..][..|p| - 1] == p;
    }
  }

  lemma {:induction false} PlugElsewhere(root: Json, p: Path, x: seq<Json>, c: Path)
    requires p != [] && Resolve(root, p).Some? && !Below(p, c)
    ensures |Get(Plug(root, p, Arr(x)), c)| == |Get(root, c)|
    decreases |p|
  {
    if c != [] {
      assert p[0] != c[0] || !Below(p[1..], c[1..]) by { BelowCons(p, c); }
      match p[0]
      case Key(k) => if c[0] == p[0] && |p| > 1 { PlugElsewhere(root.fields[k], p[1..], x, c[1..]); }
      case Index(i) => if c[0] == p[0] && |p| > 1 { PlugElsewhere(root.elems[i], p[1..], x, c[1..]); }
    }
  }

  /** Shortening what a droppable path leads to shortens the tree. */
  lemma {:induction false} PlugShortens(root: Json, p: Path, x: Json)
    requires Resolve(root, p).Some? && Descends(root, p) && Shortened(x, Resolve(root, p).value)
    ensures Shortened(Plug(root, p, x), root)
    decreases |p|
  {
    if p != [] {
      match p[0]
      case Key(k) =>
        PlugShortens(root.fields[k], p[1..], x);
        forall j | j in root.fields && j != k ensures Shortened(root.fields[j], root.fields[j]) {
          ShortenedSelf(root.fields[j]);
        }
      case Index(i) =>
        PlugShortens(root.elems[i], p[1..], x);
        forall j | 0 <= j < |root.elems| && j != i ensures Shortened(root.elems[j], root.elems[j]) {
          ShortenedSelf(root.elems[j]);
        }
    }
  }

  lemma PrefixShortens(es: seq<Json>, n: nat)
    requires n <= |es| && (RowArray(es) || ObjectArray(es))
    ensures Shortened(Arr(es[..n]), Arr(es))
  {
    forall i | 0 <= i < n ensures Shortened(es[..n][i], es[i]) { ShortenedSelf(es[i]); }
  }

  /** Cutting a droppable container shortens the tree: what was empty stays empty, what was droppable
      stays so. */
  lemma CutShortens(root: Json, p: Path, n: nat)
    requires Droppable(root, p) && Get(root, p) != [] && n <= |Get(root, p)|
    ensures Resolve(root, p).Some? && Shortened(Plug(root, p, Arr(Get(root, p)[..n])), root)
  {
    var arr := Get(root, p);
    assert Resolve(root, p) == Some(Arr(arr));
    PrefixShortens(arr, n);
    hide Shortened;
    PlugShortens(root, p, Arr(arr[..n]));
  }

  ghost predicate Ready(root: Json, cs: seq<Path>) {
    AllDroppable(root, cs) && NestedFirst(cs) && forall i :: 0 <= i < |cs| ==> cs[i] != []
  }

  /** One round of the trim: the array at the head of the list is cut, the later ones keep their
      length, and what was empty stays empty. */
  lemma Round(root: Json, cs: seq<Path>, e: nat) returns (next: Json)
    requires Ready(root, cs) && cs != [] && 0 < e <= |Get(root, cs[0])|
    ensures SetRows(root, cs[0], Get(root, cs[0])[..|Get(root, cs[0])| - e]) == Some(next)
    ensures Get(next, cs[0]) == Get(root, cs[0])[..|Get(root, cs[0])| - e]
    ensures forall i :: 0 < i < |cs| && cs[i] != cs[0] ==> |Get(next, cs[i])| == |Get(root, cs[i])|
    ensures forall c :: Get(root, c) == [] ==> Get(next, c) == []
    ensures Ready(next, cs[1..])
  {
    var p := cs[0];
    var arr := Get(root, p);
    var n := |arr| - e;
    assert Droppable(root, p);
    SetReplaces(root, p, arr[..n]);
    CutShortens(root, p, n);
    next := Plug(root, p, Arr(arr[..n]));
    ResolvePlug(root, p, Arr(arr[..n]));
    assert Get(next, p) == arr[..n];
    hide Plug, Shortened, Resolve, SetRows, Droppable, Descends, Get;
    forall i | 0 < i < |cs| && cs[i] != p ensures |Get(next, cs[i])| == |Get(root, cs[i])| {
      PlugElsewhere(root, p, arr[..n], cs[i]);
    }
    forall c | Get(root, c) == [] ensures Get(next, c) == [] {
      if Get(next, c) != [] { ShortenedGet(next, root, c); }
    }
    forall i | 0 < i < |cs| ensures Droppable(next, cs[i]) { DroppableStays(next, root, cs[i]); }
    assert forall i :: 0 <= i < |cs[1..]| ==> cs[1..][i] == cs[i + 1];
  }

  lemma {:induction false} EmptyStaysEmpty(root: Json, cs: seq<Path>, d: nat, c: Path)
    requires Ready(root, cs) && Get(root, c) == []
    ensures Get(DropAlong(root, cs, d), c) == []
    decreases |cs|
  {
    hide Get, Ready, SetRows;
    if cs != [] && d > 0 {
      ReadyTail(root, cs);
      var arr := Get(root, cs[0]);
      if arr == [] {
        EmptyStaysEmpty(root, cs[1..], d, c);
      } else {
        var e := Min(d, |arr|);
        var next := Round(root, cs, e);
        EmptyStaysEmpty(next, cs[1..], d - e, c);
      }
    }
  }

  lemma ReadyTail(root: Json, cs: seq<Path>)
    requires Ready(root, cs) && cs != []
    ensures Ready(root, cs[1..])
  {
    assert forall i :: 0 <= i < |cs[1..]| ==> cs[1..][i] == cs[i + 1];
  }

  // ---------- the cut point ----------

  /** Before `j` every container is empty; later containers have kept their length. */
  ghost predicate CutAt(root: Json, cs: seq<Path>, final: Json, j: nat) {
    j <= |cs|
    && (forall i :: 0 <= i < j ==> Get(final, cs[i]) == [])
    && (j < |cs| ==> |Get(final, cs[j])| <= |Get(root, cs[j])|)
    && (forall i :: j < i < |cs| && cs[i] !in cs[..j + 1] ==> |Get(final, cs[i])| == |Get(root, cs[i])|)
  }

  lemma {:induction false} DropAlongCuts(root: Json, cs: seq<Path>, d: nat) returns (j: nat)
    requires Ready(root, cs)
    ensures CutAt(root, cs, DropAlong(root, cs, d), j)
    decreases |cs|
  {
    hide Get, Ready, SetRows, Below;
    var final := DropAlong(root, cs, d);
    if cs == [] || d == 0 {
      j := 0;
    } else {
      ReadyTail(root, cs);
      var arr := Get(root, cs[0]);
      if arr == [] {
        var j' := DropAlongCuts(root, cs[1..], d);
        EmptyStaysEmpty(root, cs[1..], d, cs[0]);
        CutAtCons(root, root, cs, final, j');
        j := j' + 1;
      } else {
        var e := Min(d, |arr|);
        var next := Round(root, cs, e);
        if e < |arr| {
          DropNone(next, cs[1..]);
          j := 0;
        } else {
          var j' := DropAlongCuts(next, cs[1..], d - e);
          EmptyStaysEmpty(next, cs[1..], d - e, cs[0]);
          CutAtCons(root, next, cs, final, j');
          j := j' + 1;
        }
      }
    }
  }

  lemma CutAtCons(root: Json, next: Json, cs: seq<Path>, final: Json, j: nat)
    requires cs != [] && CutAt(next, cs[1..], final, j) && Get(final, cs[0]) == []
    requires forall i :: 0 < i < |cs| && cs[i] != cs[0] ==> |Get(next, cs[i])| == |Get(root, cs[i])|
    ensures CutAt(root, cs, final, j + 1)
  {
    hide Get;
    assert forall i :: 0 <= i < |cs[1..]| ==> cs[1..][i] == cs[i + 1];
    forall i | j + 1 < i < |cs| && cs[i] !in cs[..j + 2] ensures |Get(final, cs[i])| == |Get(root, cs[i])| {
      assert cs[0] in cs[..j + 2];
      assert cs[..j + 2] == [cs[0]] + cs[1..][..j + 1];
      assert cs[1..][i - 1] == cs[i];
    }
    if j + 1 < |cs| && cs[j + 1] == cs[0] {
      assert cs[1..][j] == cs[0];
    }
    if 0 < j + 1 {
      forall i | 0 <= i < j + 1 ensures Get(final, cs[i]) == [] {
        if i > 0 { assert cs[i] == cs[1..][i - 1]; }
      }
    }
  }

  /** `final` is `root` except that, in the order of the containers, all before `j` are emptied, the
      one at `j` is cut and all later ones keep their elements: tables are cut to a prefix with their
      rows verbatim, records to a prefix with nothing shortened inside but containers, an array that is
      no container keeps its length, and whatever holds no container up to `j` is as it was. */
  ghost predicate CutTree(root: Json, cs: seq<Path>, final: Json, j: nat) {
    && Shortened(final, root)
    && CutAt(root, cs, final, j)
    && (forall p :: Resolve(final, p).Some? && Resolve(final, p).value.Arr? && p !in cs ==>
         |Get(final, p)| == |Get(root, p)|)
    && (forall i :: 0 <= i < |cs| ==> KeepsPrefix(Get(final, cs[i]), Get(root, cs[i])))
    && (forall p :: Resolve(final, p).Some? && !HoldsCut(cs, j, p) ==> Resolve(final, p) == Resolve(root, p))
  }

  /** A container up to `j` is what the path leads to, or lies below it. */
  ghost predicate HoldsCut(cs: seq<Path>, j: nat, p: Path) { exists i :: 0 <= i < |cs| && i <= j && p <= cs[i] }

  /** A prefix; the rows of a table as they were, records shortened at most inside. */
  ghost predicate KeepsPrefix(kept: seq<Json>, all: seq<Json>) {
    && |kept| <= |all|
    && (RowArray(all) ==> kept == all[..|kept|])
    && forall k :: 0 <= k < |kept| ==> Shortened(kept[k], all[k])
  }

  lemma {:induction false} ShortenedPrefix(a: Json, b: Json, p: Path)
    requires Shortened(a, b)
    ensures KeepsPrefix(Get(a, p), Get(b, p))
    decreases |p|
  {
    if Get(a, p) != [] {
      if p == [] {
        forall k | 0 <= k < |a.elems| ensures Shortened(a.elems[k], b.elems[k]) { ShortenedElem(a, b.elems, k); }
      } else {
        match p[0]
        case Key(k) => ShortenedPrefix(a.fields[k], b.fields[k], p[1..]);
        case Index(i) =>
          ShortenedElem(a, b.elems, i);
          ShortenedPrefix(a.elems[i], b.elems[i], p[1..]);
      }
    }
  }

  /** For every object payload and every number of dropped elements the trimmed tree is the input
      except for one cut point in the order of the containers. */
  lemma SingleCutPoint(root: Json, d: nat) returns (j: nat)
    requires root.Obj? && d <= Capacity(root)
    ensures CutTree(root, RowContainers(root), Trim(root, d), j)
  {
    var cs := RowContainers(root);
    var final := Trim(root, d);
    ObjectReady(root);
    hide WalkRows, Trim, Capacity, Ready, CutAt, Shortened, Resolve, KeepsPrefix;
    j := DropAlongCuts(root, cs, d);
    DropAlongIsTrim(root, d);
    TrimShortens(root, d);
    forall p | Resolve(final, p).Some? && Resolve(final, p).value.Arr? && p !in cs
      ensures |Get(final, p)| == |Get(root, p)|
    {
      NoContainer(root, final, p);
    }
    forall i | 0 <= i < |cs| ensures KeepsPrefix(Get(final, cs[i]), Get(root, cs[i])) {
      ShortenedPrefix(final, root, cs[i]);
    }
    forall p | Resolve(final, p).Some? && !HoldsCut(cs, j, p) ensures Resolve(final, p) == Resolve(root, p) {
      Untouched(root, cs, final, j, p);
    }
  }

  /** Where every container up to `j` lies elsewhere nothing changed. */
  lemma Untouched(root: Json, cs: seq<Path>, final: Json, j: nat, p: Path)
    requires Shortened(final, root) && CutAt(root, cs, final, j) && Resolve(final, p).Some? && !HoldsCut(cs, j, p)
    requires forall q :: Resolve(final, q).Some? && Resolve(final, q).value.Arr? && q !in cs ==>
               |Get(final, q)| == |Get(root, q)|
    ensures Resolve(final, p) == Resolve(root, p)
  {
    hide Shortened, Resolve;
    ShortenedAt(final, root, p);
    var a, b := Resolve(final, p).value, Resolve(root, p).value;
    forall q | Resolve(a, q).Some? && Resolve(a, q).value.Arr? ensures |Get(a, q)| == |Get(b, q)| {
      ResolveAppend(final, p, q);
      ResolveAppend(root, p, q);
      assert Get(final, p + q) == Get(a, q) && Get(root, p + q) == Get(b, q);
      if p + q in cs {
        var i :| 0 <= i < |cs| && cs[i] == p + q;
        LaterOnly(cs, j, p, q, i);
      }
    }
    SameLengths(a, b);
  }

  lemma LaterOnly(cs: seq<Path>, j: nat, p: Path, q: Path, i: nat)
    requires i < |cs| && cs[i] == p + q && j <= |cs| && !HoldsCut(cs, j, p)
    ensures j < i && cs[i] !in cs[..j + 1]
  {
    assert p <= p + q;
  }

  ghost predicate LengthsKept(a: Json, b: Json) {
    forall q :: Resolve(a, q).Some? && Resolve(a, q).value.Arr? ==> |Get(a, q)| == |Get(b, q)|
  }

  /** With every array at its old length nothing changed at all. */
  lemma {:induction false} SameLengths(a: Json, b: Json)
    requires Shortened(a, b) && LengthsKept(a, b)
    ensures a == b
    decreases b
  {
    match b
    case Arr(bs) =>
      hide LengthsKept;
      SameLength(a, bs);
      forall i | 0 <= i < |bs| ensures a.elems[i] == bs[i] {
        ShortenedElem(a, bs, i);
        LengthsBelow(a, b, Index(i), a.elems[i], bs[i]);
        SameLengths(a.elems[i], bs[i]);
      }
    case Obj(m) =>
      hide LengthsKept;
      forall k | k in m ensures a.fields[k] == m[k] {
        LengthsBelow(a, b, Key(k), a.fields[k], m[k]);
        SameLengths(a.fields[k], m[k]);
      }
    case _ =>
  }

  lemma SameLength(a: Json, bs: seq<Json>)
    requires a.Arr? && LengthsKept(a, Arr(bs))
    ensures |a.elems| == |bs|
  {
    assert Resolve(a, []) == Some(a) && Get(a, []) == a.elems && Get(Arr(bs), []) == bs;
  }

  lemma LengthsBelow(a: Json, b: Json, s: Step, x: Json, y: Json)
    requires LengthsKept(a, b) && Resolve(a, [s]) == Some(x) && Resolve(b, [s]) == Some(y)
    ensures LengthsKept(x, y)
  {
    hide Resolve;
    forall q | Resolve(x, q).Some? && Resolve(x, q).value.Arr? ensures |Get(x, q)| == |Get(y, q)| {
      ResolveAppend(a, [s], q);
      ResolveAppend(b, [s], q);
      assert Get(a, [s] + q) == Get(x, q) && Get(b, [s] + q) == Get(y, q);
    }
  }

  lemma NoContainer(root: Json, final: Json, p: Path)
    requires Shortened(final, root) && Resolve(final, p).Some? && Resolve(final, p).value.Arr?
    requires p !in RowContainers(root)
    ensures |Get(final, p)| == |Get(root, p)|
  {
    hide WalkRows, Shortened, Resolve;
    ShortenedPrefix(final, root, p);
    assert [] + p == p;
    if |Get(final, p)| < |Get(root, p)| { ShorterIsContainer(final, root, [], p); }
  }

  lemma ObjectReady(root: Json)
    requires root.Obj?
    ensures Ready(root, RowContainers(root))
  {
    var cs := RowContainers(root);
    WalkDroppable(root, [], root);
    WalkNestedFirst(root, []);
    SameRows(root, []);
    FieldsBelow(root, SortedKeys(root.fields.Keys), []);
    assert UniqueRows(root, []) == UniqueFields(root, SortedKeys(root.fields.Keys), []);
    hide UniqueRows, UniqueFields, WalkRows, AllDroppable, NestedFirst, SortedKeys;
    forall i | 0 <= i < |cs| ensures cs[i] != [] { assert cs[i] in cs; }
  }
}
