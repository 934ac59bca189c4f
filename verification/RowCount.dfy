/** `rows_dropped` counts elements removed over distinct containers, although `walkRows`
    registers some containers twice. */
module RowCount {
  import opened Text
  import opened Json
  import opened Rows
  import opened RowsProofs
  import opened TrimLaws

  /** The registered containers, each once, in the order of their first use. */
  function UniqueRows(v: Json, path: Path): seq<Path>
    decreases v
  {
    match v
    case Arr(es) =>
      if RowArray(es) then [path]
      else UniqueElems(es, 0, path) + (if ObjectArray(es) then [path] else [])
    case Obj(m) => UniqueFields(v, SortedKeys(m.Keys), path)
    case _ => []
  }

  function UniqueElems(es: seq<Json>, i: nat, path: Path): seq<Path>
    decreases es
  {
    if es == [] then [] else UniqueRows(es[0], path + [Index(i)]) + UniqueElems(es[1..], i + 1, path)
  }

  function UniqueFields(v: Json, ks: seq<string>, path: Path): seq<Path>
    requires v.Obj? && forall i :: 0 <= i < |ks| ==> ks[i] in v.fields
    decreases v, |ks|
  {
    if ks == [] then []
    else UniqueRows(v.fields[ks[0]], path + [Key(ks[0])]) + UniqueFields(v, ks[1..], path)
  }

  /** How many elements the given containers hold in `root`. */
  function Held(root: Json, cs: seq<Path>): nat {
    if cs == [] then 0 else |Get(root, cs[0])| + Held(root, cs[1..])
  }

  lemma {:induction false} HeldAppend(root: Json, a: seq<Path>, b: seq<Path>)
    ensures Held(root, a + b) == Held(root, a) + Held(root, b)
  {
    if a == [] {
      assert a + b == b;
    } else {
      assert (a + b)[1..] == a[1..] + b;
      HeldAppend(root, a[1..], b);
    }
  }

  // ---------- the same containers, each once ----------

  lemma {:induction false} SameRows(v: Json, path: Path)
    ensures forall c :: c in WalkRows(v, path) <==> c in UniqueRows(v, path)
    decreases v
  {
    match v
    case Arr(es) => SameElems(es, 0, path);
    case Obj(m) => SameFields(v, SortedKeys(m.Keys), path);
    case _ =>
  }

  lemma {:induction false} SameElems(es: seq<Json>, i: nat, path: Path)
    ensures forall c :: c in WalkElems(es, i, path) <==> c in UniqueElems(es, i, path)
    decreases es
  {
    if es != [] {
      SameRows(es[0], path + [Index(i)]);
      SameElems(es[1..], i + 1, path);
    }
  }

  lemma {:induction false} SameFields(v: Json, ks: seq<string>, path: Path)
    requires v.Obj? && forall i :: 0 <= i < |ks| ==> ks[i] in v.fields
    ensures forall c :: c in WalkFields(v, ks, path) <==> c in UniqueFields(v, ks, path)
    decreases v, |ks|
  {
    if ks != [] {
      var p, x := path + [Key(ks[0])], v.fields[ks[0]];
      SameRows(x, p);
      SameFields(v, ks[1..], path);
      assert x.Arr? && ObjectArray(x.elems) ==> p in WalkRows(x, p);
    }
  }

  ghost predicate Below(p: Path, c: Path) { |p| <= |c| && c[..|p|] == p }

  /** Every container found in a subtree lies at or below that subtree. */
  lemma {:induction false} RowsBelow(v: Json, path: Path)
    ensures forall c :: c in UniqueRows(v, path) ==> Below(path, c)
    decreases v
  {
    match v
    case Arr(es) => ElemsBelow(es, 0, path);
    case Obj(m) => FieldsBelow(v, SortedKeys(m.Keys), path);
    case _ =>
  }

  lemma BelowStep(path: Path, s: Step, c: Path)
    requires Below(path + [s], c)
    ensures Below(path, c) && |c| > |path| && c[|path|] == s
  {
    assert c[..|path| + 1][..|path|] == c[..|path|];
    assert c[|path|] == c[..|path| + 1][|path|];
  }

  lemma {:induction false} ElemsBelow(es: seq<Json>, i: nat, path: Path)
    ensures forall c: Path :: c in UniqueElems(es, i, path) ==>
              Below(path, c) && |c| > |path| && c[|path|].Index? && c[|path|].idx >= i
    decreases es
  {
    if es != [] {
      RowsBelow(es[0], path + [Index(i)]);
      ElemsBelow(es[1..], i + 1, path);
      forall c | c in UniqueRows(es[0], path + [Index(i)])
        ensures Below(path, c) && |c| > |path| && c[|path|] == Index(i)
      {
        BelowStep(path, Index(i), c);
      }
      hide UniqueRows;
    }
  }

  lemma {:induction false} FieldsBelow(v: Json, ks: seq<string>, path: Path)
    requires v.Obj? && forall i :: 0 <= i < |ks| ==> ks[i] in v.fields
    ensures forall c: Path :: c in UniqueFields(v, ks, path) ==>
              Below(path, c) && |c| > |path| && c[|path|].Key? && c[|path|].key in ks
    decreases v, |ks|
  {
    if ks != [] {
      RowsBelow(v.fields[ks[0]], path + [Key(ks[0])]);
      FieldsBelow(v, ks[1..], path);
      forall c | c in UniqueRows(v.fields[ks[0]], path + [Key(ks[0])])
        ensures Below(path, c) && |c| > |path| && c[|path|] == Key(ks[0])
      {
        BelowStep(path, Key(ks[0]), c);
      }
      hide UniqueRows;
    }
  }

  lemma DistinctAppend(a: seq<Path>, b: seq<Path>)
    requires Distinct(a) && Distinct(b) && forall c :: c in a ==> c !in b
    ensures Distinct(a + b)
  {
    forall i, j | 0 <= i < j < |a + b| ensures (a + b)[i] != (a + b)[j] {
      if i < |a| <= j { assert a[i] in a && b[j - |a|] in b; }
    }
  }

  lemma {:induction false} RowsDistinct(v: Json, path: Path)
    ensures Distinct(UniqueRows(v, path))
    decreases v
  {
    match v
    case Arr(es) =>
      if !RowArray(es) {
        ElemsDistinct(es, 0, path);
        ElemsBelow(es, 0, path);
        DistinctAppend(UniqueElems(es, 0, path), if ObjectArray(es) then [path] else []);
      }
    case Obj(m) => FieldsDistinct(v, SortedKeys(m.Keys), path);
    case _ =>
  }

  lemma {:induction false} ElemsDistinct(es: seq<Json>, i: nat, path: Path)
    ensures Distinct(UniqueElems(es, i, path))
    decreases es
  {
    if es != [] {
      var q := path + [Index(i)];
      RowsDistinct(es[0], q);
      ElemsDistinct(es[1..], i + 1, path);
      RowsBelow(es[0], q);
      ElemsBelow(es[1..], i + 1, path);
      hide UniqueRows, Distinct;
      forall c | c in UniqueRows(es[0], q) ensures c !in UniqueElems(es[1..], i + 1, path) {
        BelowStep(path, Index(i), c);
      }
      DistinctAppend(UniqueRows(es[0], q), UniqueElems(es[1..], i + 1, path));
    }
  }

  lemma {:induction false} FieldsDistinct(v: Json, ks: seq<string>, path: Path)
    requires v.Obj? && (forall i :: 0 <= i < |ks| ==> ks[i] in v.fields) && Distinct(ks)
    ensures Distinct(UniqueFields(v, ks, path))
    decreases v, |ks|
  {
    if ks != [] {
      var q := path + [Key(ks[0])];
      DistinctTail(ks);
      RowsDistinct(v.fields[ks[0]], q);
      FieldsDistinct(v, ks[1..], path);
      RowsBelow(v.fields[ks[0]], q);
      FieldsBelow(v, ks[1..], path);
      hide UniqueRows, Distinct;
      forall c | c in UniqueRows(v.fields[ks[0]], q) ensures c !in UniqueFields(v, ks[1..], path) {
        BelowStep(path, Key(ks[0]), c);
      }
      DistinctAppend(UniqueRows(v.fields[ks[0]], q), UniqueFields(v, ks[1..], path));
    }
  }

  // ---------- what the containers hold ----------

  /** A container lost with its record holds nothing any more. */
  lemma {:induction false} HeldNothing(root: Json, p: Path, cs: seq<Path>)
    requires Resolve(root, p) == None && forall c :: c in cs ==> Below(p, c)
    ensures Held(root, cs) == 0
    decreases |cs|
  {
    if cs != [] {
      assert cs[0] in cs;
      ResolveBelow(root, p, cs[0]);
      HeldNothing(root, p, cs[1..]);
    }
  }

  lemma {:induction false} ResolveBelow(root: Json, p: Path, c: Path)
    requires Resolve(root, p) == None && Below(p, c)
    ensures Resolve(root, c) == None
    decreases |p|
  {
    assert c[0] == c[..|p|][0];
    assert c[1..][..|p| - 1] == c[..|p|][1..];
    match p[0]
    case Key(k) => if root.Obj? && k in root.fields { ResolveBelow(root.fields[k], p[1..], c[1..]); }
    case Index(i) => if root.Arr? && i < |root.elems| { ResolveBelow(root.elems[i], p[1..], c[1..]); }
  }

  /** The containers of `v`, looked up in a shortened copy, hold what that copy can still drop. */
  lemma {:induction false} HeldIsCapacity(root: Json, p: Path, w: Json, v: Json)
    requires Resolve(root, p) == Some(w) && Shortened(w, v)
    ensures Held(root, UniqueRows(v, p)) == Capacity(w)
    decreases v
  {
    hide Resolve, UniqueElems, UniqueFields, CapacityElems, CapacityFields, SortedKeys, UniqueRows, Capacity, Held,
      Shortened, RowArray;
    match v
    case Arr(es) =>
      ShortenedArray(w, es);
      if RowArray(es) {
        HeldTable(root, p, w.elems, es);
      } else {
        HeldElems(root, p, w.elems, es, 0);
        HeldArray(root, p, w.elems, es);
      }
    case Obj(m) =>
      ShortenedObject(w, v);
      HeldFields(root, p, w, v, SortedKeys(m.Keys));
      HeldObject(p, w, v);
    case _ => HeldScalar(root, p, w, v);
  }

  lemma ShortenedArray(w: Json, es: seq<Json>)
    requires Shortened(w, Arr(es))
    ensures w.Arr? && w == Arr(w.elems) && |w.elems| <= |es|
    ensures forall j :: 0 <= j < |w.elems| ==> Shortened(w.elems[j], es[j - 0])
  {
    forall j | 0 <= j < |w.elems| ensures Shortened(w.elems[j], es[j]) { ShortenedElem(w, es, j); }
  }

  lemma ShortenedObject(w: Json, v: Json)
    requires v.Obj? && Shortened(w, v)
    ensures w.Obj? && w.fields.Keys == v.fields.Keys && forall k :: k in v.fields ==>
              Shortened(w.fields[k], v.fields[k])
  {
  }

  lemma HeldObject(p: Path, w: Json, v: Json)
    requires v.Obj? && w.Obj? && v.fields.Keys == w.fields.Keys
    ensures UniqueRows(v, p) == UniqueFields(v, SortedKeys(v.fields.Keys), p)
    ensures Capacity(w) == CapacityFields(w, SortedKeys(v.fields.Keys))
  {
    hide UniqueFields, CapacityFields, SortedKeys;
  }

  lemma HeldScalar(root: Json, p: Path, w: Json, v: Json)
    requires !v.Arr? && !v.Obj? && Shortened(w, v)
    ensures Held(root, UniqueRows(v, p)) == Capacity(w)
  {
  }

  lemma HeldTable(root: Json, p: Path, ws: seq<Json>, es: seq<Json>)
    requires Resolve(root, p) == Some(Arr(ws)) && Shortened(Arr(ws), Arr(es)) && RowArray(es)
    ensures Held(root, UniqueRows(Arr(es), p)) == Capacity(Arr(ws))
  {
    hide Resolve;
    if ws != [] { ShortenedElem(Arr(ws), es, 0); }
    assert [p][1..] == [];
  }

  lemma HeldArray(root: Json, p: Path, ws: seq<Json>, es: seq<Json>)
    requires Resolve(root, p) == Some(Arr(ws)) && Shortened(Arr(ws), Arr(es)) && !RowArray(es)
    requires Held(root, UniqueElems(es, 0, p)) == CapacityElems(ws[0..])
    ensures Held(root, UniqueRows(Arr(es), p)) == Capacity(Arr(ws))
  {
    assert ws[0..] == ws;
    RecordCapacity(ws, es);
    hide UniqueElems, Shortened, CapacityElems, Capacity, RowArray, ObjectArray;
    HeldAppend(root, UniqueElems(es, 0, p), if ObjectArray(es) then [p] else []);
  }

  lemma RecordCapacity(ws: seq<Json>, es: seq<Json>)
    requires Shortened(Arr(ws), Arr(es)) && !RowArray(es)
    ensures Capacity(Arr(ws)) == CapacityElems(ws) + if ObjectArray(es) then |ws| else 0
  {
    if ws != [] {
      ShortenedElem(Arr(ws), es, 0);
      SameKind(ws[0], es[0]);
    }
    hide Shortened;
  }

  lemma {:induction false} HeldElems(root: Json, p: Path, ws: seq<Json>, es: seq<Json>, i: nat)
    requires Resolve(root, p) == Some(Arr(ws)) && |ws| <= i + |es|
    requires forall j :: i <= j < |ws| ==> Shortened(ws[j], es[j - i])
    ensures Held(root, UniqueElems(es, i, p)) == CapacityElems(if i < |ws| then ws[i..] else [])
    decreases es
  {
    if es != [] {
      var q := p + [Index(i)];
      ResolveAppend(root, p, [Index(i)]);
      if i < |ws| {
        HeldIsCapacity(root, q, ws[i], es[0]);
        assert ws[i..][0] == ws[i] && ws[i..][1..] == ws[i + 1..];
        assert i + 1 == |ws| ==> ws[i + 1..] == [];
      } else {
        RowsBelow(es[0], q);
        HeldNothing(root, q, UniqueRows(es[0], q));
      }
      hide UniqueRows, Shortened, Capacity, Resolve;
      HeldElems(root, p, ws, es[1..], i + 1);
      HeldAppend(root, UniqueRows(es[0], q), UniqueElems(es[1..], i + 1, p));
    }
  }

  lemma {:induction false} HeldFields(root: Json, p: Path, w: Json, v: Json, ks: seq<string>)
    requires v.Obj? && w.Obj? && Resolve(root, p) == Some(w)
    requires forall i :: 0 <= i < |ks| ==>
               ks[i] in v.fields && ks[i] in w.fields && Shortened(w.fields[ks[i]], v.fields[ks[i]])
    ensures Held(root, UniqueFields(v, ks, p)) == CapacityFields(w, ks)
    decreases v, |ks|
  {
    if ks != [] {
      var q := p + [Key(ks[0])];
      ResolveAppend(root, p, [Key(ks[0])]);
      HeldIsCapacity(root, q, w.fields[ks[0]], v.fields[ks[0]]);
      hide UniqueRows, Shortened, Capacity, Resolve;
      HeldFields(root, p, w, v, ks[1..]);
      HeldAppend(root, UniqueRows(v.fields[ks[0]], q), UniqueFields(v, ks[1..], p));
    }
  }

  /** The reported count: over the distinct containers of the payload, `d` elements are gone. */
  lemma DroppedIsCounted(root: Json, d: nat)
    requires d <= Capacity(root)
    ensures var cs := UniqueRows(root, []);
            && Distinct(cs)
            && (forall c :: c in cs <==> c in RowContainers(root))
            && Held(root, cs) == Capacity(root)
            && Held(Trim(root, d), cs) + d == Held(root, cs)
  {
    RowsDistinct(root, []);
    SameRows(root, []);
    ShortenedSelf(root);
    HeldIsCapacity(root, [], root, root);
    TrimShortens(root, d);
    HeldIsCapacity(Trim(root, d), [], Trim(root, d), root);
    TrimConserves(root, d);
    hide UniqueRows, WalkRows, Distinct, Held, Trim, Capacity;
  }
}
