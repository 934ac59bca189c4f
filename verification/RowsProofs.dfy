/** Dropping along the recorded paths is the path-free trim: every path still leads to
    its own container when it is used, although the tree has changed since. */
module RowsProofs {
  import opened Text
  import opened Json
  import opened Rows

  // ---------- one container ----------

  lemma DropOne(root: Json, p: Path, es: seq<Json>, rest: seq<Path>, d: nat)
    requires p != [] && Resolve(root, p) == Some(Arr(es))
    ensures var e := Min(d, |es|);
            DropAlong(root, [p] + rest, d) == DropAlong(Plug(root, p, Arr(es[..|es| - e])), rest, d - e)
  {
    var e := Min(d, |es|);
    assert ([p] + rest)[1..] == rest;
    if es == [] || d == 0 {
      assert es[..|es| - e] == es;
      PlugSelf(root, p);
    } else {
      SetReplaces(root, p, es[..|es| - e]);
    }
  }

  lemma {:induction false} TrimNothing(v: Json)
    ensures Trim(v, 0) == v
    decreases v
  {
    hide TrimElems, TrimFields, CapacityElems, SortedKeys;
    match v
    case Arr(es) => TrimElemsNothing(es);
    case Obj(m) => TrimFieldsNothing(v, SortedKeys(m.Keys));
    case _ =>
  }

  lemma {:induction false} TrimElemsNothing(es: seq<Json>)
    ensures TrimElems(es, 0) == es
    decreases es
  {
    if es != [] {
      TrimNothing(es[0]);
      TrimElemsNothing(es[1..]);
    }
  }

  lemma {:induction false} TrimFieldsNothing(v: Json, ks: seq<string>)
    requires v.Obj? && forall i :: 0 <= i < |ks| ==> ks[i] in v.fields
    ensures forall k :: k in TrimFields(v, ks, 0) ==> k in v.fields && TrimFields(v, ks, 0)[k] == v.fields[k]
    decreases v, |ks|
  {
    if ks != [] {
      TrimNothing(v.fields[ks[0]]);
      TrimFieldsNothing(v, ks[1..]);
    }
  }

  /** Trimming a record array or table as far as it goes leaves it empty. */
  lemma TrimAll(es: seq<Json>)
    requires RowArray(es) || ObjectArray(es)
    ensures Trim(Arr(es), Capacity(Arr(es))) == Arr([])
  {
  }

  lemma DropNone(root: Json, cs: seq<Path>)
    ensures DropAlong(root, cs, 0) == root
  {
  }

  lemma MinSplit(d: nat, a: nat, b: nat)
    ensures var e := Min(d, a);
            Min(d, a + b) == e + Min(d - e, b) && Min(Min(d, a + b), a) == e
  {
  }

  lemma TrimElemsHead(es: seq<Json>, d: nat)
    requires es != []
    ensures TrimElems(es, d) == [Trim(es[0], Min(d, Capacity(es[0])))] + TrimElems(es[1..], d - Min(d, Capacity(es[0])))
  {
    hide Trim, Capacity;
  }

  lemma CapacityElemsHead(es: seq<Json>)
    requires es != []
    ensures CapacityElems(es) == Capacity(es[0]) + CapacityElems(es[1..])
  {
    hide Capacity;
  }

  /** A quota taken by a list is taken by its head first. */
  lemma TrimElemsSplit(es: seq<Json>, d: nat)
    requires es != []
    ensures var e := Min(d, Capacity(es[0]));
            var e' := Min(d - e, CapacityElems(es[1..]));
            && Min(d, CapacityElems(es)) == e + e'
            && TrimElems(es, e + e') == [Trim(es[0], e)] + TrimElems(es[1..], e')
  {
    hide Trim, Capacity, Min, TrimElems, CapacityElems;
    var c, c' := Capacity(es[0]), CapacityElems(es[1..]);
    CapacityElemsHead(es);
    MinSplit(d, c, c');
    TrimElemsHead(es, Min(d, c) + Min(d - Min(d, c), c'));
  }

  lemma CapacityFieldsHead(v: Json, ks: seq<string>)
    requires v.Obj? && ks != [] && forall i :: 0 <= i < |ks| ==> ks[i] in v.fields
    ensures CapacityFields(v, ks) == Capacity(v.fields[ks[0]]) + CapacityFields(v, ks[1..])
  {
    hide Capacity;
  }

  lemma TrimFieldsHead(v: Json, ks: seq<string>, d: nat)
    requires v.Obj? && ks != [] && forall i :: 0 <= i < |ks| ==> ks[i] in v.fields
    ensures var e := Min(d, Capacity(v.fields[ks[0]]));
            TrimFields(v, ks, d) == TrimFields(v, ks[1..], d - e)[ks[0] := Trim(v.fields[ks[0]], e)]
  {
    hide Trim, Capacity;
  }

  lemma TrimFieldsSplit(v: Json, ks: seq<string>, d: nat)
    requires v.Obj? && ks != [] && forall i :: 0 <= i < |ks| ==> ks[i] in v.fields
    ensures var x := v.fields[ks[0]];
            var e := Min(d, Capacity(x));
            var e' := Min(d - e, CapacityFields(v, ks[1..]));
            && Min(d, CapacityFields(v, ks)) == e + e'
            && TrimFields(v, ks, e + e') == TrimFields(v, ks[1..], e')[ks[0] := Trim(x, e)]
  {
    hide Trim, Capacity, Min, TrimFields, CapacityFields;
    var c, c' := Capacity(v.fields[ks[0]]), CapacityFields(v, ks[1..]);
    CapacityFieldsHead(v, ks);
    MinSplit(d, c, c');
    TrimFieldsHead(v, ks, Min(d, c) + Min(d - Min(d, c), c'));
  }

  // ---------- a whole subtree ----------

  /** Where `DropAlong` stands after the subtree `v` at `p`. */
  lemma {:induction false} DropWalk(root: Json, p: Path, v: Json, rest: seq<Path>, d: nat)
    requires p != [] && Resolve(root, p) == Some(v)
    ensures var e := Min(d, Capacity(v));
            DropAlong(root, WalkRows(v, p) + rest, d) == DropAlong(Plug(root, p, Trim(v, e)), rest, d - e)
    decreases v, 1
  {
    hide DropAlong, Plug, Resolve, WalkElems, WalkFields, TrimElems, SortedKeys;
    hide CapacityElems, CapacityFields, TrimFields;
    match v
    case Arr(es) =>
      if RowArray(es) {
        DropOne(root, p, es, rest, d);
      } else {
        hide Trim, WalkRows, Capacity;
        DropArray(root, p, es, rest, d);
      }
    case Obj(m) =>
      var ks := SortedKeys(m.Keys);
      var e := Min(d, CapacityFields(v, ks));
      DropFields(root, p, v, ks, m, rest, d);
      assert m + TrimFields(v, ks, e) == TrimFields(v, ks, e);
    case _ =>
      PlugSelf(root, p);
      assert WalkRows(v, p) + rest == rest;
  }

  lemma {:induction false} DropArray(root: Json, p: Path, es: seq<Json>, rest: seq<Path>, d: nat)
    requires p != [] && Resolve(root, p) == Some(Arr(es)) && !RowArray(es)
    ensures var e := Min(d, Capacity(Arr(es)));
            DropAlong(root, WalkRows(Arr(es), p) + rest, d) == DropAlong(Plug(root, p, Trim(Arr(es), e)), rest, d - e)
    decreases es, 1
  {
    hide DropAlong, Plug, Resolve, WalkElems, TrimElems, CapacityElems;
    var c := CapacityElems(es);
    var e := Min(d, c);
    var own := if ObjectArray(es) then [p] else [];
    var inner := TrimElems(es, e);
    assert [] + es == es && [] + inner == inner;
    assert WalkRows(Arr(es), p) + rest == WalkElems(es, 0, p) + (own + rest);
    DropElems(root, p, [], es, own + rest, d);
    var next := Plug(root, p, Arr(inner));
    ResolvePlug(root, p, Arr(inner));
    if ObjectArray(es) {
      DropOne(next, p, inner, rest, d - e);
      PlugPlug(root, p, Arr(inner), Arr(inner[..|es| - Min(d - e, |es|)]));
    } else {
      assert own + rest == rest;
    }
  }

  lemma WalkElemsHead(es: seq<Json>, i: nat, p: Path, rest: seq<Path>)
    requires es != []
    ensures WalkElems(es, i, p) + rest
         == (if es[0].Arr? || es[0].Obj? then WalkRows(es[0], p + [Index(i)]) else [])
            + (WalkElems(es[1..], i + 1, p) + rest)
  {
    hide WalkRows;
    var here := if es[0].Arr? || es[0].Obj? then WalkRows(es[0], p + [Index(i)]) else [];
    assert WalkElems(es, i, p) == here + WalkElems(es[1..], i + 1, p);
    assert here + WalkElems(es[1..], i + 1, p) + rest == here + (WalkElems(es[1..], i + 1, p) + rest);
  }

  /** A scalar holds no container, so the walk passes it by. */
  lemma {:induction false} DropElement(root: Json, q: Path, x: Json, more: seq<Path>, d: nat)
    requires q != [] && Resolve(root, q) == Some(x)
    ensures var e := Min(d, Capacity(x));
            DropAlong(root, (if x.Arr? || x.Obj? then WalkRows(x, q) else []) + more, d)
            == DropAlong(Plug(root, q, Trim(x, e)), more, d - e)
    decreases x, 2
  {
    hide DropAlong, Plug, Resolve, WalkRows;
    if x.Arr? || x.Obj? {
      DropWalk(root, q, x, more, d);
    } else {
      PlugSelf(root, q);
      assert [] + more == more;
    }
  }

  lemma NoElems(i: nat, p: Path)
    ensures CapacityElems([]) == 0 && TrimElems([], 0) == [] && WalkElems([], i, p) == []
    ensures forall d: nat :: Min(d, 0) == 0
  {
  }

  lemma {:induction false} DropElems(root: Json, p: Path, done: seq<Json>, es: seq<Json>, rest: seq<Path>, d: nat)
    requires Resolve(root, p) == Some(Arr(done + es))
    ensures var e := Min(d, CapacityElems(es));
            DropAlong(root, WalkElems(es, |done|, p) + rest, d)
            == DropAlong(Plug(root, p, Arr(done + TrimElems(es, e))), rest, d - e)
    decreases es, 0
  {
    hide DropAlong, Plug, Resolve, Trim, Capacity, WalkRows, TrimElems, CapacityElems, WalkElems, Min;
    if es == [] {
      PlugSelf(root, p);
      NoElems(|done|, p);
      assert done + [] == done + es;
      assert [] + rest == rest;
    } else {
      var i, x := |done|, es[0];
      var q := p + [Index(i)];
      var e := Min(d, Capacity(x));
      var done' := done + [Trim(x, e)];
      WalkElemsHead(es, i, p, rest);
      PlugElement(root, p, done, es, Trim(x, e));
      ElementPath(root, p, done, es);
      DropElement(root, q, x, WalkElems(es[1..], i + 1, p) + rest, d);
      var next := Plug(root, q, Trim(x, e));
      DropElems(next, p, done', es[1..], rest, d - e);
      TrimElemsSplit(es, d);
      PlugDone(root, p, done, es, Trim(x, e), TrimElems(es[1..], Min(d - e, CapacityElems(es[1..]))));
    }
  }

  lemma ElementPath(root: Json, p: Path, done: seq<Json>, es: seq<Json>)
    requires es != [] && Resolve(root, p) == Some(Arr(done + es))
    ensures Resolve(root, p + [Index(|done|)]) == Some(es[0])
  {
    ResolveAppend(root, p, [Index(|done|)]);
  }

  lemma PlugElement(root: Json, p: Path, done: seq<Json>, es: seq<Json>, x: Json)
    requires es != [] && Resolve(root, p) == Some(Arr(done + es))
    ensures var q := p + [Index(|done|)];
            && Resolve(root, q).Some?
            && Plug(root, q, x) == Plug(root, p, Arr(done + [x] + es[1..]))
            && Resolve(Plug(root, q, x), p) == Some(Arr(done + [x] + es[1..]))
  {
    ElementPath(root, p, done, es);
    PlugAppend(root, p, [Index(|done|)], x);
    assert (done + es)[|done| := x] == done + [x] + es[1..];
    ResolvePlug(root, p, Arr(done + [x] + es[1..]));
  }

  lemma PlugDone(root: Json, p: Path, done: seq<Json>, es: seq<Json>, x: Json, inner: seq<Json>)
    requires es != [] && Resolve(root, p) == Some(Arr(done + es))
    ensures var q := p + [Index(|done|)];
            && Resolve(root, q).Some? && Resolve(Plug(root, q, x), p).Some?
            && Plug(Plug(root, q, x), p, Arr(done + [x] + inner)) == Plug(root, p, Arr(done + ([x] + inner)))
  {
    hide Plug, Resolve;
    PlugElement(root, p, done, es, x);
    assert done + [x] + inner == done + ([x] + inner);
    PlugPlug(root, p, Arr(done + [x] + es[1..]), Arr(done + [x] + inner));
  }

  /** The members still to come are as they were. */
  ghost predicate Untouched(v: Json, ks: seq<string>, cur: map<string, Json>) {
    v.Obj? && (forall i :: 0 <= i < |ks| ==> ks[i] in v.fields) &&
    forall i :: 0 <= i < |ks| ==> ks[i] in cur && cur[ks[i]] == v.fields[ks[i]]
  }

  lemma UntouchedTail(v: Json, ks: seq<string>, cur: map<string, Json>, x: Json)
    requires ks != [] && Distinct(ks) && Untouched(v, ks, cur)
    ensures Untouched(v, ks[1..], cur[ks[0] := x]) && Distinct(ks[1..])
  {
    DistinctTail(ks);
  }

  lemma NoFields(v: Json, p: Path)
    requires v.Obj?
    ensures CapacityFields(v, []) == 0 && WalkFields(v, [], p) == []
    ensures forall n: nat :: TrimFields(v, [], n) == map[]
    ensures forall d: nat :: Min(d, 0) == 0
  {
  }

  lemma {:induction false} DropFields(root: Json, p: Path, v: Json, ks: seq<string>, cur: map<string, Json>,
                                      rest: seq<Path>, d: nat)
    requires Untouched(v, ks, cur) && Distinct(ks) && Resolve(root, p) == Some(Obj(cur))
    ensures var e := Min(d, CapacityFields(v, ks));
            DropAlong(root, WalkFields(v, ks, p) + rest, d)
            == DropAlong(Plug(root, p, Obj(cur + TrimFields(v, ks, e))), rest, d - e)
    decreases v, 0, |ks|
  {
    hide DropAlong, Plug, Resolve, Trim, Capacity, WalkRows, TrimFields, CapacityFields, WalkFields, Min, Distinct;
    if ks == [] {
      PlugSelf(root, p);
      NoFields(v, p);
      assert cur + map[] == cur;
      assert [] + rest == rest;
    } else {
      var k, x := ks[0], v.fields[ks[0]];
      var q := p + [Key(k)];
      var e := Min(d, Capacity(x));
      DropMember(root, p, v, ks, cur, rest, d);
      MemberPath(root, p, cur, k, Trim(x, e));
      UntouchedTail(v, ks, cur, Trim(x, e));
      DistinctTail(ks);
      DropFields(Plug(root, q, Trim(x, e)), p, v, ks[1..], cur[k := Trim(x, e)], rest, d - e);
      TrimFieldsSplit(v, ks, d);
      PlugMembers(root, p, cur, k, Trim(x, e), TrimFields(v, ks[1..], Min(d - e, CapacityFields(v, ks[1..]))));
    }
  }

  lemma DistinctTail(ks: seq<string>)
    requires ks != [] && Distinct(ks)
    ensures Distinct(ks[1..]) && ks[0] !in ks[1..]
    ensures forall i :: 0 <= i < |ks[1..]| ==> ks[1..][i] == ks[i + 1] != ks[0]
  {
  }

  lemma PlugMembers(root: Json, p: Path, cur: map<string, Json>, k: string, x: Json, inner: map<string, Json>)
    requires Resolve(root, p) == Some(Obj(cur)) && k in cur && k !in inner
    ensures var q := p + [Key(k)];
            && Resolve(root, q).Some? && Resolve(Plug(root, q, x), p).Some?
            && Plug(Plug(root, q, x), p, Obj(cur[k := x] + inner)) == Plug(root, p, Obj(cur + inner[k := x]))
  {
    hide Plug, Resolve;
    MemberPath(root, p, cur, k, x);
    MapSplit(cur, k, x, inner);
    PlugPlug(root, p, Obj(cur[k := x]), Obj(cur[k := x] + inner));
  }

  lemma MapSplit(cur: map<string, Json>, k: string, x: Json, inner: map<string, Json>)
    requires k !in inner
    ensures cur[k := x] + inner == cur + inner[k := x]
  {
  }

  lemma MemberPath(root: Json, p: Path, cur: map<string, Json>, k: string, x: Json)
    requires Resolve(root, p) == Some(Obj(cur)) && k in cur
    ensures var q := p + [Key(k)];
            && Resolve(root, q) == Some(cur[k])
            && Plug(root, q, x) == Plug(root, p, Obj(cur[k := x]))
            && Resolve(Plug(root, q, x), p) == Some(Obj(cur[k := x]))
            && Resolve(Plug(root, q, x), q) == Some(x)
  {
    var q := p + [Key(k)];
    ResolveAppend(root, p, [Key(k)]);
    PlugAppend(root, p, [Key(k)], x);
    ResolvePlug(root, p, Obj(cur[k := x]));
    ResolvePlug(root, q, x);
  }

  lemma WalkFieldsHead(v: Json, ks: seq<string>, p: Path, rest: seq<Path>)
    requires v.Obj? && ks != [] && forall i :: 0 <= i < |ks| ==> ks[i] in v.fields
    ensures var x, q := v.fields[ks[0]], p + [Key(ks[0])];
            WalkFields(v, ks, p) + rest
            == WalkRows(x, q) + ((if x.Arr? && ObjectArray(x.elems) then [q] else []) +
                 (WalkFields(v, ks[1..], p) + rest))
  {
    hide WalkRows;
  }

  /** One member, including the second registration of a record array, which finds nothing left. */
  lemma {:induction false} DropMember(root: Json, p: Path, v: Json, ks: seq<string>, cur: map<string, Json>,
                                      rest: seq<Path>, d: nat)
    requires v.Obj? && ks != [] && (forall i :: 0 <= i < |ks| ==> ks[i] in v.fields)
    requires Resolve(root, p) == Some(Obj(cur)) && ks[0] in cur && cur[ks[0]] == v.fields[ks[0]]
    ensures var x, q := v.fields[ks[0]], p + [Key(ks[0])];
            var e := Min(d, Capacity(x));
            && Resolve(root, q) == Some(x)
            && DropAlong(root, WalkFields(v, ks, p) + rest, d)
               == DropAlong(Plug(root, q, Trim(x, e)), WalkFields(v, ks[1..], p) + rest, d - e)
    decreases v, 0, 0
  {
    hide DropAlong, Plug, Resolve, WalkRows, WalkFields, Trim, Capacity;
    var x, q := v.fields[ks[0]], p + [Key(ks[0])];
    var e := Min(d, Capacity(x));
    var again := if x.Arr? && ObjectArray(x.elems) then [q] else [];
    var more := WalkFields(v, ks[1..], p) + rest;
    MemberPath(root, p, cur, ks[0], Trim(x, e));
    WalkFieldsHead(v, ks, p, rest);
    DropWalk(root, q, x, again + more, d);
    var next := Plug(root, q, Trim(x, e));
    if again == [] {
      assert again + more == more;
    } else if d - e > 0 {
      TrimAll(x.elems);
      DropOne(next, q, [], more, d - e);
      PlugSelf(next, q);
    } else {
      DropNone(next, again + more);
      DropNone(next, more);
    }
  }

  /** For an object payload, walking the recorded paths is the path-free trim. */
  lemma DropAlongIsTrim(root: Json, d: nat)
    requires root.Obj? && d <= Capacity(root)
    ensures DropAlong(root, RowContainers(root), d) == Trim(root, d)
  {
    hide DropAlong, WalkFields, TrimFields, CapacityFields, SortedKeys;
    var ks := SortedKeys(root.fields.Keys);
    DropFields(root, [], root, ks, root.fields, [], d);
    DropNone(Trim(root, d), []);
    assert WalkFields(root, ks, []) + [] == RowContainers(root);
    assert root.fields + TrimFields(root, ks, d) == TrimFields(root, ks, d);
  }

  /** A container at the top level is not stored, so spending it changes nothing. */
  lemma DropTop(root: Json, d: nat)
    ensures DropAlong(root, [[]], d) == root
  {
    var top: seq<Path> := [[]];
    assert top[1..] == [];
  }

  lemma DropNowhere(root: Json, d: nat)
    ensures DropAlong(root, [], d) == root
  {
  }

  /** For every payload, walking the recorded paths is the path-free trim. */
  lemma DropAlongIsSpent(root: Json, d: nat)
    requires d <= Room(root)
    ensures DropAlong(root, RowContainers(root), d) == Spent(root, d)
  {
    hide DropAlong, WalkElems, TrimElems, CapacityElems, Trim, Capacity;
    match root
    case Obj(_) => DropAlongIsTrim(root, d);
    case Arr(es) =>
      if RowArray(es) {
        DropTop(root, d);
      } else {
        var own := if ObjectArray(es) then [[]] else [];
        assert [] + es == es && [] + TrimElems(es, d) == TrimElems(es, d);
        DropElems(root, [], [], es, own, d);
        DropTop(Spent(root, d), 0);
        DropNowhere(Spent(root, d), 0);
      }
    case _ => DropNowhere(root, d);
  }
}
