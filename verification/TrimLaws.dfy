/** What a trim keeps and what it spends. */
module TrimLaws {
  import opened Text
  import opened Json
  import opened Rows
  import opened RowsProofs

  // ---------- nothing but droppable arrays gets shorter ----------

  /** `a` is `b` with some droppable arrays cut to a prefix and nothing else changed: the rows that a
      table keeps are verbatim, and only records are shortened inside. */
  ghost predicate Shortened(a: Json, b: Json)
    decreases b
  {
    match b
    case Arr(bs) =>
      a.Arr? && |a.elems| <= |bs|
      && if RowArray(bs) then a.elems == bs[..|a.elems|]
         else (|a.elems| < |bs| ==> ObjectArray(bs)) && forall i :: 0 <= i < |a.elems| ==> Shortened(a.elems[i], bs[i])
    case Obj(m) =>
      a.Obj? && a.fields.Keys == m.Keys && forall k :: k in m ==> Shortened(a.fields[k], m[k])
    case _ => a == b
  }

  lemma {:induction false} ShortenedSelf(v: Json)
    ensures Shortened(v, v)
    decreases v
  {
    match v
    case Arr(es) => forall i | 0 <= i < |es| ensures Shortened(es[i], es[i]) { ShortenedSelf(es[i]); }
    case Obj(m) => forall k | k in m ensures Shortened(m[k], m[k]) { ShortenedSelf(m[k]); }
    case _ =>
  }

  /** What is left of an array, element by element. */
  lemma ShortenedElem(a: Json, bs: seq<Json>, i: nat)
    requires Shortened(a, Arr(bs)) && i < |a.elems|
    ensures i < |bs| && Shortened(a.elems[i], bs[i])
    ensures RowArray(bs) ==> a.elems[i] == bs[i]
    ensures RowArray(a.elems) ==> RowArray(bs)
  {
    ShortenedSelf(bs[i]);
    if !RowArray(bs) { SameKind(a.elems[0], bs[0]); }
  }

  lemma SameKind(a: Json, b: Json)
    requires Shortened(a, b)
    ensures a.Arr? == b.Arr? && a.Obj? == b.Obj?
  {
  }

  /** A trim only shortens droppable arrays: it drops from their ends, never inside a table's rows. */
  lemma {:induction false} TrimShortens(v: Json, d: nat)
    ensures Shortened(Trim(v, d), v)
    decreases v
  {
    match v
    case Arr(es) =>
      hide Trim, Shortened;
      if RowArray(es) {
        TableShortens(es, d);
      } else {
        TrimElemsShortens(es, Min(d, CapacityElems(es)));
        RecordsShorten(es, d);
      }
    case Obj(m) =>
      hide Trim, Shortened;
      TrimFieldsShortens(v, SortedKeys(m.Keys), d);
      ObjectShortens(v, d);
    case _ =>
  }

  lemma TableShortens(es: seq<Json>, d: nat)
    requires RowArray(es)
    ensures Shortened(Trim(Arr(es), d), Arr(es))
  {
  }

  lemma RecordsShorten(es: seq<Json>, d: nat)
    requires !RowArray(es)
    requires forall i :: 0 <= i < |es| ==> Shortened(TrimElems(es, Min(d, CapacityElems(es)))[i], es[i])
    ensures Shortened(Trim(Arr(es), d), Arr(es))
  {
    hide TrimElems, CapacityElems;
  }

  lemma ObjectShortens(v: Json, d: nat)
    requires v.Obj? && FieldsShortened(v, TrimFields(v, SortedKeys(v.fields.Keys), d))
    ensures Shortened(Trim(v, d), v)
  {
    hide TrimFields, SortedKeys;
  }

  lemma {:induction false} TrimElemsShortens(es: seq<Json>, d: nat)
    ensures forall i :: 0 <= i < |es| ==> Shortened(TrimElems(es, d)[i], es[i])
    decreases es
  {
    if es != [] {
      hide Trim, Capacity, Shortened, TrimElems, Min;
      var e := Min(d, Capacity(es[0]));
      TrimShortens(es[0], e);
      TrimElemsShortens(es[1..], d - e);
      TrimElemsHead(es, d);
      forall i | 0 <= i < |es| ensures Shortened(TrimElems(es, d)[i], es[i]) {
        if i > 0 { assert TrimElems(es, d)[i] == TrimElems(es[1..], d - e)[i - 1] && es[i] == es[1..][i - 1]; }
      }
    }
  }

  ghost predicate FieldsShortened(v: Json, m: map<string, Json>)
    requires v.Obj?
  {
    forall k :: k in m ==> k in v.fields && Shortened(m[k], v.fields[k])
  }

  lemma FieldShortened(v: Json, m: map<string, Json>, k: string, x: Json)
    requires v.Obj? && FieldsShortened(v, m) && k in v.fields && Shortened(x, v.fields[k])
    ensures FieldsShortened(v, m[k := x])
  {
    hide Shortened;
  }

  lemma {:induction false} TrimFieldsShortens(v: Json, ks: seq<string>, d: nat)
    requires v.Obj? && forall i :: 0 <= i < |ks| ==> ks[i] in v.fields
    ensures FieldsShortened(v, TrimFields(v, ks, d))
    decreases v, |ks|
  {
    hide Trim, Capacity, Shortened, TrimFields, Min, FieldsShortened;
    if ks == [] {
      NoFieldsShortened(v, d);
    } else {
      var e := Min(d, Capacity(v.fields[ks[0]]));
      TrimShortens(v.fields[ks[0]], e);
      TrimFieldsShortens(v, ks[1..], d - e);
      TrimFieldsHead(v, ks, d);
      FieldShortened(v, TrimFields(v, ks[1..], d - e), ks[0], Trim(v.fields[ks[0]], e));
    }
  }

  lemma NoFieldsShortened(v: Json, d: nat)
    requires v.Obj?
    ensures FieldsShortened(v, TrimFields(v, [], d))
  {
  }

  /** What a path still leads to is what it led to before, shortened. */
  lemma {:induction false} ShortenedAt(a: Json, b: Json, p: Path)
    requires Shortened(a, b) && Resolve(a, p).Some?
    ensures Resolve(b, p).Some? && Shortened(Resolve(a, p).value, Resolve(b, p).value)
    decreases |p|
  {
    if p != [] {
      match p[0]
      case Key(k) => ShortenedAt(a.fields[k], b.fields[k], p[1..]);
      case Index(i) =>
        ShortenedElem(a, b.elems, i);
        ShortenedAt(a.elems[i], b.elems[i], p[1..]);
    }
  }

  /** A path that still leads to a non-empty array led to one before, with the same kind of head. */
  lemma {:induction false} ShortenedGet(a: Json, b: Json, p: Path)
    requires Shortened(a, b) && Get(a, p) != []
    ensures |Get(a, p)| <= |Get(b, p)|
    ensures Get(a, p)[0].Arr? == Get(b, p)[0].Arr? && Get(a, p)[0].Obj? == Get(b, p)[0].Obj?
    decreases |p|
  {
    if p != [] {
      match p[0]
      case Key(k) => ShortenedGet(a.fields[k], b.fields[k], p[1..]);
      case Index(i) =>
        ShortenedElem(a, b.elems, i);
        ShortenedGet(a.elems[i], b.elems[i], p[1..]);
    } else {
      ShortenedElem(a, b.elems, 0);
      SameKind(a.elems[0], b.elems[0]);
    }
  }

  lemma {:induction false} ShortenedWellFormed(a: Json, b: Json)
    requires Shortened(a, b) && WellFormed(b)
    ensures WellFormed(a)
    decreases b
  {
    match b
    case Arr(bs) =>
      forall i | 0 <= i < |a.elems| ensures WellFormed(a.elems[i]) {
        ShortenedElem(a, bs, i);
        ShortenedWellFormed(a.elems[i], bs[i]);
      }
    case Obj(m) => forall k | k in m ensures WellFormed(a.fields[k]) { ShortenedWellFormed(a.fields[k], m[k]); }
    case _ =>
  }

  // ---------- containers are tables or records ----------

  /** The path enters no row of a table. */
  predicate Descends(root: Json, p: Path) {
    p == [] ||
    match p[0]
    case Key(k) => root.Obj? && k in root.fields && Descends(root.fields[k], p[1..])
    case Index(i) => root.Arr? && i < |root.elems| && !RowArray(root.elems) && Descends(root.elems[i], p[1..])
  }

  lemma {:induction false} DescendsAppend(root: Json, p: Path, s: Step)
    requires Descends(root, p) && Resolve(root, p).Some? && Descends(Resolve(root, p).value, [s])
    ensures Descends(root, p + [s])
    decreases |p|
  {
    if p == [] {
      assert p + [s] == [s];
    } else {
      assert (p + [s])[1..] == p[1..] + [s];
      match p[0]
      case Key(k) => DescendsAppend(root.fields[k], p[1..], s);
      case Index(i) => DescendsAppend(root.elems[i], p[1..], s);
    }
  }

  lemma {:induction false} ShortenedDescends(a: Json, b: Json, p: Path)
    requires Shortened(a, b) && Resolve(a, p).Some? && Descends(b, p)
    ensures Descends(a, p)
    decreases |p|
  {
    if p != [] {
      match p[0]
      case Key(k) => ShortenedDescends(a.fields[k], b.fields[k], p[1..]);
      case Index(i) =>
        ShortenedElem(a, b.elems, i);
        ShortenedDescends(a.elems[i], b.elems[i], p[1..]);
    }
  }

  /** The path leads to nothing, or, entering no row, to an array of arrays or of objects. */
  ghost predicate Droppable(root: Json, p: Path) {
    var es := Get(root, p);
    es == [] || (Descends(root, p) && (es[0].Arr? || es[0].Obj?))
  }

  /** A droppable path stays one while the tree shrinks. */
  lemma DroppableStays(a: Json, b: Json, p: Path)
    requires Shortened(a, b) && Droppable(b, p)
    ensures Droppable(a, p) && (Get(b, p) == [] ==> Get(a, p) == [])
  {
    hide Descends, Shortened;
    if Get(a, p) != [] {
      ShortenedGet(a, b, p);
      ShortenedDescends(a, b, p);
    }
  }

  ghost predicate AllDroppable(root: Json, cs: seq<Path>) {
    forall i :: 0 <= i < |cs| ==> Droppable(root, cs[i])
  }

  lemma AllDroppableAppend(root: Json, a: seq<Path>, b: seq<Path>)
    requires AllDroppable(root, a) && AllDroppable(root, b)
    ensures AllDroppable(root, a + b)
  {
    hide Droppable;
  }

  lemma {:induction false} WalkDroppable(root: Json, p: Path, v: Json)
    requires Resolve(root, p) == Some(v) && Descends(root, p)
    ensures AllDroppable(root, WalkRows(v, p))
    decreases v
  {
    match v
    case Arr(es) =>
      if !RowArray(es) {
        hide WalkElems;
        WalkElemsDroppable(root, p, es, es, 0);
        assert es[0..] == es;
        AllDroppableAppend(root, WalkElems(es, 0, p), if ObjectArray(es) then [p] else []);
      }
    case Obj(m) =>
      hide WalkFields;
      WalkFieldsDroppable(root, p, v, SortedKeys(m.Keys));
    case _ =>
  }

  lemma {:induction false} WalkElemsDroppable(root: Json, p: Path, all: seq<Json>, es: seq<Json>, i: nat)
    requires Resolve(root, p) == Some(Arr(all)) && Descends(root, p) && !RowArray(all) && i <= |all| && es == all[i..]
    ensures AllDroppable(root, WalkElems(es, i, p))
    decreases es
  {
    if es != [] {
      hide WalkRows, Droppable;
      var q := p + [Index(i)];
      ResolveAppend(root, p, [Index(i)]);
      DescendsAppend(root, p, Index(i));
      WalkDroppable(root, q, es[0]);
      WalkElemsDroppable(root, p, all, es[1..], i + 1);
      var here := if es[0].Arr? || es[0].Obj? then WalkRows(es[0], q) else [];
      AllDroppableAppend(root, here, WalkElems(es[1..], i + 1, p));
    }
  }

  lemma {:induction false} WalkFieldsDroppable(root: Json, p: Path, v: Json, ks: seq<string>)
    requires v.Obj? && (forall i :: 0 <= i < |ks| ==> ks[i] in v.fields)
    requires Resolve(root, p) == Some(v) && Descends(root, p)
    ensures AllDroppable(root, WalkFields(v, ks, p))
    decreases v, |ks|
  {
    if ks != [] {
      var q, x := p + [Key(ks[0])], v.fields[ks[0]];
      ResolveAppend(root, p, [Key(ks[0])]);
      DescendsAppend(root, p, Key(ks[0]));
      var again := if x.Arr? && ObjectArray(x.elems) then [q] else [];
      assert AllDroppable(root, again);
      hide WalkRows, Droppable, Descends;
      WalkDroppable(root, q, x);
      WalkFieldsDroppable(root, p, v, ks[1..]);
      AllDroppableAppend(root, WalkRows(x, q), again);
      AllDroppableAppend(root, WalkRows(x, q) + again, WalkFields(v, ks[1..], p));
    }
  }

  /** The only arrays that a trim shortens are the recorded containers. */
  lemma {:induction false} ShorterIsContainer(a: Json, b: Json, base: Path, p: Path)
    requires Shortened(a, b) && Resolve(a, p).Some? && Resolve(a, p).value.Arr? && |Get(a, p)| < |Get(b, p)|
    ensures base + p in WalkRows(b, base)
    decreases |p|
  {
    if p == [] {
      assert base + p == base;
    } else {
      assert base + p == base + [p[0]] + p[1..];
      match p[0]
      case Key(k) =>
        ShorterIsContainer(a.fields[k], b.fields[k], base + [p[0]], p[1..]);
        hide Shortened, WalkRows;
        InMember(b, base, k, base + p);
      case Index(i) =>
        ShortenedElem(a, b.elems, i);
        ShorterIsContainer(a.elems[i], b.elems[i], base + [p[0]], p[1..]);
        InElement(b, base, i, base + p);
    }
  }

  lemma InMember(v: Json, base: Path, k: string, c: Path)
    requires v.Obj? && k in v.fields && c in WalkRows(v.fields[k], base + [Key(k)])
    ensures c in WalkRows(v, base)
  {
    var ks := SortedKeys(v.fields.Keys);
    hide SortedKeys;
    InFields(v, ks, base, k, c);
  }

  lemma {:induction false} InFields(v: Json, ks: seq<string>, base: Path, k: string, c: Path)
    requires v.Obj? && (forall i :: 0 <= i < |ks| ==> ks[i] in v.fields) && k in ks
    requires c in WalkRows(v.fields[k], base + [Key(k)])
    ensures c in WalkFields(v, ks, base)
    decreases |ks|
  {
    hide WalkRows;
    if ks[0] != k { InFields(v, ks[1..], base, k, c); }
  }

  lemma InElement(v: Json, base: Path, i: nat, c: Path)
    requires v.Arr? && i < |v.elems| && !RowArray(v.elems) && c in WalkRows(v.elems[i], base + [Index(i)])
    ensures c in WalkRows(v, base)
  {
    InElems(v.elems, 0, base, i, c);
  }

  lemma {:induction false} InElems(es: seq<Json>, at: nat, base: Path, i: nat, c: Path)
    requires i < |es| && c in WalkRows(es[i], base + [Index(at + i)])
    ensures c in WalkElems(es, at, base)
    decreases |es|
  {
    if i == 0 {
      ScalarHoldsNone(es[0], base + [Index(at)]);
      hide WalkRows;
    } else {
      hide WalkRows;
      InElems(es[1..], at + 1, base, i - 1, c);
    }
  }

  lemma ScalarHoldsNone(v: Json, base: Path)
    ensures !v.Arr? && !v.Obj? ==> WalkRows(v, base) == []
  {
  }

  // ---------- conservation ----------

  /** What a trim drops is exactly what the payload can no longer drop. */
  lemma {:induction false} TrimConserves(v: Json, d: nat)
    requires d <= Capacity(v)
    ensures Capacity(Trim(v, d)) + d == Capacity(v)
    decreases v
  {
    hide TrimFields, TrimElems, CapacityFields, CapacityElems, SortedKeys;
    match v
    case Arr(es) =>
      if !RowArray(es) {
        TrimElemsConserve(es, Min(d, CapacityElems(es)));
        ArrayConserves(es, d);
      }
    case Obj(m) =>
      TrimFieldsConserve(v, SortedKeys(m.Keys), d, Trim(v, d));
      assert Trim(v, d).fields.Keys == m.Keys;
    case _ =>
  }

  /** What a trim of the whole payload drops is exactly what it can no longer drop. */
  lemma SpentConserves(root: Json, d: nat)
    requires d <= Room(root)
    ensures Room(Spent(root, d)) + d == Room(root)
  {
    match root
    case Obj(_) => TrimConserves(root, d);
    case Arr(es) =>
      if !RowArray(es) {
        TrimElemsConserve(es, d);
        TrimElemsShortens(es, d);
        SameKind(TrimElems(es, d)[0], es[0]);
      }
    case _ =>
  }

  /** A trim of the whole payload shortens nothing but droppable arrays below the top level. */
  lemma SpentShortens(root: Json, d: nat)
    ensures Shortened(Spent(root, d), root)
    ensures root.Arr? ==> Spent(root, d).Arr? && |Spent(root, d).elems| == |root.elems|
  {
    hide Trim, TrimElems;
    match root
    case Obj(_) => TrimShortens(root, d);
    case Arr(es) => if RowArray(es) { ShortenedSelf(root); } else { TrimElemsShortens(es, d); }
    case _ => ShortenedSelf(root);
  }

  lemma SpentNothing(root: Json)
    ensures Spent(root, 0) == root
  {
    hide Trim, TrimElems;
    match root
    case Obj(_) => TrimNothing(root);
    case Arr(es) => TrimElemsNothing(es);
    case _ =>
  }

  lemma ArrayConserves(es: seq<Json>, d: nat)
    requires !RowArray(es) && d <= Capacity(Arr(es))
    requires var e := Min(d, CapacityElems(es)); CapacityElems(TrimElems(es, e)) + e == CapacityElems(es)
    ensures Capacity(Trim(Arr(es), d)) + d == Capacity(Arr(es))
  {
    hide TrimElems, CapacityElems;
    var e := Min(d, CapacityElems(es));
    var inner := TrimElems(es, e);
    TrimElemsShortens(es, e);
    SameKind(inner[0], es[0]);
    hide Shortened;
    assert inner[..|inner|] == inner;
    if ObjectArray(es) {
      var kept := |es| - Min(d - e, |es|);
      if d > e { CapacityPrefix(inner, kept); }
      CapacityNone();
      RecordsCapacity(inner, kept);
    }
  }

  /** A prefix of an array of records holds its own elements and what they hold. */
  lemma RecordsCapacity(es: seq<Json>, n: nat)
    requires n <= |es| && es != [] && es[0].Obj?
    ensures Capacity(Arr(es[..n])) == CapacityElems(es[..n]) + n
  {
    if n == 0 { CapacityNone(); }
    hide CapacityElems;
  }

  lemma CapacityNone()
    ensures CapacityElems([]) == 0
  {
  }

  lemma {:induction false} CapacityPrefix(es: seq<Json>, n: nat)
    requires n <= |es| && CapacityElems(es) == 0
    ensures CapacityElems(es[..n]) == 0
    decreases es
  {
    if n > 0 {
      CapacityPrefix(es[1..], n - 1);
      assert es[..n][1..] == es[1..][..n - 1];
    }
  }

  lemma CapacityCons(x: Json, xs: seq<Json>)
    ensures CapacityElems([x] + xs) == Capacity(x) + CapacityElems(xs)
  {
    hide Capacity;
    assert ([x] + xs)[1..] == xs;
  }

  lemma {:induction false} TrimElemsConserve(es: seq<Json>, d: nat)
    requires d <= CapacityElems(es)
    ensures CapacityElems(TrimElems(es, d)) + d == CapacityElems(es)
    decreases es
  {
    if es == [] {
      CapacityNone();
    } else {
      hide Trim, Capacity, TrimElems, CapacityElems;
      var e := Min(d, Capacity(es[0]));
      CapacityElemsHead(es);
      TrimConserves(es[0], e);
      TrimElemsConserve(es[1..], d - e);
      TrimElemsHead(es, d);
      CapacityCons(Trim(es[0], e), TrimElems(es[1..], d - e));
    }
  }

  lemma {:induction false} TrimFieldsConserve(v: Json, ks: seq<string>, d: nat, w: Json)
    requires v.Obj? && (forall i :: 0 <= i < |ks| ==> ks[i] in v.fields) && Distinct(ks)
    requires w.Obj? && forall i :: 0 <= i < |ks| ==> ks[i] in w.fields && w.fields[ks[i]] == TrimFields(v, ks, d)[ks[i]]
    requires d <= CapacityFields(v, ks)
    ensures CapacityFields(w, ks) + d == CapacityFields(v, ks)
    decreases v, |ks|
  {
    if ks != [] {
      hide Trim, Capacity, TrimFields, CapacityFields;
      var e := Min(d, Capacity(v.fields[ks[0]]));
      TrimConserves(v.fields[ks[0]], e);
      DistinctTail(ks);
      TrimFieldsHead(v, ks, d);
      CapacityFieldsHead(v, ks);
      CapacityFieldsHead(w, ks);
      forall i | 0 <= i < |ks[1..]|
        ensures ks[1..][i] in w.fields && w.fields[ks[1..][i]] == TrimFields(v, ks[1..], d - e)[ks[1..][i]]
      {
        assert ks[1..][i] == ks[i + 1] != ks[0];
      }
      TrimFieldsConserve(v, ks[1..], d - e, w);
    }
  }
}
