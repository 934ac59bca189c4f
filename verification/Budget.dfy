/** `BudgetResult`: trimming a payload, row by row, until its marked text fits
    (internal/cbmexec/exec.go). */
module Budget {
  import opened Text
  import opened Json
  import opened JsonProofs
  import opened Rows
  import opened RowsProofs
  import opened TrimLaws
  import opened RowCount

  const TRUNCATED := "budget_truncated"
  const DROPPED := "rows_dropped"
  const EXCEEDED := "budget_exceeded"

  /** `withMarkers`: a copy of the payload that says what the budget cost. */
  function Marked(root: Json, dropped: nat, exceeded: bool): Json {
    if !root.Obj? || (dropped == 0 && !exceeded) then root
    else
      var out := root.fields[TRUNCATED := Bool(true)][DROPPED := Num(Decimal(dropped))];
      Obj(if exceeded then out[EXCEEDED := Bool(true)] else out)
  }

  /** `markedSize`: the bytes that would be delivered. */
  function MarkedSize(root: Json, dropped: nat): nat { |Encode(Marked(root, dropped, false))| }

  // ---------- how one change moves the length of the text ----------

  lemma {:induction false} ElemsWidth(es: seq<Json>, i: nat, y: Json)
    requires i < |es|
    ensures |EncodeElems(es[i := y])| + |Encode(es[i])| == |EncodeElems(es)| + |Encode(y)|
    decreases |es|
  {
    hide Encode;
    if i > 0 {
      ElemsWidth(es[1..], i - 1, y);
      assert es[i := y][1..] == es[1..][i - 1 := y];
    } else {
      assert es[i := y][1..] == es[1..];
    }
  }

  lemma {:induction false} ElemsAppend(es: seq<Json>, x: Json)
    ensures |EncodeElems(es + [x])| == |EncodeElems(es)| + |Encode(x)| + (if es == [] then 0 else 1)
    decreases |es|
  {
    hide Encode;
    if es == [] {
      assert es + [x] == [x];
    } else {
      ElemsAppend(es[1..], x);
      assert (es + [x])[1..] == es[1..] + [x];
    }
  }

  /** Two objects that differ at one key differ in length by that member. */
  lemma {:induction false} FieldsWidth(v: Json, w: Json, ks: seq<string>, k: string)
    requires v.Obj? && w.Obj? && Distinct(ks)
    requires forall i :: 0 <= i < |ks| ==> ks[i] in v.fields && ks[i] in w.fields
    requires forall i :: 0 <= i < |ks| ==> ks[i] == k || v.fields[ks[i]] == w.fields[ks[i]]
    ensures k !in ks ==> |EncodeFields(w, ks, COMPACT)| == |EncodeFields(v, ks, COMPACT)|
    ensures k in ks ==>
      |EncodeFields(w, ks, COMPACT)| + |Encode(v.fields[k])| == |EncodeFields(v, ks, COMPACT)| + |Encode(w.fields[k])|
    decreases |ks|
  {
    if ks != [] {
      hide Encode, Quote;
      DistinctTail(ks);
      FieldsWidth(v, w, ks[1..], k);
      assert k in ks <==> k == ks[0] || k in ks[1..];
    }
  }

  lemma ObjectWidth(v: Json, w: Json, k: string)
    requires v.Obj? && w.Obj? && v.fields.Keys == w.fields.Keys && k in v.fields
    requires forall x :: x in v.fields && x != k ==> v.fields[x] == w.fields[x]
    ensures |Encode(w)| + |Encode(v.fields[k])| == |Encode(v)| + |Encode(w.fields[k])|
  {
    var ks := SortedKeys(v.fields.Keys);
    FieldsWidth(v, w, ks, k);
    assert k in ks;
    assert ks != [];
    hide EncodeFields, SortedKeys, Distinct;
    assert Encode(v) == EncodeObject(v, ks, COMPACT) && Encode(w) == EncodeObject(w, ks, COMPACT);
  }

  lemma ElementWidth(es: seq<Json>, i: nat, y: Json)
    requires i < |es|
    ensures |Encode(Arr(es[i := y]))| + |Encode(es[i])| == |Encode(Arr(es))| + |Encode(y)|
  {
    ElemsWidth(es, i, y);
    hide EncodeElems;
  }

  lemma {:induction false} PlugWidth(root: Json, p: Path, x: Json)
    requires Resolve(root, p).Some?
    ensures |Encode(Plug(root, p, x))| + |Encode(Resolve(root, p).value)| == |Encode(root)| + |Encode(x)|
    decreases |p|
  {
    hide Encode;
    if p != [] {
      match p[0]
      case Key(k) =>
        PlugWidth(root.fields[k], p[1..], x);
        ObjectWidth(root, Plug(root, p, x), k);
      case Index(i) =>
        PlugWidth(root.elems[i], p[1..], x);
        ElementWidth(root.elems, i, Plug(root.elems[i], p[1..], x));
    }
  }

  lemma ContainerText(v: Json)
    requires v.Arr? || v.Obj?
    ensures |Encode(v)| >= 2
  {
    hide EncodeElems, EncodeFields;
  }

  /** Every element of a droppable array costs at least two bytes. */
  lemma ArrayWidth(arr: seq<Json>, j: nat)
    requires j < |arr| && (arr[0].Arr? || arr[0].Obj?) && WellFormed(Arr(arr))
    ensures |Encode(Arr(arr[..j]))| + 2 <= |Encode(Arr(arr[..j + 1]))|
  {
    assert arr[..j + 1] == arr[..j] + [arr[j]];
    ElemsAppend(arr[..j], arr[j]);
    EncodeStart(arr[j]);
    ContainerText(arr[0]);
    ArrayText(arr[..j]);
    ArrayText(arr[..j + 1]);
    hide Encode, EncodeElems;
  }

  lemma ArrayText(es: seq<Json>)
    ensures |Encode(Arr(es))| == 2 + |EncodeElems(es)|
  {
    hide EncodeElems;
  }

  // ---------- markers ----------

  /** The path of an object payload that starts at a member which the markers overwrite. */
  predicate Hidden(p: Path) { p != [] && p[0].Key? && (p[0].key == TRUNCATED || p[0].key == DROPPED) }

  lemma MarkedDigits(root: Json, d: nat, d': nat)
    requires root.Obj? && d > 0 && d' > 0
    ensures MarkedSize(root, d') + |Decimal(d)| == MarkedSize(root, d) + |Decimal(d')|
  {
    ObjectWidth(Marked(root, d, false), Marked(root, d', false), DROPPED);
    assert Encode(Num(Decimal(d))) == Decimal(d) && Encode(Num(Decimal(d'))) == Decimal(d');
    hide Encode, Decimal;
  }

  lemma MarkedPlug(root: Json, p: Path, x: Json, d: nat)
    requires root.Obj? && p != [] && Resolve(root, p).Some? && d > 0
    ensures Hidden(p) ==> Marked(Plug(root, p, x), d, false) == Marked(root, d, false)
    ensures !Hidden(p) ==>
      Resolve(Marked(root, d, false), p) == Resolve(root, p)
      && Marked(Plug(root, p, x), d, false) == Plug(Marked(root, d, false), p, x)
  {
    var k := p[0].key;
    var y := Plug(root.fields[k], p[1..], x);
    PlugMember(root, p, x);
    if !Hidden(p) {
      PlugMember(Marked(root, d, false), p, x);
    }
    hide Decimal, Plug, Resolve;
    MarkersCommute(root.fields, k, y, d);
  }

  lemma PlugMember(root: Json, p: Path, x: Json)
    requires root.Obj? && p != [] && p[0].Key? && p[0].key in root.fields
    requires Resolve(root.fields[p[0].key], p[1..]).Some?
    ensures Resolve(root, p) == Resolve(root.fields[p[0].key], p[1..])
    ensures Plug(root, p, x) == Obj(root.fields[p[0].key := Plug(root.fields[p[0].key], p[1..], x)])
  {
  }

  lemma MarkersCommute(m: map<string, Json>, k: string, y: Json, d: nat)
    requires k in m && d > 0
    ensures k == TRUNCATED || k == DROPPED ==> Marked(Obj(m[k := y]), d, false) == Marked(Obj(m), d, false)
    ensures k != TRUNCATED && k != DROPPED ==>
      Marked(Obj(m[k := y]), d, false) == Obj(Marked(Obj(m), d, false).fields[k := y])
      && Marked(Obj(m), d, false).fields[k] == m[k]
  {
    hide Decimal;
  }

  // ---------- one container ----------

  /** The payload with `x` elements cut off the container at `p`. */
  function Cut(root: Json, p: Path, x: nat): Json
    requires Resolve(root, p).Some? && x <= |Get(root, p)|
  {
    var arr := Get(root, p);
    Plug(root, p, Arr(arr[..|arr| - x]))
  }

  ghost predicate Container(root: Json, p: Path) {
    WellFormed(root) && p != [] && Get(root, p) != [] && Droppable(root, p)
  }

  lemma {:induction false} GetWellFormed(root: Json, p: Path)
    requires WellFormed(root)
    ensures WellFormed(Arr(Get(root, p)))
    decreases |p|
  {
    if p != [] {
      match p[0]
      case Key(k) => if root.Obj? && k in root.fields { GetWellFormed(root.fields[k], p[1..]); }
      case Index(i) => if root.Arr? && i < |root.elems| { GetWellFormed(root.elems[i], p[1..]); }
    }
  }

  /** With the markers held fixed, one element more in the container is two bytes more, or,
      under a key that the markers overwrite, nothing. */
  lemma CutWidth(root: Json, p: Path, d: nat, j: nat)
    requires Container(root, p) && d > 0 && j < |Get(root, p)|
    ensures var short, long := Plug(root, p, Arr(Get(root, p)[..j])), Plug(root, p, Arr(Get(root, p)[..j + 1]));
            && (!Hidden(p) ==> MarkedSize(short, d) + 2 <= MarkedSize(long, d))
            && (Hidden(p) ==> MarkedSize(short, d) == MarkedSize(long, d))
  {
    GetWellFormed(root, p);
    assert Resolve(root, p).Some?;
    var arr := Get(root, p);
    ArrayWidth(arr, j);
    PlugKind(root, p, Arr(arr[..j]));
    PlugKind(root, p, Arr(arr[..j + 1]));
    hide Encode, Plug, Resolve, Get, WellFormed, Marked, Hidden;
    var short, long := Arr(arr[..j]), Arr(arr[..j + 1]);
    if !root.Obj? {
      Unmarked(root, d);
      Unmarked(Plug(root, p, short), d);
      Unmarked(Plug(root, p, long), d);
    } else {
      MarkedPlug(root, p, long, d);
      MarkedPlug(root, p, short, d);
    }
    if !Hidden(p) {
      PlugWidth(Marked(root, d, false), p, long);
      PlugWidth(Marked(root, d, false), p, short);
    }
  }

  /** One more dropped element makes the delivered text shorter, although `rows_dropped` may
      gain a digit; under a key that the markers overwrite, it never makes it shorter. */
  lemma CutStep(root: Json, p: Path, base: nat, x: nat)
    requires Container(root, p) && 1 <= x < |Get(root, p)|
    ensures !Hidden(p) ==> MarkedSize(Cut(root, p, x + 1), base + x + 1) < MarkedSize(Cut(root, p, x), base + x)
    ensures Hidden(p) ==> MarkedSize(Cut(root, p, x + 1), base + x + 1) >= MarkedSize(Cut(root, p, x), base + x)
  {
    var arr := Get(root, p);
    var j := |arr| - x - 1;
    CutWidth(root, p, base + x, j);
    PlugKind(root, p, Arr(arr[..j]));
    assert |arr| - (x + 1) == j && |arr| - x == j + 1;
    hide MarkedSize, Plug, Resolve, Get, Hidden, Container, Natural;
    if root.Obj? {
      MarkedDigits(Plug(root, p, Arr(arr[..j])), base + x, base + x + 1);
      NaturalGrowsSlowly(base + x);
    } else {
      SameSize(Plug(root, p, Arr(arr[..j])), base + x, base + x + 1);
    }
  }

  lemma PlugKind(root: Json, p: Path, x: Json)
    requires p != [] && Resolve(root, p).Some?
    ensures Plug(root, p, x).Obj? == root.Obj? && Plug(root, p, x).Arr? == root.Arr?
    ensures !root.Obj? ==> !Hidden(p)
  {
  }

  lemma Unmarked(root: Json, d: nat)
    requires !root.Obj?
    ensures Marked(root, d, false) == root
  {
  }

  lemma SameSize(root: Json, d: nat, d': nat)
    requires !root.Obj?
    ensures MarkedSize(root, d) == MarkedSize(root, d')
  {
  }

  lemma {:induction false} CutMonotone(root: Json, p: Path, base: nat, x: nat, y: nat)
    requires Container(root, p) && 1 <= x <= y <= |Get(root, p)|
    ensures !Hidden(p) ==> MarkedSize(Cut(root, p, y), base + y) <= MarkedSize(Cut(root, p, x), base + x)
    ensures Hidden(p) ==> MarkedSize(Cut(root, p, x), base + x) <= MarkedSize(Cut(root, p, y), base + y)
    decreases y
  {
    hide MarkedSize, Cut, Hidden, Resolve, Get, Droppable, WellFormed;
    if x < y {
      CutMonotone(root, p, base, x, y - 1);
      CutStep(root, p, base, y - 1);
    }
  }

  /** If the first and a later measurement are over budget, so is everything up to the later one. */
  lemma OverBetween(root: Json, p: Path, base: nat, x: nat, budget: int)
    requires Container(root, p) && 1 <= x <= |Get(root, p)|
    requires MarkedSize(Cut(root, p, 1), base + 1) > budget && MarkedSize(Cut(root, p, x), base + x) > budget
    ensures forall y :: 1 <= y <= x ==> MarkedSize(Cut(root, p, y), base + y) > budget
  {
    hide MarkedSize, Cut, Hidden, Resolve, Droppable, WellFormed;
    forall y | 1 <= y <= x ensures MarkedSize(Cut(root, p, y), base + y) > budget {
      CutMonotone(root, p, base, y, x);
      CutMonotone(root, p, base, 1, y);
    }
  }
}
