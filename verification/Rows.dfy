/** Locating and shortening the droppable arrays of a decoded payload
    (internal/cbmexec/exec.go: rowPath, walkRows, rowList). */
module Rows {
  import opened Text
  import opened Json

  /** One hop of a path: into an object's member or an array's element. */
  datatype Step = Key(key: string) | Index(idx: nat)

  type Path = seq<Step>

  // ---------- resolving a path ----------

  function Resolve(root: Json, p: Path): Option<Json> {
    if p == [] then Some(root)
    else
      match p[0]
      case Key(k) => if root.Obj? && k in root.fields then Resolve(root.fields[k], p[1..]) else None
      case Index(i) => if root.Arr? && i < |root.elems| then Resolve(root.elems[i], p[1..]) else None
  }

  /** The array at the path, or nothing when some hop cannot be taken. */
  function Get(root: Json, p: Path): seq<Json> {
    match Resolve(root, p)
    case Some(Arr(es)) => es
    case _ => []
  }

  /** `rowPath.get`: the loop that walks the path. */
  method GetRows(root: Json, p: Path) returns (arr: seq<Json>)
    ensures arr == Get(root, p)
  {
    var cur := root;
    for i := 0 to |p|
      invariant Resolve(root, p) == Resolve(cur, p[i..])
    {
      match p[i] {
        case Key(k) =>
          if !cur.Obj? || k !in cur.fields { return []; }
          cur := cur.fields[k];
        case Index(j) =>
          if !cur.Arr? || j >= |cur.elems| { return []; }
          cur := cur.elems[j];
      }
      assert p[i..][1..] == p[i + 1..];
    }
    arr := if cur.Arr? then cur.elems else [];
  }

  // ---------- storing at a path ----------

  // A hop holds both a key and an index; the unused one is Go's zero value.
  function StepKey(s: Step): string { if s.Key? then s.key else "" }
  function StepIndex(s: Step): nat { if s.Index? then s.idx else 0 }

  /** `rowPath.set`: `None` is the panic of a failed type assertion. */
  function SetRows(root: Json, p: Path, arr: seq<Json>): Option<Json>
    decreases |p|
  {
    if p == [] then Some(root)
    else if |p| == 1 then
      match root
      case Obj(m) => Some(Obj(m[StepKey(p[0]) := Arr(arr)]))
      case Arr(es) => Some(if StepIndex(p[0]) < |es| then Arr(es[StepIndex(p[0]) := Arr(arr)]) else root)
      case _ => Some(root)
    else
      match p[0]
      case Key(k) =>
        if !root.Obj? then None
        else if k in root.fields then
          (match SetRows(root.fields[k], p[1..], arr)
           case Some(x) => Some(Obj(root.fields[k := x]))
           case None => None)
        else
          // A missing key yields nil, and storing below nil changes nothing.
          (match SetRows(Null, p[1..], arr)
           case Some(_) => Some(root)
           case None => None)
      case Index(i) =>
        if root.Arr? && i < |root.elems| then
          (match SetRows(root.elems[i], p[1..], arr)
           case Some(x) => Some(Arr(root.elems[i := x]))
           case None => None)
        else Some(root)
  }

  /** The tree with the value at `p` replaced. */
  function Plug(root: Json, p: Path, x: Json): Json
    requires Resolve(root, p).Some?
  {
    if p == [] then x
    else
      match p[0]
      case Key(k) => Obj(root.fields[k := Plug(root.fields[k], p[1..], x)])
      case Index(i) => Arr(root.elems[i := Plug(root.elems[i], p[1..], x)])
  }

  /** Storing where a non-empty array was found never panics and replaces exactly that array. */
  lemma {:induction false} SetReplaces(root: Json, p: Path, arr: seq<Json>)
    requires p != [] && Get(root, p) != []
    ensures SetRows(root, p, arr) == Some(Plug(root, p, Arr(arr)))
  {
    if |p| > 1 {
      match p[0]
      case Key(k) => SetReplaces(root.fields[k], p[1..], arr);
      case Index(i) => SetReplaces(root.elems[i], p[1..], arr);
    } else {
      assert Resolve(root, p).Some?;
      assert p[1..] == [];
    }
  }

  // ---------- laws of Resolve and Plug ----------

  lemma {:induction false} ResolvePlug(root: Json, p: Path, x: Json)
    requires Resolve(root, p).Some?
    ensures Resolve(Plug(root, p, x), p) == Some(x)
  {
    if p != [] {
      match p[0]
      case Key(k) => ResolvePlug(root.fields[k], p[1..], x);
      case Index(i) => ResolvePlug(root.elems[i], p[1..], x);
    }
  }

  lemma {:induction false} PlugPlug(root: Json, p: Path, x: Json, y: Json)
    requires Resolve(root, p).Some? && Resolve(Plug(root, p, x), p).Some?
    ensures Plug(Plug(root, p, x), p, y) == Plug(root, p, y)
  {
    if p != [] {
      match p[0]
      case Key(k) => PlugPlug(root.fields[k], p[1..], x, y);
      case Index(i) => PlugPlug(root.elems[i], p[1..], x, y);
    }
  }

  lemma {:induction false} PlugSelf(root: Json, p: Path)
    requires Resolve(root, p).Some?
    ensures Plug(root, p, Resolve(root, p).value) == root
  {
    if p != [] {
      match p[0]
      case Key(k) => PlugSelf(root.fields[k], p[1..]);
      case Index(i) => PlugSelf(root.elems[i], p[1..]);
    }
  }

  lemma {:induction false} ResolveAppend(root: Json, p: Path, q: Path)
    requires Resolve(root, p).Some?
    ensures Resolve(root, p + q) == Resolve(Resolve(root, p).value, q)
  {
    if p == [] {
      assert p + q == q;
    } else {
      assert (p + q)[1..] == p[1..] + q;
      match p[0]
      case Key(k) => ResolveAppend(root.fields[k], p[1..], q);
      case Index(i) => ResolveAppend(root.elems[i], p[1..], q);
    }
  }

  lemma {:induction false} PlugAppend(root: Json, p: Path, q: Path, x: Json)
    requires Resolve(root, p).Some? && Resolve(Resolve(root, p).value, q).Some?
    ensures Resolve(root, p + q).Some?
    ensures Plug(root, p + q, x) == Plug(root, p, Plug(Resolve(root, p).value, q, x))
  {
    ResolveAppend(root, p, q);
    if p == [] {
      assert p + q == q;
    } else {
      assert (p + q)[1..] == p[1..] + q;
      match p[0]
      case Key(k) => PlugAppend(root.fields[k], p[1..], q, x);
      case Index(i) => PlugAppend(root.elems[i], p[1..], q, x);
    }
  }

  // ---------- which arrays may be shortened, and in which order ----------

  /** An array of arrays: a positional table (or empty). */
  predicate RowArray(es: seq<Json>) { es == [] || es[0].Arr? }

  /** An array of objects: records (or empty). */
  predicate ObjectArray(es: seq<Json>) { es == [] || es[0].Obj? }

  /** `walkRows`: the droppable containers reachable from `v`, nested ones first, object
      members in key order.  An array of records directly under a key is registered twice. */
  function WalkRows(v: Json, path: Path): seq<Path>
    decreases v
  {
    match v
    case Arr(es) =>
      if RowArray(es) then [path]
      else WalkElems(es, 0, path) + (if ObjectArray(es) then [path] else [])
    case Obj(m) => WalkFields(v, SortedKeys(m.Keys), path)
    case _ => []
  }

  function WalkElems(es: seq<Json>, i: nat, path: Path): seq<Path>
    decreases es
  {
    if es == [] then []
    else
      (if es[0].Arr? || es[0].Obj? then WalkRows(es[0], path + [Index(i)]) else [])
      + WalkElems(es[1..], i + 1, path)
  }

  function WalkFields(v: Json, ks: seq<string>, path: Path): seq<Path>
    requires v.Obj? && forall i :: 0 <= i < |ks| ==> ks[i] in v.fields
    decreases v, |ks|
  {
    if ks == [] then []
    else
      var p, child := path + [Key(ks[0])], v.fields[ks[0]];
      WalkRows(child, p)
      + (if child.Arr? && ObjectArray(child.elems) then [p] else [])
      + WalkFields(v, ks[1..], path)
  }

  function RowContainers(root: Json): seq<Path> { WalkRows(root, []) }

  function Min(a: nat, b: nat): (m: nat)
    ensures m <= a && m <= b && (m == a || m == b)
  {
    if a < b then a else b
  }

  /** Drop up to `d` elements, spending each container from its end before the next
      one is touched: what the trim does to the tree, container by container. */
  function DropAlong(root: Json, cs: seq<Path>, d: nat): Json
    decreases |cs|
  {
    if cs == [] || d == 0 then root
    else
      var arr := Get(root, cs[0]);
      if arr == [] then DropAlong(root, cs[1..], d)
      else
        var e := Min(d, |arr|);
        match SetRows(root, cs[0], arr[..|arr| - e])
        case Some(next) => DropAlong(next, cs[1..], d - e)
        case None => root
  }

  // ---------- the same trim without paths ----------

  /** How many elements may be dropped from `v`, each container counted once. */
  function Capacity(v: Json): nat
    decreases v
  {
    match v
    case Arr(es) =>
      if RowArray(es) then |es| else CapacityElems(es) + (if ObjectArray(es) then |es| else 0)
    case Obj(m) => CapacityFields(v, SortedKeys(m.Keys))
    case _ => 0
  }

  function CapacityElems(es: seq<Json>): nat
    decreases es
  {
    if es == [] then 0 else Capacity(es[0]) + CapacityElems(es[1..])
  }

  function CapacityFields(v: Json, ks: seq<string>): nat
    requires v.Obj? && forall i :: 0 <= i < |ks| ==> ks[i] in v.fields
    decreases v, |ks|
  {
    if ks == [] then 0 else Capacity(v.fields[ks[0]]) + CapacityFields(v, ks[1..])
  }

  /** `v` after `d` droppable elements are gone: rows from the end of their table, a record
      only after every row inside the records of its array. */
  function Trim(v: Json, d: nat): Json
    decreases v
  {
    match v
    case Arr(es) =>
      if RowArray(es) then Arr(es[..|es| - Min(d, |es|)])
      else
        var e := Min(d, CapacityElems(es));
        var inner := TrimElems(es, e);
        if ObjectArray(es) then Arr(inner[..|es| - Min(d - e, |es|)]) else Arr(inner)
    case Obj(m) => Obj(TrimFields(v, SortedKeys(m.Keys), d))
    case _ => v
  }

  function TrimElems(es: seq<Json>, d: nat): (r: seq<Json>)
    ensures |r| == |es|
    decreases es
  {
    if es == [] then []
    else
      var e := Min(d, Capacity(es[0]));
      [Trim(es[0], e)] + TrimElems(es[1..], d - e)
  }

  function TrimFields(v: Json, ks: seq<string>, d: nat): (r: map<string, Json>)
    requires v.Obj? && forall i :: 0 <= i < |ks| ==> ks[i] in v.fields
    ensures r.Keys == set k | k in ks
    decreases v, |ks|
  {
    if ks == [] then map[]
    else
      var e := Min(d, Capacity(v.fields[ks[0]]));
      TrimFields(v, ks[1..], d - e)[ks[0] := Trim(v.fields[ks[0]], e)]
  }

  // ---------- the payload as a whole ----------

  /** How many elements the payload can lose.  A top-level array is itself never shortened, because
      a store at the empty path does nothing. */
  function Room(root: Json): nat {
    match root
    case Obj(_) => Capacity(root)
    case Arr(es) => if RowArray(es) then 0 else CapacityElems(es)
    case _ => 0
  }

  /** The payload after `d` droppable elements are gone. */
  function Spent(root: Json, d: nat): Json {
    match root
    case Obj(_) => Trim(root, d)
    case Arr(es) => if RowArray(es) then root else Arr(TrimElems(es, d))
    case _ => root
  }
}
