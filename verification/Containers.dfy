/** Which arrays of a payload are containers, told from the payload and a path alone
    (internal/cbmexec/exec.go). */
module Containers {
  import opened Text
  import opened Json
  import opened Rows
  import opened RowsProofs
  import opened RowCount

  /** A non-empty array whose first element is an array: a positional table. */
  predicate Table(v: Json) { v.Arr? && v.elems != [] && v.elems[0].Arr? }

  /** The path leads to an array that is empty or starts with an array or an object, and passes through no
      table on the way. */
  ghost predicate IsContainer(v: Json, q: Path) {
    && Resolve(v, q).Some? && Resolve(v, q).value.Arr?
    && (var es := Resolve(v, q).value.elems; es == [] || es[0].Arr? || es[0].Obj?)
    && forall n :: 0 <= n < |q| ==> Resolve(v, q[..n]).Some? && !Table(Resolve(v, q[..n]).value)
  }

  lemma ContainerStep(v: Json, q: Path)
    requires q != []
    ensures IsContainer(v, q) <==>
              !Table(v) && Resolve(v, q[..1]).Some? && IsContainer(Resolve(v, q[..1]).value, q[1..])
  {
    assert q == q[..1] + q[1..] && q[..0] == [];
    if Resolve(v, q[..1]).Some? {
      var x := Resolve(v, q[..1]).value;
      ResolveAppend(v, q[..1], q[1..]);
      forall n | 0 <= n < |q| - 1 ensures Resolve(v, q[..n + 1]) == Resolve(x, q[1..][..n]) {
        assert q[..n + 1] == q[..1] + q[1..][..n];
        ResolveAppend(v, q[..1], q[1..][..n]);
      }
      hide Resolve;
      if IsContainer(v, q) {
        assert Resolve(v, q[..0]) == Some(v) by { Whole(v); }
        forall n | 0 <= n < |q| - 1 ensures Resolve(x, q[1..][..n]).Some? && !Table(Resolve(x, q[1..][..n]).value) {
          assert Resolve(v, q[..n + 1]).Some? && !Table(Resolve(v, q[..n + 1]).value);
        }
      }
      if !Table(v) && IsContainer(x, q[1..]) {
        Whole(v);
        forall n | 0 <= n < |q| ensures Resolve(v, q[..n]).Some? && !Table(Resolve(v, q[..n]).value) {
          if n > 0 { assert Resolve(v, q[..n]) == Resolve(x, q[1..][..n - 1]); }
        }
      }
    } else {
      NotThere(v, q);
    }
  }

  lemma Whole(v: Json)
    ensures Resolve(v, []) == Some(v)
  {
  }

  lemma NotThere(v: Json, q: Path)
    requires q != [] && Resolve(v, q[..1]) == None
    ensures Resolve(v, q) == None
  {
    assert q[..1][0] == q[0] && q[..1][1..] == [];
  }

  /** The path is recorded in the walk of element `j` of the rest of an array that starts at position `i`. */
  ghost predicate InElem(es: seq<Json>, i: nat, path: Path, c: Path, j: int)
    requires 0 <= j < |es|
  {
    c in UniqueRows(es[j], path + [Index(i + j)])
  }

  lemma {:induction false} ElemsAre(es: seq<Json>, i: nat, path: Path, c: Path)
    ensures c in UniqueElems(es, i, path) <==> exists j :: 0 <= j < |es| && InElem(es, i, path, c, j)
    decreases |es|
  {
    if es != [] {
      var rest, next := es[1..], i + 1;
      ElemsAre(rest, next, path, c);
      ElemsHead(es, i, path);
      forall j | 0 < j < |es| ensures InElem(es, i, path, c, j) <==> InElem(rest, next, path, c, j - 1) {
        LaterElem(es, i, path, c, j - 1);
      }
      FirstElem(es, i, path, c);
      hide InElem, UniqueElems, UniqueRows;
      if exists j :: 0 <= j < |es| && InElem(es, i, path, c, j) {
        var j :| 0 <= j < |es| && InElem(es, i, path, c, j);
        if j > 0 { assert InElem(rest, next, path, c, j - 1); }
      }
      if exists j :: 0 <= j < |rest| && InElem(rest, next, path, c, j) {
        var j :| 0 <= j < |rest| && InElem(rest, next, path, c, j);
        assert InElem(es, i, path, c, j + 1);
      }
    }
  }

  lemma ElemsHead(es: seq<Json>, i: nat, path: Path)
    requires es != []
    ensures UniqueElems(es, i, path) == UniqueRows(es[0], path + [Index(i)]) + UniqueElems(es[1..], i + 1, path)
  {
    hide UniqueRows;
  }

  lemma FirstElem(es: seq<Json>, i: nat, path: Path, c: Path)
    requires es != []
    ensures InElem(es, i, path, c, 0) <==> c in UniqueRows(es[0], path + [Index(i)])
  {
    hide UniqueRows;
    assert i + 0 == i;
  }

  lemma LaterElem(es: seq<Json>, i: nat, path: Path, c: Path, j: nat)
    requires j < |es| - 1
    ensures InElem(es[1..], i + 1, path, c, j) <==> InElem(es, i, path, c, j + 1)
  {
    hide UniqueRows;
    assert i + 1 + j == i + (j + 1) && es[1..][j] == es[j + 1];
  }

  ghost predicate InField(v: Json, path: Path, c: Path, k: string)
    requires v.Obj? && k in v.fields
  {
    c in UniqueRows(v.fields[k], path + [Key(k)])
  }

  lemma {:induction false} FieldsAre(v: Json, ks: seq<string>, path: Path, c: Path)
    requires v.Obj? && forall i :: 0 <= i < |ks| ==> ks[i] in v.fields
    ensures c in UniqueFields(v, ks, path) <==> exists k :: k in ks && InField(v, path, c, k)
    decreases |ks|
  {
    if ks != [] {
      FieldsAre(v, ks[1..], path, c);
      FieldsHead(v, ks, path);
      assert InField(v, path, c, ks[0]) <==> c in UniqueRows(v.fields[ks[0]], path + [Key(ks[0])]);
      assert forall k :: k in ks <==> k == ks[0] || k in ks[1..];
      hide InField, UniqueRows, UniqueFields;
    }
  }

  lemma FieldsHead(v: Json, ks: seq<string>, path: Path)
    requires v.Obj? && ks != [] && forall i :: 0 <= i < |ks| ==> ks[i] in v.fields
    ensures UniqueFields(v, ks, path)
         == UniqueRows(v.fields[ks[0]], path + [Key(ks[0])]) + UniqueFields(v, ks[1..], path)
  {
    hide UniqueRows;
  }

  /** The recorded paths are exactly the containers, at and below the path the walk starts from. */
  lemma {:induction false} RowsAre(v: Json, path: Path, q: Path)
    ensures path + q in UniqueRows(v, path) <==> IsContainer(v, q)
    decreases v, 1
  {
    if q == [] {
      assert path + q == path;
      TopRows(v, path);
      Whole(v);
    } else {
      hide IsContainer;
      match v
      case Arr(es) => if RowArray(es) { TableRowsAre(es, path, q); } else { ElemRowsAre(es, path, q); }
      case Obj(_) => FieldRowsAre(v, path, q);
      case _ =>
        ContainerStep(v, q);
        NoStep(v, q);
    }
  }

  /** Nothing below a table is recorded, or a container. */
  lemma TableRowsAre(es: seq<Json>, path: Path, q: Path)
    requires RowArray(es) && q != []
    ensures path + q !in UniqueRows(Arr(es), path) && !IsContainer(Arr(es), q)
  {
    ContainerStep(Arr(es), q);
    hide IsContainer;
    ElemStep(es, q);
    assert path + q != path;
  }

  lemma {:induction false} ElemRowsAre(es: seq<Json>, path: Path, q: Path)
    requires !RowArray(es) && q != []
    ensures path + q in UniqueRows(Arr(es), path) <==> IsContainer(Arr(es), q)
    decreases Arr(es), 0
  {
    ContainerStep(Arr(es), q);
    ElemStep(es, q);
    ElemsAre(es, 0, path, path + q);
    RowsOfArray(es, path);
    assert path + q != path;
    assert !Table(Arr(es));
    forall j | 0 <= j < |es|
      ensures InElem(es, 0, path, path + q, j) <==> q[0] == Index(j) && IsContainer(es[j], q[1..])
    {
      ElemRow(es, path, q, j);
      if q[0] == Index(j) { RowsAre(es[j], path + [Index(j)], q[1..]); }
    }
    hide UniqueRows, UniqueElems, IsContainer, Resolve, InElem;
  }

  lemma ElemRow(es: seq<Json>, path: Path, q: Path, j: nat)
    requires j < |es| && q != []
    ensures InElem(es, 0, path, path + q, j) ==> q[0] == Index(j)
    ensures q[0] == Index(j) ==>
              (InElem(es, 0, path, path + q, j) <==> path + [Index(j)] + q[1..] in UniqueRows(es[j], path + [Index(j)]))
  {
    hide UniqueRows;
    assert 0 + j == j;
    BelowElem(es[j], path, Index(j), q);
    if q[0] == Index(j) { assert path + q == path + [Index(j)] + q[1..]; }
  }

  lemma {:induction false} FieldRowsAre(v: Json, path: Path, q: Path)
    requires v.Obj? && q != []
    ensures path + q in UniqueRows(v, path) <==> IsContainer(v, q)
    decreases v, 0
  {
    var ks := SortedKeys(v.fields.Keys);
    ContainerStep(v, q);
    FieldStep(v, q);
    FieldsAre(v, ks, path, path + q);
    RowsOfObject(v, path);
    assert !Table(v);
    forall k | k in v.fields
      ensures InField(v, path, path + q, k) <==> q[0] == Key(k) && IsContainer(v.fields[k], q[1..])
    {
      FieldRow(v, path, q, k);
      if q[0] == Key(k) { RowsAre(v.fields[k], path + [Key(k)], q[1..]); }
    }
    hide UniqueRows, UniqueFields, IsContainer, Resolve, InField, SortedKeys;
  }

  lemma FieldRow(v: Json, path: Path, q: Path, k: string)
    requires v.Obj? && k in v.fields && q != []
    ensures InField(v, path, path + q, k) ==> q[0] == Key(k)
    ensures q[0] == Key(k) ==>
              (InField(v, path, path + q, k) <==> path + [Key(k)] + q[1..] in UniqueRows(v.fields[k], path + [Key(k)]))
  {
    hide UniqueRows;
    BelowElem(v.fields[k], path, Key(k), q);
    if q[0] == Key(k) { assert path + q == path + [Key(k)] + q[1..]; }
  }

  lemma RowsOfObject(v: Json, path: Path)
    requires v.Obj?
    ensures UniqueRows(v, path) == UniqueFields(v, SortedKeys(v.fields.Keys), path)
  {
    hide UniqueFields, SortedKeys;
  }

  lemma RowsOfArray(es: seq<Json>, path: Path)
    requires !RowArray(es)
    ensures UniqueRows(Arr(es), path) == UniqueElems(es, 0, path) + (if ObjectArray(es) then [path] else [])
  {
  }

  lemma TopRows(v: Json, path: Path)
    ensures path in UniqueRows(v, path) <==> v.Arr? && (v.elems == [] || v.elems[0].Arr? || v.elems[0].Obj?)
  {
    match v
    case Arr(es) => ElemsBelow(es, 0, path);
    case Obj(m) => FieldsBelow(v, SortedKeys(m.Keys), path);
    case _ =>
  }

  lemma BelowElem(x: Json, path: Path, s: Step, q: Path)
    requires q != []
    ensures path + q in UniqueRows(x, path + [s]) ==> q[0] == s
  {
    RowsBelow(x, path + [s]);
    if path + q in UniqueRows(x, path + [s]) { BelowStep(path, s, path + q); }
  }

  lemma ElemStep(es: seq<Json>, q: Path)
    requires q != []
    ensures Resolve(Arr(es), q[..1])
         == if q[0].Index? && q[0].idx < |es| then Some(es[q[0].idx]) else None
  {
    assert q[..1][0] == q[0] && q[..1][1..] == [];
  }

  lemma FieldStep(v: Json, q: Path)
    requires q != [] && v.Obj?
    ensures Resolve(v, q[..1]) == if q[0].Key? && q[0].key in v.fields then Some(v.fields[q[0].key]) else None
  {
    assert q[..1][0] == q[0] && q[..1][1..] == [];
  }

  lemma NoStep(v: Json, q: Path)
    requires q != [] && !v.Obj? && !v.Arr?
    ensures Resolve(v, q[..1]) == None
  {
    assert q[..1][0] == q[0];
  }

  /** The recorded paths of a payload are exactly those of its containers. */
  lemma ContainersAre(root: Json, c: Path)
    ensures c in RowContainers(root) <==> IsContainer(root, c)
  {
    RowsAre(root, [], c);
    SameRows(root, []);
    assert [] + c == c;
  }
}
