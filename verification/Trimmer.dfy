/** The trim loop itself, over a tree that is changed in place (internal/cbmexec/exec.go). */
module Trimmer {
  import opened Text
  import opened Json
  import opened JsonProofs
  import opened Rows
  import opened RowsProofs
  import opened TrimLaws
  import opened RowCount
  import opened Budget
  import opened CutPoint

  // ---------- dropping from one container ----------

  /** `rowList.drop` as a change of the tree; `None` is the panic of a failed type assertion. */
  function Dropped(root: Json, p: Path, n: nat): Option<Json> {
    var arr := Get(root, p);
    if n == 0 || n > |arr| then Some(root) else SetRows(root, p, arr[..|arr| - n])
  }

  lemma DropAlongOne(root: Json, c: Path, n: nat)
    requires n <= |Get(root, c)|
    ensures Dropped(root, c, n) == Some(DropAlong(root, [c], n))
    ensures c == [] ==> DropAlong(root, [c], n) == root
    ensures c != [] && n > 0 ==> Resolve(root, c).Some? && DropAlong(root, [c], n) == Cut(root, c, n)
  {
    if c != [] && n > 0 { SetReplaces(root, c, Get(root, c)[..|Get(root, c)| - n]); }
  }

  /** Dropping in batches is dropping at once. */
  lemma DropTwice(root: Json, c: Path, x: nat, y: nat)
    requires x + y <= |Get(root, c)|
    ensures var mid := DropAlong(root, [c], x);
            && (c != [] ==> |Get(mid, c)| == |Get(root, c)| - x)
            && y <= |Get(mid, c)|
            && Dropped(mid, c, y) == Some(DropAlong(root, [c], x + y))
  {
    hide DropAlong, Plug, Resolve, Dropped;
    var arr := Get(root, c);
    var mid := DropAlong(root, [c], x);
    DropAlongOne(root, c, x);
    DropAlongOne(root, c, x + y);
    if x == 0 {
      DropNone(root, [c]);
    } else if c != [] {
      var rest := arr[..|arr| - x];
      ResolvePlug(root, c, Arr(rest));
      if y > 0 {
        DropAlongOne(mid, c, y);
        assert rest[..|rest| - y] == arr[..|arr| - (x + y)];
        PlugPlug(root, c, Arr(rest), Arr(arr[..|arr| - (x + y)]));
      } else {
        DroppedNothing(mid, c);
      }
    } else {
      DropAlongOne(mid, c, y);
    }
  }

  lemma DroppedNothing(root: Json, c: Path)
    ensures Dropped(root, c, 0) == Some(root)
  {
  }

  /** A container that is not yet spent hides the ones behind it. */
  lemma DropAlongHead(root: Json, c: Path, cs: seq<Path>, x: nat)
    requires x <= |Get(root, c)|
    ensures DropAlong(root, [c] + cs, x) == DropAlong(root, [c], x)
  {
    assert ([c] + cs)[1..] == cs && [c][1..] == [];
    var arr := Get(root, c);
    if x > 0 {
      DropAlongOne(root, c, x);
      DropNone(DropAlong(root, [c], x), cs);
    }
  }

  lemma DropAlongTail(root: Json, c: Path, cs: seq<Path>, k: nat)
    ensures var n := |Get(root, c)|;
            DropAlong(root, [c] + cs, n + k) == DropAlong(DropAlong(root, [c], n), cs, k)
  {
    var n := |Get(root, c)|;
    DropAlongOne(root, c, n);
    if n == 0 {
      DropAlongPast(root, c, cs, k);
      DropNone(root, [c]);
    } else {
      hide Resolve, Get, SetRows, DropAlong, Cut;
      EmptiedFirst(root, c, cs, k);
    }
  }

  lemma DropAlongPast(root: Json, c: Path, cs: seq<Path>, k: nat)
    requires Get(root, c) == []
    ensures DropAlong(root, [c] + cs, k) == DropAlong(root, cs, k)
  {
    hide Get, SetRows;
    assert ([c] + cs)[1..] == cs;
    if k == 0 { DropNone(root, cs); }
  }

  lemma EmptiedFirst(root: Json, c: Path, cs: seq<Path>, k: nat)
    requires Get(root, c) != [] && SetRows(root, c, Get(root, c)[..0]).Some?
    ensures DropAlong(root, [c] + cs, |Get(root, c)| + k)
         == DropAlong(SetRows(root, c, Get(root, c)[..0]).value, cs, k)
  {
    hide Get, SetRows;
    assert ([c] + cs)[1..] == cs;
  }

  function Pow2(k: nat): nat { if k == 0 then 1 else 2 * Pow2(k - 1) }

  /** What the measurements in one container say: one dropped element and `failed` of them are too few. */
  ghost predicate Measured(now: Json, c: Path, dropped: nat, budget: int, failed: nat) {
    failed <= |Get(now, c)| &&
    (failed > 0 ==> MarkedSize(DropAlong(now, [c], 1), dropped + 1) > budget &&
                    MarkedSize(DropAlong(now, [c], failed), dropped + failed) > budget)
  }

  /** The decoded payload: the tree that the trim shortens in place. */
  class Payload {
    var root: Json

    constructor (root: Json)
      ensures this.root == root
    {
      this.root := root;
    }

    /** `rowList.len` */
    method Len(c: Path) returns (n: nat)
      ensures n == |Get(root, c)|
    {
      var arr := GetRows(root, c);
      n := |arr|;
    }

    /** `rowList.drop`: the type assertions inside `rowPath.set` cannot fail here. */
    method Drop(c: Path, n: nat)
      modifies this
      ensures Dropped(old(root), c, n) == Some(root)
    {
      var arr := GetRows(root, c);
      if n == 0 || n > |arr| { return; }
      if c != [] { SetReplaces(root, c, arr[..|arr| - n]); }
      root := SetRows(root, c, arr[..|arr| - n]).value;
    }

    /** Spend one container in doubling batches, measuring after each.  `failed` is the largest
        measured number of dropped elements that was still over budget, and `probes` counts the
        measurements: a container of n elements costs at most log2(n) + 1 of them. */
    method TrimContainer(c: Path, dropped: nat, budget: int)
      returns (x: nat, fits: bool, ghost failed: nat, ghost probes: nat)
      modifies this
      ensures x <= |Get(old(root), c)| && root == DropAlong(old(root), [c], x)
      ensures fits ==> MarkedSize(root, dropped + x) <= budget && failed < x <= 2 * failed + 1
      ensures !fits ==> x == failed == |Get(old(root), c)|
      ensures failed <= x && Measured(old(root), c, dropped, budget, failed)
      ensures Get(old(root), c) != [] ==> Pow2(probes) <= 2 * |Get(old(root), c)|
    {
      hide DropAlong, MarkedSize, Dropped, Get;
      ghost var start := root;
      DropNone(start, [c]);
      ghost var len := |Get(root, c)|;
      x, fits, failed, probes := 0, false, 0, 0;
      var step := 1;
      var n := Len(c);
      while n > 0
        invariant x + n == len && failed == x
        invariant root == DropAlong(start, [c], x)
        invariant x > 0 ==>
          MarkedSize(DropAlong(start, [c], 1), dropped + 1) > budget &&
          MarkedSize(DropAlong(start, [c], x), dropped + x) > budget
        invariant n > 0 ==> step == x + 1 == Pow2(probes)
        invariant n == 0 && len > 0 ==> Pow2(probes) <= 2 * len
      {
        var batch := if step > n then n else step;
        DropTwice(start, c, x, batch);
        Drop(c, batch);
        x := x + batch;
        n := n - batch;
        probes := probes + 1;
        if MarkedSize(root, dropped + x) <= budget {
          fits := true;
          return;
        }
        failed := x;
        step := step * 2;
      }
    }
  }

  // ---------- what the result is ----------

  /** Dropping `d` elements makes the delivered text fit. */
  ghost predicate Fits(root: Json, budget: int, d: nat) {
    1 <= d <= Room(root) && MarkedSize(Spent(root, d), d) <= budget
  }

  ghost predicate NoneFits(root: Json, budget: int, lo: nat, hi: nat) {
    forall d :: lo < d <= hi ==> !Fits(root, budget, d)
  }

  ghost predicate LeastFit(root: Json, budget: int, d: nat) {
    Fits(root, budget, d) && NoneFits(root, budget, 0, d - 1)
  }

  /** Where the loop stands between two containers: `dropped` elements are gone and the
      containers from `i` on are still to come. */
  ghost predicate Between(root: Json, cs: seq<Path>, i: nat, now: Json, dropped: nat) {
    i <= |cs| && forall k: nat :: Continues(root, cs, i, now, dropped, k)
  }

  ghost predicate Continues(root: Json, cs: seq<Path>, i: nat, now: Json, dropped: nat, k: nat)
    requires i <= |cs|
  {
    DropAlong(root, cs, dropped + k) == DropAlong(now, cs[i..], k)
  }

  /** The trim stops inside container `i`, `base` elements after the containers before it are spent:
      `least` is the least number of dropped elements that makes the text fit, and of this container
      fewer than twice as many elements are dropped as it needs. */
  ghost predicate Stopped(root: Json, budget: int, d: nat, least: nat, i: nat, base: nat) {
    var cs := RowContainers(root);
    && LeastFit(root, budget, least) && Fits(root, budget, d)
    && i < |cs| && base <= Room(root) && Between(root, cs, i, Spent(root, base), base)
    && base < least <= d <= base + |Get(Spent(root, base), cs[i])|
    && d - base < 2 * (least - base)
  }

  /** The delivered text when the payload had to be trimmed: `d` elements are gone in the canonical
      order, the text fits, and in the container where the trim stopped fewer than twice the necessary
      number were dropped; or no number of dropped elements makes it fit and everything droppable is
      gone. */
  ghost predicate Delivered(root: Json, budget: int, out: string) {
    if exists d :: Fits(root, budget, d) then
      exists d: nat, least: nat, i: nat, base: nat ::
        Stopped(root, budget, d, least, i, base) && out == Encode(Marked(Spent(root, d), d, false))
    else out == Encode(Marked(Spent(root, Room(root)), Room(root), true))
  }

  lemma BetweenStart(root: Json, cs: seq<Path>)
    ensures Between(root, cs, 0, root, 0)
  {
    hide DropAlong;
    assert cs[0..] == cs;
    forall k: nat ensures Continues(root, cs, 0, root, 0, k) {}
  }

  /** Inside container `i`, the tree is the input after that many dropped elements. */
  lemma BetweenInside(root: Json, cs: seq<Path>, i: nat, now: Json, dropped: nat, x: nat)
    requires Between(root, cs, i, now, dropped) && i < |cs| && x <= |Get(now, cs[i])|
    ensures DropAlong(now, [cs[i]], x) == DropAlong(root, cs, dropped + x)
  {
    hide DropAlong, Get;
    assert Continues(root, cs, i, now, dropped, x);
    assert cs[i..] == [cs[i]] + cs[i + 1..];
    DropAlongHead(now, cs[i], cs[i + 1..], x);
  }

  lemma BetweenNext(root: Json, cs: seq<Path>, i: nat, now: Json, dropped: nat)
    requires Between(root, cs, i, now, dropped) && i < |cs|
    ensures var n := |Get(now, cs[i])|;
            Between(root, cs, i + 1, DropAlong(now, [cs[i]], n), dropped + n)
  {
    hide DropAlong, Get;
    var n := |Get(now, cs[i])|;
    assert cs[i..] == [cs[i]] + cs[i + 1..];
    var j, next, base := i + 1, DropAlong(now, [cs[i]], n), dropped + n;
    forall k: nat
      ensures Continues(root, cs, j, next, base, k)
    {
      DropAlongTail(now, cs[i], cs[i + 1..], k);
      assert Continues(root, cs, i, now, dropped, n + k);
      assert dropped + n + k == dropped + (n + k);
    }
  }

  // ---------- the containers of a partly trimmed payload ----------

  lemma {:induction false} HeldMember(root: Json, cs: seq<Path>, c: Path)
    requires c in cs
    ensures |Get(root, c)| <= Held(root, cs)
    decreases |cs|
  {
    if c != cs[0] { HeldMember(root, cs[1..], c); }
  }

  /** A container below the top level holds no more than the payload can still lose. */
  lemma HeldBelowTop(now: Json, root: Json, c: Path)
    requires Shortened(now, root) && (root.Arr? ==> now.Arr? && |now.elems| == |root.elems|)
    requires c != [] && c in UniqueRows(root, [])
    ensures |Get(now, c)| <= Room(now)
  {
    hide Shortened, UniqueElems, UniqueFields, Held, CapacityElems, Get;
    match root
    case Obj(_) =>
      ShortenedObject(now, root);
      HeldIsCapacity(now, [], now, root);
      HeldMember(now, UniqueRows(root, []), c);
    case Arr(es) =>
      if !RowArray(es) {
        ShortenedArray(now, es);
        SameKind(now.elems[0], es[0]);
        HeldElems(now, [], now.elems, es, 0);
        assert now.elems[0..] == now.elems;
        HeldMember(now, UniqueElems(es, 0, []), c);
      }
    case _ =>
  }

  /** In a partly trimmed payload, a recorded path below the top level leads to nothing or to its
      container, and that container holds no more than can still be dropped. */
  lemma ContainerNow(root: Json, dropped: nat, c: Path)
    requires WellFormed(root) && dropped <= Room(root) && c in RowContainers(root) && c != []
    ensures var now := Spent(root, dropped);
            && dropped + |Get(now, c)| <= Room(root)
            && (Get(now, c) != [] ==> Container(now, c))
  {
    var now := Spent(root, dropped);
    SpentShortens(root, dropped);
    ShortenedWellFormed(now, root);
    WalkDroppable(root, [], root);
    SameRows(root, []);
    SpentConserves(root, dropped);
    hide UniqueRows, WalkRows, Spent, Shortened, WellFormed, Room;
    HeldBelowTop(now, root, c);
    DroppableStays(now, root, c);
  }

  /** With everything droppable gone, no container below the top level has elements left. */
  lemma SpentIsEmpty(root: Json, c: Path)
    requires c in RowContainers(root) && c != []
    ensures Get(Spent(root, Room(root)), c) == []
  {
    SpentShortens(root, Room(root));
    SameRows(root, []);
    SpentConserves(root, Room(root));
    hide UniqueRows, WalkRows, Spent, Shortened, Room;
    HeldBelowTop(Spent(root, Room(root)), root, c);
  }

  /** The top level is a container only of an array payload, and then the last one. */
  lemma TopIsLast(root: Json, i: nat)
    requires i < |RowContainers(root)| && RowContainers(root)[i] == []
    ensures root.Arr? && i == |RowContainers(root)| - 1
  {
    hide WalkElems, UniqueElems, WalkFields;
    match root
    case Obj(_) => ObjectReady(root);
    case Arr(es) =>
      if !RowArray(es) {
        ElemsBelow(es, 0, []);
        SameElems(es, 0, []);
        NotTop(WalkElems(es, 0, []));
      }
    case _ =>
  }

  lemma NotTop(cs: seq<Path>)
    requires forall c: Path :: c in cs ==> |c| > 0
    ensures forall i :: 0 <= i < |cs| ==> cs[i] != []
  {
    forall i | 0 <= i < |cs| ensures cs[i] != [] { assert cs[i] in cs; }
  }

  /** Two failed measurements in a container rule out everything up to the later one. */
  lemma NothingFits(root: Json, i: nat, dropped: nat, budget: int, failed: nat)
    requires WellFormed(root) && dropped <= Room(root)
    requires i < |RowContainers(root)| && RowContainers(root)[i] != []
    requires Between(root, RowContainers(root), i, Spent(root, dropped), dropped)
    requires var now, c := Spent(root, dropped), RowContainers(root)[i];
             failed <= |Get(now, c)| &&
             (failed > 0 ==> MarkedSize(DropAlong(now, [c], 1), dropped + 1) > budget &&
                             MarkedSize(DropAlong(now, [c], failed), dropped + failed) > budget)
    ensures NoneFits(root, budget, dropped, dropped + failed)
  {
    hide DropAlong, Get, MarkedSize, Spent, WellFormed, Room, WalkRows;
    var now, cs := Spent(root, dropped), RowContainers(root);
    var c := cs[i];
    ContainerNow(root, dropped, c);
    forall d | dropped < d <= dropped + failed ensures !Fits(root, budget, d) {
      var y := d - dropped;
      DropAlongOne(now, c, 1);
      DropAlongOne(now, c, failed);
      DropAlongOne(now, c, y);
      OverBetween(now, c, dropped, failed, budget);
      BetweenInside(root, cs, i, now, dropped, y);
      DropAlongIsSpent(root, d);
      assert MarkedSize(Cut(now, c, y), dropped + y) > budget;
    }
  }

  // ---------- the loop over the containers ----------

  /** Before container `i`, with `dropped` elements gone and no smaller number that would do.  Only the
      top-level array, which comes last and cannot be stored, is counted without getting shorter. */
  ghost predicate Stage(root: Json, budget: int, i: nat, now: Json, dropped: nat) {
    var cs, d := RowContainers(root), Min(dropped, Room(root));
    && Between(root, cs, i, now, dropped)
    && now == Spent(root, d) && NoneFits(root, budget, 0, d)
    && (dropped > Room(root) ==> !root.Obj? && i == |cs|)
  }

  lemma StageStart(root: Json, budget: int)
    ensures Stage(root, budget, 0, root, 0)
  {
    hide WalkRows, Spent, Room, Between;
    BetweenStart(root, RowContainers(root));
    SpentNothing(root);
  }

  /** Where the containers still to come change nothing, everything droppable is gone. */
  lemma AllGone(root: Json, i: nat, now: Json, dropped: nat)
    requires dropped <= Room(root) && now == Spent(root, dropped)
    requires Between(root, RowContainers(root), i, now, dropped)
    requires forall k: nat :: DropAlong(now, RowContainers(root)[i..], k) == now
    ensures dropped == Room(root)
  {
    hide DropAlong, Spent, Room, WalkRows;
    assert Continues(root, RowContainers(root), i, now, dropped, Room(root) - dropped);
    DropAlongIsSpent(root, Room(root));
    SpentConserves(root, dropped);
    SpentConserves(root, Room(root));
  }

  /** When the turn comes to the top-level array, everything droppable is gone. */
  lemma AtTop(root: Json, budget: int, i: nat, now: Json, dropped: nat)
    requires i < |RowContainers(root)| && RowContainers(root)[i] == [] && Stage(root, budget, i, now, dropped)
    ensures root.Arr? && i == |RowContainers(root)| - 1 && dropped == Room(root)
    ensures forall k: nat :: DropAlong(now, [RowContainers(root)[i]], k) == now
  {
    hide DropAlong, Spent, Room, WalkRows, Between;
    TopIsLast(root, i);
    assert RowContainers(root)[i..] == [[]];
    forall k: nat ensures DropAlong(now, [[]], k) == now { DropTop(now, k); }
    AllGone(root, i, now, dropped);
  }

  lemma StageNext(root: Json, budget: int, i: nat, now: Json, dropped: nat)
    requires WellFormed(root) && i < |RowContainers(root)| && Stage(root, budget, i, now, dropped)
    requires Measured(now, RowContainers(root)[i], dropped, budget, |Get(now, RowContainers(root)[i])|)
    ensures var c := RowContainers(root)[i];
            Stage(root, budget, i + 1, DropAlong(now, [c], |Get(now, c)|), dropped + |Get(now, c)|)
  {
    hide DropAlong, Get, MarkedSize, Spent, WellFormed, Room, WalkRows, Between, Fits;
    var cs := RowContainers(root);
    var n := |Get(now, cs[i])|;
    BetweenNext(root, cs, i, now, dropped);
    if cs[i] == [] {
      AtTop(root, budget, i, now, dropped);
    } else {
      BetweenInside(root, cs, i, now, dropped, n);
      ContainerNow(root, dropped, cs[i]);
      NothingFits(root, i, dropped, budget, n);
      DropAlongIsSpent(root, dropped + n);
    }
  }

  lemma StageFits(root: Json, budget: int, i: nat, now: Json, dropped: nat, failed: nat, x: nat, out: string)
    requires WellFormed(root) && i < |RowContainers(root)| && Stage(root, budget, i, now, dropped)
    requires var c := RowContainers(root)[i];
             && Measured(now, c, dropped, budget, failed) && failed < x <= 2 * failed + 1 && x <= |Get(now, c)|
             && MarkedSize(DropAlong(now, [c], x), dropped + x) <= budget
             && out == Encode(Marked(DropAlong(now, [c], x), dropped + x, false))
    ensures Delivered(root, budget, out)
  {
    hide DropAlong, Get, MarkedSize, Spent, WellFormed, Room, WalkRows, Between, Encode, Marked, Delivered;
    var cs := RowContainers(root);
    if cs[i] == [] {
      AtTop(root, budget, i, now, dropped);
      SpentIsDelivered(root, budget, dropped + x, false, out);
    } else {
      BetweenInside(root, cs, i, now, dropped, x);
      ContainerNow(root, dropped, cs[i]);
      NothingFits(root, i, dropped, budget, failed);
      DropAlongIsSpent(root, dropped + x);
      FittingIsDelivered(root, budget, i, dropped, failed, x, out);
    }
  }

  lemma StageEnd(root: Json, budget: int, now: Json, dropped: nat, out: string)
    requires Stage(root, budget, |RowContainers(root)|, now, dropped) && out == Encode(Marked(now, dropped, true))
    ensures Delivered(root, budget, out)
  {
    hide DropAlong, MarkedSize, Spent, Room, WalkRows, Encode, Marked, Delivered;
    var cs := RowContainers(root);
    if dropped <= Room(root) {
      assert cs[|cs|..] == [];
      forall k: nat ensures DropAlong(now, [], k) == now { DropNowhere(now, k); }
      AllGone(root, |cs|, now, dropped);
    }
    SpentIsDelivered(root, budget, dropped, true, out);
  }

  /** `BudgetResult`: the text is returned as it is when it fits or cannot be read; otherwise the payload
      is delivered trimmed. */
  method BudgetResult(data: string, budget: int) returns (out: string)
    ensures budget <= 0 || |data| <= budget || Decode(data) == None ==> out == data
    ensures budget > 0 && |data| > budget && Decode(data).Some? ==> Delivered(Decode(data).value, budget, out)
  {
    hide DropAlong, Get, MarkedSize, WalkRows, Encode, Marked, WellFormed, Delivered, Pow2, Stage, Measured;
    hide Decode, RowContainers;
    if budget <= 0 || |data| <= budget { return data; }
    var decoded := Decode(data);
    if decoded.None? { return data; }
    var root := decoded.value;
    var payload := new Payload(root);
    var cs := RowContainers(root);
    var dropped: nat := 0;
    StageStart(root, budget);
    for i := 0 to |cs|
      invariant Stage(root, budget, i, payload.root, dropped)
    {
      ghost var now := payload.root;
      var x, fits;
      ghost var failed, probes;
      x, fits, failed, probes := payload.TrimContainer(cs[i], dropped, budget);
      if fits {
        out := Encode(Marked(payload.root, dropped + x, false));
        StageFits(root, budget, i, now, dropped, failed, x, out);
        return;
      }
      StageNext(root, budget, i, now, dropped);
      dropped := dropped + x;
    }
    out := Encode(Marked(payload.root, dropped, true));
    StageEnd(root, budget, payload.root, dropped, out);
  }

  /** A payload whose top level is not an object stays one and carries no markers. */
  lemma {:induction false} PlainUnmarked(root: Json, cs: seq<Path>, d: nat)
    requires !root.Obj?
    ensures !DropAlong(root, cs, d).Obj?
    ensures forall n: nat, e: bool :: Marked(DropAlong(root, cs, d), n, e) == DropAlong(root, cs, d)
    decreases |cs|
  {
    if cs != [] && d > 0 {
      var arr := Get(root, cs[0]);
      if arr == [] {
        PlainUnmarked(root, cs[1..], d);
      } else {
        var e := Min(d, |arr|);
        var next := SetRows(root, cs[0], arr[..|arr| - e]);
        if next.Some? { PlainUnmarked(next.value, cs[1..], d - e); }
      }
    }
  }

  lemma FittingIsDelivered(root: Json, budget: int, i: nat, dropped: nat, failed: nat, x: nat, out: string)
    requires var cs := RowContainers(root);
             i < |cs| && dropped <= Room(root) && Between(root, cs, i, Spent(root, dropped), dropped)
             && x <= |Get(Spent(root, dropped), cs[i])|
    requires Fits(root, budget, dropped + x) && failed < x <= 2 * failed + 1
    requires NoneFits(root, budget, 0, dropped) && NoneFits(root, budget, dropped, dropped + failed)
    requires out == Encode(Marked(Spent(root, dropped + x), dropped + x, false))
    ensures Delivered(root, budget, out)
  {
    hide Fits, Spent, Encode, Marked, Room, WalkRows, Get, Between;
    var least := dropped + failed + 1;
    while !Fits(root, budget, least)
      invariant dropped + failed < least <= dropped + x
      invariant NoneFits(root, budget, 0, least - 1)
      decreases dropped + x - least
    {
      least := least + 1;
    }
    assert LeastFit(root, budget, least);
    assert Stopped(root, budget, dropped + x, least, i, dropped);
  }

  /** With everything droppable gone and no number that would do, that is what is delivered. */
  lemma SpentIsDelivered(root: Json, budget: int, n: nat, exceeded: bool, out: string)
    requires NoneFits(root, budget, 0, Room(root))
    requires out == Encode(Marked(Spent(root, Room(root)), n, exceeded)) && (root.Obj? ==> n == Room(root) && exceeded)
    ensures Delivered(root, budget, out)
  {
    hide MarkedSize, Trim, TrimElems, Room, Encode;
    assert forall d: nat :: Fits(root, budget, d) ==> 0 < d <= Room(root);
    var t := Spent(root, Room(root));
    assert !root.Obj? ==> Marked(t, n, exceeded) == Marked(t, Room(root), true);
  }
}
