/** Evidence counters and what trimming does to them (internal/cbmexec/exec.go:
    LooksEmptyData, scanEvidence). */
module Evidence {
  import opened Text
  import opened Json
  import opened JsonProofs
  import opened Rows
  import opened RowsProofs
  import opened TrimLaws
  import opened Budget
  import opened Trimmer

  // ---------- counter keys ----------

  function Lower(s: string): string { if s == "" then "" else [LowerByte(s[0])] + Lower(s[1..]) }

  predicate EvidenceWord(w: string) {
    w in ["total", "count", "counts", "matches", "results", "returned", "found",
          "rows", "nodes", "edges", "entries", "items"]
  }

  /** `evidenceKey`: one of the words, or any single line ending in `_` and one of them. */
  predicate EvidenceKey(k: string) {
    EvidenceWord(Lower(k)) ||
    exists i :: 0 <= i < |k| && k[i] == '_' && EvidenceWord(Lower(k[i + 1..])) && '\n' !in k[..i]
  }

  // ---------- what the scan is about ----------

  /** The path ends at a counter key and meets no counter key before. */
  predicate CounterPath(p: Path) {
    p != [] && p[|p| - 1].Key? && EvidenceKey(p[|p| - 1].key) &&
    forall i :: 0 <= i < |p| - 1 ==> p[i].Key? ==> !EvidenceKey(p[i].key)
  }

  /** The word, but for the case of its letters. */
  predicate SameWord(w: string, word: string) {
    |w| == |word| && forall j :: 0 <= j < |w| ==> LowerByte(w[j]) == word[j]
  }

  predicate CounterName(w: string) {
    || SameWord(w, "total") || SameWord(w, "count") || SameWord(w, "counts") || SameWord(w, "matches")
    || SameWord(w, "results") || SameWord(w, "returned") || SameWord(w, "found") || SameWord(w, "rows")
    || SameWord(w, "nodes") || SameWord(w, "edges") || SameWord(w, "entries") || SameWord(w, "items")
  }

  lemma {:induction false} LowerIs(w: string)
    ensures |Lower(w)| == |w| && forall j :: 0 <= j < |w| ==> Lower(w)[j] == LowerByte(w[j])
  {
    if w != "" { LowerIs(w[1..]); }
  }

  lemma LowerWord(w: string, word: string)
    ensures Lower(w) == word <==> SameWord(w, word)
  {
    LowerIs(w);
    hide Lower;
    if SameWord(w, word) { assert Lower(w) == word; }
  }

  lemma WordIs(w: string)
    ensures EvidenceWord(Lower(w)) <==> CounterName(w)
  {
    LowerWord(w, "total");
    LowerWord(w, "count");
    LowerWord(w, "counts");
    LowerWord(w, "matches");
    LowerWord(w, "results");
    LowerWord(w, "returned");
    LowerWord(w, "found");
    LowerWord(w, "rows");
    LowerWord(w, "nodes");
    LowerWord(w, "edges");
    LowerWord(w, "entries");
    LowerWord(w, "items");
    hide Lower, SameWord;
  }

  /** The key is such a word, by itself or after something on one line that ends in an underscore. */
  predicate NamesCounter(k: string, before: string, w: string) {
    && k == before + w && CounterName(w)
    && (before == "" || (before[|before| - 1] == '_' && '\n' !in before))
  }

  lemma NamedIsKey(k: string, before: string, w: string)
    requires NamesCounter(k, before, w)
    ensures EvidenceKey(k)
  {
    hide Lower, EvidenceWord, CounterName;
    WordIs(w);
    if before == "" {
      assert k == w;
    } else {
      var i := |before| - 1;
      assert k[i] == '_' && k[i + 1..] == w && k[..i] == before[..i];
      assert forall c :: c in before[..i] ==> c in before;
    }
  }

  lemma KeyIsNamed(k: string) returns (before: string, w: string)
    ensures EvidenceKey(k) ==> NamesCounter(k, before, w)
  {
    hide Lower, EvidenceWord, CounterName;
    before, w := "", k;
    WordIs(k);
    if EvidenceKey(k) && !EvidenceWord(Lower(k)) {
      var i :| 0 <= i < |k| && k[i] == '_' && EvidenceWord(Lower(k[i + 1..])) && '\n' !in k[..i];
      before, w := k[..i + 1], k[i + 1..];
      WordIs(w);
      assert k == before + w && before == k[..i] + ['_'];
    }
  }

  /** A counter key is one of the twelve words, in any case, by itself or after something on one line that
      ends in an underscore. */
  lemma CounterKeyIs(k: string)
    ensures EvidenceKey(k) <==> exists before, w :: NamesCounter(k, before, w)
  {
    hide EvidenceKey, NamesCounter;
    var b, v := KeyIsNamed(k);
    forall before, w | NamesCounter(k, before, w) ensures EvidenceKey(k) { NamedIsKey(k, before, w); }
  }

  predicate IsCounter(c: Json) { c.Num? || c.Arr? }

  predicate NonZero(c: Json) {
    match c
    case Num(lit) => !ZeroLiteral(lit)
    case Arr(es) => es != []
    case _ => false
  }

  /** A counter at the path: a number or an array under a counter key. */
  ghost predicate CounterAt(v: Json, p: Path) {
    CounterPath(p) && Resolve(v, p).Some? && IsCounter(Resolve(v, p).value)
  }

  ghost predicate HasCounter(v: Json) { exists p :: CounterAt(v, p) }

  ghost predicate FindingAt(v: Json, p: Path) { CounterAt(v, p) && NonZero(Resolve(v, p).value) }

  ghost predicate Finding(v: Json) { exists p :: FindingAt(v, p) }

  // ---------- the scan, one level at a time ----------

  ghost predicate MemberSeen(k: string, x: Json) { if EvidenceKey(k) then IsCounter(x) else HasCounter(x) }

  ghost predicate MemberFinding(k: string, x: Json) { if EvidenceKey(k) then NonZero(x) else Finding(x) }

  lemma CounterBelow(v: Json, s: Step, x: Json, q: Path)
    requires Resolve(v, [s]) == Some(x) && (s.Key? ==> !EvidenceKey(s.key))
    ensures CounterAt(v, [s] + q) <==> CounterAt(x, q)
    ensures FindingAt(v, [s] + q) <==> FindingAt(x, q)
  {
    hide EvidenceKey, Resolve;
    var p := [s] + q;
    ResolveAppend(v, [s], q);
    if q != [] {
      assert p[|p| - 1] == q[|q| - 1];
      assert forall i :: 0 <= i < |q| - 1 ==> p[i + 1] == q[i];
      if CounterPath(p) {
        forall i | 0 <= i < |q| - 1 ensures q[i].Key? ==> !EvidenceKey(q[i].key) { assert p[i + 1] == q[i]; }
      }
      if CounterPath(q) {
        forall i | 0 <= i < |p| - 1 ensures p[i].Key? ==> !EvidenceKey(p[i].key) {
          if i > 0 { assert p[i] == q[i - 1]; }
        }
      }
    }
  }

  lemma ObjectCounters(m: map<string, Json>)
    ensures HasCounter(Obj(m)) <==> exists k :: k in m && MemberSeen(k, m[k])
    ensures Finding(Obj(m)) <==> exists k :: k in m && MemberFinding(k, m[k])
  {
    forall p | CounterAt(Obj(m), p)
      ensures exists k :: k in m && MemberSeen(k, m[k]) && (FindingAt(Obj(m), p) ==> MemberFinding(k, m[k]))
    {
      MemberOfPath(m, p);
    }
    forall k | k in m && MemberSeen(k, m[k])
      ensures HasCounter(Obj(m)) && (MemberFinding(k, m[k]) ==> Finding(Obj(m)))
    {
      PathOfMember(m, k);
    }
    forall k | k in m && MemberFinding(k, m[k]) ensures MemberSeen(k, m[k]) { FindingIsCounter(k, m[k]); }
  }

  lemma FindingIsCounter(k: string, x: Json)
    requires MemberFinding(k, x)
    ensures MemberSeen(k, x)
  {
    if !EvidenceKey(k) {
      var p :| FindingAt(x, p);
      assert CounterAt(x, p);
    }
  }

  lemma MemberOfPath(m: map<string, Json>, p: Path)
    requires CounterAt(Obj(m), p)
    ensures p[0].Key? && p[0].key in m && MemberSeen(p[0].key, m[p[0].key])
    ensures FindingAt(Obj(m), p) ==> MemberFinding(p[0].key, m[p[0].key])
  {
    var s, q := p[0], p[1..];
    assert p == [s] + q;
    assert Resolve(Obj(m), [s]) == Some(m[s.key]);
    if q == [] {
      assert p[|p| - 1] == s;
    } else {
      CounterBelow(Obj(m), s, m[s.key], q);
    }
  }

  lemma PathOfMember(m: map<string, Json>, k: string)
    requires k in m && MemberSeen(k, m[k])
    ensures HasCounter(Obj(m)) && (MemberFinding(k, m[k]) ==> Finding(Obj(m)))
  {
    var s := Key(k);
    assert Resolve(Obj(m), [s]) == Some(m[k]);
    if EvidenceKey(k) {
      assert CounterAt(Obj(m), [s]);
      if NonZero(m[k]) { assert FindingAt(Obj(m), [s]); }
    } else {
      var q :| CounterAt(m[k], q);
      CounterBelow(Obj(m), s, m[k], q);
      assert CounterAt(Obj(m), [s] + q);
      if Finding(m[k]) {
        var f :| FindingAt(m[k], f);
        CounterBelow(Obj(m), s, m[k], f);
        assert FindingAt(Obj(m), [s] + f);
      }
    }
  }

  lemma ArrayCounters(es: seq<Json>)
    ensures HasCounter(Arr(es)) <==> exists i :: 0 <= i < |es| && HasCounter(es[i])
    ensures Finding(Arr(es)) <==> exists i :: 0 <= i < |es| && Finding(es[i])
  {
    forall p | CounterAt(Arr(es), p)
      ensures exists i :: 0 <= i < |es| && HasCounter(es[i]) && (FindingAt(Arr(es), p) ==> Finding(es[i]))
    {
      var s, q := p[0], p[1..];
      assert p == [s] + q;
      assert Resolve(Arr(es), [s]) == Some(es[s.idx]);
      CounterBelow(Arr(es), s, es[s.idx], q);
      assert CounterAt(es[s.idx], q);
    }
    forall i, q | 0 <= i < |es| && CounterAt(es[i], q)
      ensures CounterAt(Arr(es), [Index(i)] + q) && (FindingAt(es[i], q) ==> FindingAt(Arr(es), [Index(i)] + q))
    {
      assert Resolve(Arr(es), [Index(i)]) == Some(es[i]);
      CounterBelow(Arr(es), Index(i), es[i], q);
    }
  }

  lemma ScalarCounters(v: Json)
    requires !v.Arr? && !v.Obj?
    ensures !HasCounter(v) && !Finding(v)
  {
  }

  ghost predicate SeenIn(m: map<string, Json>, ks: set<string>) {
    exists k :: k in ks && k in m && MemberSeen(k, m[k])
  }

  ghost predicate FindingIn(m: map<string, Json>, ks: set<string>) {
    exists k :: k in ks && k in m && MemberFinding(k, m[k])
  }

  lemma NoneIn(m: map<string, Json>)
    ensures !SeenIn(m, {}) && !FindingIn(m, {})
  {
  }

  lemma OneMore(m: map<string, Json>, ks: set<string>, k: string)
    requires k in m
    ensures SeenIn(m, ks + {k}) == (SeenIn(m, ks) || MemberSeen(k, m[k]))
    ensures FindingIn(m, ks + {k}) == (FindingIn(m, ks) || MemberFinding(k, m[k]))
  {
    hide MemberSeen, MemberFinding;
    if MemberSeen(k, m[k]) { assert k in ks + {k}; }
    if MemberFinding(k, m[k]) { assert k in ks + {k}; }
  }

  lemma AllIn(m: map<string, Json>)
    ensures SeenIn(m, m.Keys) == HasCounter(Obj(m)) && FindingIn(m, m.Keys) == Finding(Obj(m))
  {
    ObjectCounters(m);
    hide HasCounter, Finding, MemberSeen, MemberFinding;
  }

  /** `scanEvidence`: the members of an object are taken in an arbitrary order, and the answer
      does not depend on it. */
  method ScanEvidence(v: Json) returns (seen: bool, zero: bool)
    ensures seen == HasCounter(v)
    ensures zero == !Finding(v)
    decreases v, 2
  {
    hide HasCounter, Finding;
    match v {
      case Obj(m) => seen, zero := ScanMembers(v);
      case Arr(es) => seen, zero := ScanElems(es);
      case _ =>
        ScalarCounters(v);
        seen, zero := false, true;
    }
  }

  method ScanMembers(v: Json) returns (seen: bool, zero: bool)
    requires v.Obj?
    ensures seen == HasCounter(v)
    ensures zero == !Finding(v)
    decreases v, 1
  {
    var m := v.fields;
    hide HasCounter, Finding, SeenIn, FindingIn, MemberSeen, MemberFinding;
    seen, zero := false, true;
    var rest := m.Keys;
    NoneIn(m);
    assert m.Keys - rest == {};
    while rest != {}
      invariant rest <= m.Keys
      invariant seen == SeenIn(m, m.Keys - rest) && zero == !FindingIn(m, m.Keys - rest)
      decreases |rest|
    {
      var k :| k in rest;
      OneMore(m, m.Keys - rest, k);
      assert m.Keys - (rest - {k}) == m.Keys - rest + {k};
      rest := rest - {k};
      var s, z := ScanMember(k, m[k]);
      if s {
        seen := true;
        if !z { zero := false; }
      }
    }
    assert m.Keys - rest == m.Keys;
    AllIn(m);
  }

  /** A counter key is read and never entered; any other key is entered. */
  method ScanMember(k: string, x: Json) returns (seen: bool, zero: bool)
    ensures seen == MemberSeen(k, x)
    ensures zero == !MemberFinding(k, x) && (!zero ==> seen)
    decreases x, 3
  {
    hide EvidenceKey, HasCounter, Finding;
    if EvidenceKey(k) {
      seen, zero := false, true;
      if x.Num? {
        seen, zero := true, ZeroLiteral(x.lit);
      } else if x.Arr? {
        seen, zero := true, |x.elems| == 0;
      }
    } else {
      seen, zero := ScanEvidence(x);
      FindingSeen(x);
    }
  }

  method ScanElems(es: seq<Json>) returns (seen: bool, zero: bool)
    ensures seen == HasCounter(Arr(es))
    ensures zero == !Finding(Arr(es))
    decreases es, 1
  {
    hide HasCounter, Finding;
    seen, zero := false, true;
    for i := 0 to |es|
      invariant seen <==> exists j :: 0 <= j < i && HasCounter(es[j])
      invariant !zero <==> exists j :: 0 <= j < i && Finding(es[j])
    {
      var s, z := ScanEvidence(es[i]);
      FindingSeen(es[i]);
      if s {
        seen := true;
        if !z { zero := false; }
      }
    }
    ArrayCounters(es);
  }

  lemma FindingSeen(v: Json)
    ensures Finding(v) ==> HasCounter(v)
  {
    if Finding(v) {
      var p :| FindingAt(v, p);
      assert CounterAt(v, p);
    }
  }

  /** The reply states counters, and every one of them is zero. */
  ghost predicate AllZero(v: Json) { HasCounter(v) && !Finding(v) }

  /** `LooksEmptyData`: never a guess about a payload that cannot be read. */
  method LooksEmptyData(data: string) returns (empty: bool)
    ensures empty <==> Decode(data).Some? && AllZero(Decode(data).value)
  {
    var root := Decode(data);
    if |data| == 0 || root.None? { return false; }
    var seen, zero := ScanEvidence(root.value);
    empty := seen && zero;
  }

  // ---------- trimming and the verdict ----------

  /** The path leads to a value that no droppable array holds. */
  ghost predicate Anchored(v: Json, p: Path)
    decreases |p|
  {
    p == [] ||
    match p[0]
    case Key(k) => v.Obj? && k in v.fields && Anchored(v.fields[k], p[1..])
    case Index(i) =>
      v.Arr? && i < |v.elems| && !RowArray(v.elems) && !ObjectArray(v.elems) && Anchored(v.elems[i], p[1..])
  }

  lemma {:induction false} AnchoredResolves(v: Json, p: Path)
    requires Anchored(v, p)
    ensures Resolve(v, p).Some?
    decreases |p|
  {
    if p != [] {
      match p[0]
      case Key(k) => AnchoredResolves(v.fields[k], p[1..]);
      case Index(i) => AnchoredResolves(v.elems[i], p[1..]);
    }
  }

  lemma {:induction false} TrimFieldsAt(v: Json, ks: seq<string>, d: nat, k: string) returns (e: nat)
    requires v.Obj? && (forall i :: 0 <= i < |ks| ==> ks[i] in v.fields) && k in ks && Distinct(ks)
    ensures e <= Capacity(v.fields[k]) && TrimFields(v, ks, d)[k] == Trim(v.fields[k], e)
    ensures d >= CapacityFields(v, ks) ==> e == Capacity(v.fields[k])
    decreases |ks|
  {
    hide Trim, Capacity, TrimFields, CapacityFields;
    DistinctTail(ks);
    TrimFieldsHead(v, ks, d);
    CapacityFieldsHead(v, ks);
    e := Min(d, Capacity(v.fields[ks[0]]));
    if k != ks[0] {
      e := TrimFieldsAt(v, ks[1..], d - e, k);
    }
  }

  lemma {:induction false} TrimElemsAt(es: seq<Json>, d: nat, i: nat) returns (e: nat)
    requires i < |es|
    ensures e <= Capacity(es[i]) && TrimElems(es, d)[i] == Trim(es[i], e)
    ensures d >= CapacityElems(es) ==> e == Capacity(es[i])
    decreases |es|
  {
    hide Trim, Capacity, TrimElems;
    TrimElemsHead(es, d);
    e := Min(d, Capacity(es[0]));
    if i > 0 {
      e := TrimElemsAt(es[1..], d - e, i - 1);
    }
  }

  /** What a trim does to an anchored value is a trim of that value; a full trim is a full trim of it. */
  lemma {:induction false} TrimAnchored(v: Json, d: nat, p: Path) returns (e: nat)
    requires Anchored(v, p) && Resolve(v, p).Some? && d <= Capacity(v)
    ensures e <= Capacity(Resolve(v, p).value)
    ensures Resolve(Trim(v, d), p) == Some(Trim(Resolve(v, p).value, e))
    ensures d == Capacity(v) ==> e == Capacity(Resolve(v, p).value)
    decreases |p|
  {
    e := d;
    if p != [] {
      match p[0]
      case Key(k) =>
        var ks := SortedKeys(v.fields.Keys);
        var e' := TrimFieldsAt(v, ks, d, k);
        assert Trim(v, d).fields[k] == Trim(v.fields[k], e');
        hide Trim, Capacity;
        e := TrimAnchored(v.fields[k], e', p[1..]);
      case Index(i) =>
        var e' := TrimElemsAt(v.elems, Min(d, CapacityElems(v.elems)), i);
        assert Trim(v, d).elems[i] == Trim(v.elems[i], e');
        hide Trim, Capacity;
        e := TrimAnchored(v.elems[i], e', p[1..]);
    }
  }

  /** After a full trim only anchored values are left. */
  lemma {:induction false} FullTrimAnchors(v: Json, p: Path)
    requires Resolve(Trim(v, Capacity(v)), p).Some?
    ensures Anchored(v, p)
    decreases |p|
  {
    if p != [] {
      match p[0]
      case Key(k) =>
        var e := TrimFieldsAt(v, SortedKeys(v.fields.Keys), Capacity(v), k);
        assert Trim(v, Capacity(v)).fields[k] == Trim(v.fields[k], e);
        hide Trim, Capacity;
        FullTrimAnchors(v.fields[k], p[1..]);
      case Index(i) =>
        if RowArray(v.elems) || ObjectArray(v.elems) { TrimAll(v.elems); }
        var e := TrimElemsAt(v.elems, CapacityElems(v.elems), i);
        assert Trim(v, Capacity(v)).elems[i] == Trim(v.elems[i], e);
        hide Trim, Capacity;
        FullTrimAnchors(v.elems[i], p[1..]);
    }
  }

  /** Trimming never disproves absence: a payload without a finding has none afterwards. */
  lemma NoNewFinding(root: Json, d: nat)
    requires !Finding(root)
    ensures !Finding(Spent(root, d))
  {
    SpentShortens(root, d);
    hide Spent, Shortened, Resolve;
    forall p | FindingAt(Spent(root, d), p) ensures FindingAt(root, p) {
      ShortenedAt(Spent(root, d), root, p);
      ShortenedCounter(Resolve(Spent(root, d), p).value, Resolve(root, p).value);
    }
  }

  lemma ShortenedCounter(a: Json, b: Json)
    requires Shortened(a, b)
    ensures IsCounter(a) == IsCounter(b) && (NonZero(a) ==> NonZero(b))
  {
  }

  /** A counter that every trim leaves in place. */
  ghost predicate FixedCounter(v: Json, p: Path) { CounterAt(v, p) && Anchored(v, p) }

  /** A non-zero counter that every trim leaves non-zero: a number, or a list of scalars. */
  ghost predicate FixedFinding(v: Json, p: Path) {
    FindingAt(v, p) && Anchored(v, p) &&
    var c := Resolve(v, p).value;
    c.Arr? ==> !RowArray(c.elems) && !ObjectArray(c.elems)
  }

  lemma FixedCounterStays(v: Json, d: nat, p: Path)
    requires d <= Capacity(v) && FixedCounter(v, p)
    ensures CounterAt(Trim(v, d), p)
    ensures FixedFinding(v, p) ==> FindingAt(Trim(v, d), p)
  {
    var e := TrimAnchored(v, d, p);
    var c := Resolve(v, p).value;
    hide Resolve, Anchored, CounterPath;
    if c.Arr? && !RowArray(c.elems) && !ObjectArray(c.elems) {
      assert |Trim(c, e).elems| == |c.elems|;
    }
  }

  lemma FullTrimCounter(v: Json, p: Path)
    requires CounterAt(Trim(v, Capacity(v)), p)
    ensures FixedCounter(v, p)
    ensures FindingAt(Trim(v, Capacity(v)), p) ==> FixedFinding(v, p)
  {
    FullTrimAnchors(v, p);
    AnchoredResolves(v, p);
    var e := TrimAnchored(v, Capacity(v), p);
    var c := Resolve(v, p).value;
    hide Resolve, Anchored, CounterPath;
    if c.Arr? && (RowArray(c.elems) || ObjectArray(c.elems)) { TrimAll(c.elems); }
  }

  lemma FullTrimDecides(v: Json)
    ensures HasCounter(Trim(v, Capacity(v))) ==> HasFixedCounter(v)
    ensures Finding(Trim(v, Capacity(v))) ==> HasFixedFinding(v)
  {
    hide FixedCounter, FixedFinding, Trim, Capacity, Resolve;
    if p :| CounterAt(Trim(v, Capacity(v)), p) { FullTrimCounter(v, p); }
    if p :| FindingAt(Trim(v, Capacity(v)), p) { FullTrimCounter(v, p); }
  }

  lemma FixedStays(v: Json, d: nat)
    requires d <= Capacity(v)
    ensures HasFixedCounter(v) ==> HasCounter(Trim(v, d))
    ensures HasFixedFinding(v) ==> Finding(Trim(v, d))
  {
    hide Trim, Capacity, Resolve, Anchored;
    if p :| FixedCounter(v, p) { FixedCounterStays(v, d, p); }
    if p :| FixedFinding(v, p) { FixedCounterStays(v, d, p); }
  }

  ghost predicate HasFixedCounter(v: Json) { exists p :: FixedCounter(v, p) }

  ghost predicate HasFixedFinding(v: Json) { exists p :: FixedFinding(v, p) }

  /** The payload states a counter that lies outside every array the code can shorten: a top-level
      array is none of them, and neither are the rows of a top-level table. */
  ghost predicate SafeCounter(root: Json) {
    match root
    case Arr(es) => if RowArray(es) then HasCounter(root) else exists i :: 0 <= i < |es| && HasFixedCounter(es[i])
    case _ => HasFixedCounter(root)
  }

  /** The payload has a finding that no trim can take: a number, or a list of scalars, outside every
      array the code can shorten. */
  ghost predicate SafeFinding(root: Json) {
    match root
    case Arr(es) => if RowArray(es) then Finding(root) else exists i :: 0 <= i < |es| && HasFixedFinding(es[i])
    case _ => HasFixedFinding(root)
  }

  /** However much is dropped, counters are still stated. */
  ghost predicate AlwaysCounted(root: Json) { forall d: nat :: d <= Room(root) ==> HasCounter(Spent(root, d)) }

  /** However much is dropped, the finding is still there. */
  ghost predicate AlwaysFound(root: Json) { forall d: nat :: d <= Room(root) ==> Finding(Spent(root, d)) }

  lemma SafeElemsStay(es: seq<Json>, d: nat)
    requires !RowArray(es)
    ensures SafeCounter(Arr(es)) ==> HasCounter(Arr(TrimElems(es, d)))
    ensures SafeFinding(Arr(es)) ==> Finding(Arr(TrimElems(es, d)))
  {
    hide HasFixedCounter, HasFixedFinding, HasCounter, Finding, TrimElems, Capacity, CapacityElems;
    ArrayCounters(TrimElems(es, d));
    forall i | 0 <= i < |es|
      ensures HasFixedCounter(es[i]) ==> HasCounter(TrimElems(es, d)[i])
      ensures HasFixedFinding(es[i]) ==> Finding(TrimElems(es, d)[i])
    {
      var e := TrimElemsAt(es, d, i);
      FixedStays(es[i], e);
    }
  }

  lemma SafeStays(root: Json, d: nat)
    requires d <= Room(root)
    ensures SafeCounter(root) ==> HasCounter(Spent(root, d))
    ensures SafeFinding(root) ==> Finding(Spent(root, d))
  {
    hide HasFixedCounter, HasFixedFinding, HasCounter, Finding, TrimElems, Trim, Capacity, CapacityElems;
    match root
    case Obj(_) => FixedStays(root, d);
    case Arr(es) => if !RowArray(es) { SafeElemsStay(es, d); }
    case _ =>
      ScalarTrim(root);
      FixedStays(root, 0);
  }

  lemma ScalarTrim(v: Json)
    requires !v.Arr? && !v.Obj?
    ensures Trim(v, 0) == v
  {
  }

  lemma GoneElemsDecide(es: seq<Json>)
    requires !RowArray(es)
    ensures HasCounter(Arr(TrimElems(es, CapacityElems(es)))) ==> SafeCounter(Arr(es))
    ensures Finding(Arr(TrimElems(es, CapacityElems(es)))) ==> SafeFinding(Arr(es))
  {
    hide HasFixedCounter, HasFixedFinding, HasCounter, Finding, TrimElems, Capacity, CapacityElems;
    var d := CapacityElems(es);
    ArrayCounters(TrimElems(es, d));
    forall i | 0 <= i < |es|
      ensures HasCounter(TrimElems(es, d)[i]) ==> HasFixedCounter(es[i])
      ensures Finding(TrimElems(es, d)[i]) ==> HasFixedFinding(es[i])
    {
      var e := TrimElemsAt(es, d, i);
      FullTrimDecides(es[i]);
    }
  }

  lemma GoneDecides(root: Json)
    ensures HasCounter(Spent(root, Room(root))) ==> SafeCounter(root)
    ensures Finding(Spent(root, Room(root))) ==> SafeFinding(root)
  {
    hide HasFixedCounter, HasFixedFinding, HasCounter, Finding, TrimElems, Trim, Capacity, CapacityElems;
    match root
    case Obj(_) => FullTrimDecides(root);
    case Arr(es) => if !RowArray(es) { GoneElemsDecide(es); }
    case _ => ScalarCounters(root);
  }

  /** The claim that a payload states counters survives every trim exactly when some counter lies
      outside every array the code can shorten. */
  lemma CountersSurvive(root: Json)
    ensures AlwaysCounted(root) <==> SafeCounter(root)
  {
    hide HasCounter, SafeCounter, Spent, Room;
    if AlwaysCounted(root) {
      var c := Room(root);
      assert HasCounter(Spent(root, c));
      GoneDecides(root);
    }
    if SafeCounter(root) {
      forall d: nat | d <= Room(root) ensures HasCounter(Spent(root, d)) { SafeStays(root, d); }
    }
  }

  /** A finding survives every trim exactly when it is a non-zero number, or a list of scalars, outside
      every array the code can shorten. */
  lemma FindingSurvives(root: Json)
    ensures AlwaysFound(root) <==> SafeFinding(root)
  {
    hide Finding, SafeFinding, Spent, Room;
    if AlwaysFound(root) {
      var c := Room(root);
      assert Finding(Spent(root, c));
      GoneDecides(root);
    }
    if SafeFinding(root) {
      forall d: nat | d <= Room(root) ensures Finding(Spent(root, d)) { SafeStays(root, d); }
    }
  }

  lemma SoleMember(k: string, x: Json)
    ensures EvidenceKey(k) ==> HasCounter(Obj(map[k := x])) == IsCounter(x)
                               && Finding(Obj(map[k := x])) == NonZero(x)
    ensures !EvidenceKey(k) ==> HasCounter(Obj(map[k := x])) == HasCounter(x)
                                && Finding(Obj(map[k := x])) == Finding(x)
  {
    hide EvidenceKey, HasCounter, Finding;
    var m := map[k := x];
    ObjectCounters(m);
    assert m.Keys == {k} && m[k] == x;
  }

  lemma SoleTrim(k: string, x: Json)
    ensures var v := Obj(map[k := x]);
            && Capacity(v) == Capacity(x)
            && Trim(v, Capacity(v)) == Obj(map[k := Trim(x, Capacity(x))])
  {
    hide SortedKeys, TrimFields, CapacityFields;
    var v, d := Obj(map[k := x]), Capacity(x);
    var ks := SortedKeys(v.fields.Keys);
    assert v.fields.Keys == {k} && |ks| == 1 && ks[0] in ks;
    assert ks == [k] && ks[1..] == [];
    TrimFieldsHead(v, ks, d);
    CapacityFieldsHead(v, ks);
    NoFields(v, []);
  }

  lemma CounterWord(k: string)
    requires k in ["rows", "total"]
    ensures EvidenceKey(k)
  {
    assert Lower("rows") == "rows";
    assert Lower("total") == "total";
  }

  /** A finding can be trimmed away: a table of one row, without its row, reads as an absence. */
  lemma FindingCanBeLost()
    ensures var v := Obj(map["rows" := Arr([Arr([])])]);
            Finding(v) && AllZero(Trim(v, Capacity(v)))
  {
    hide EvidenceKey, HasCounter, Finding, Trim, Capacity;
    CounterWord("rows");
    SoleMember("rows", Arr([Arr([])]));
    SoleTrim("rows", Arr([Arr([])]));
    SoleMember("rows", Arr([]));
    TrimAll([Arr([])]);
  }

  /** An absence can be trimmed away: the only zero counter goes with the record that held it, and
      what is left states nothing. */
  lemma AbsenceCanBeLost()
    ensures var v := Obj(map["groups" := Arr([Obj(map["total" := Num("0")])])]);
            AllZero(v) && !HasCounter(Trim(v, Capacity(v)))
  {
    hide EvidenceKey, HasCounter, Finding, Trim, Capacity;
    CounterWord("total");
    NotAWord();
    var record := Obj(map["total" := Num("0")]);
    SoleMember("total", Num("0"));
    ArrayCounters([record]);
    ArrayCounters([]);
    SoleMember("groups", Arr([record]));
    SoleTrim("groups", Arr([record]));
    SoleMember("groups", Arr([]));
    TrimAll([record]);
  }

  lemma NotAWord()
    ensures !EvidenceKey("groups")
  {
    LowerShape("groups");
  }

  // ---------- the delivered text ----------

  /** The payload does not use the marker keys itself. */
  predicate MarkerFree(root: Json) {
    root.Obj? ==> TRUNCATED !in root.fields && DROPPED !in root.fields && EXCEEDED !in root.fields
  }

  lemma {:induction false} LowerShape(s: string)
    ensures |Lower(s)| == |s| && (s != "" ==> Lower(s)[0] == LowerByte(s[0]))
  {
    if s != "" { LowerShape(s[1..]); }
  }

  lemma WordShape(w: string)
    requires EvidenceWord(w)
    ensures 4 <= |w| <= 8 && (|w| == 7 ==> w[0] in "mre") && (|w| == 8 ==> w[0] == 'r')
  {
  }

  /** Neither the key nor what follows its underscore is a counter word. */
  lemma NoEvidenceWord(k: string, u: nat)
    requires u < |k| && |k| > 8 && forall i :: 0 <= i < |k| ==> (k[i] == '_' <==> i == u)
    requires var n := |k| - u - 1; n > 8 || (n == 8 && k[u + 1] == 'e') || (n == 7 && k[u + 1] == 'd')
    ensures !EvidenceKey(k)
  {
    var tail := k[u + 1..];
    LowerShape(k);
    LowerShape(tail);
    hide Lower, EvidenceWord;
    if EvidenceWord(Lower(k)) { WordShape(Lower(k)); }
    if EvidenceWord(Lower(tail)) { WordShape(Lower(tail)); }
  }

  lemma MarkersAreNoEvidence()
    ensures !EvidenceKey(TRUNCATED) && !EvidenceKey(DROPPED) && !EvidenceKey(EXCEEDED)
  {
    hide EvidenceKey;
    NoEvidenceWord(TRUNCATED, 6);
    NoEvidenceWord(DROPPED, 4);
    NoEvidenceWord(EXCEEDED, 6);
  }

  /** Markers state nothing: they add no counter and take none away. */
  lemma MarkersStateNothing(root: Json, d: nat, e: bool)
    requires MarkerFree(root)
    ensures HasCounter(Marked(root, d, e)) == HasCounter(root) && Finding(Marked(root, d, e)) == Finding(root)
  {
    hide HasCounter, Finding, EvidenceKey, Decimal;
    if root.Obj? {
      MarkersAreNoEvidence();
      ScalarCounters(Bool(true));
      ScalarCounters(Num(Decimal(d)));
      var m := Marked(root, d, e);
      ObjectCounters(root.fields);
      ObjectCounters(m.fields);
      forall k | k in m.fields && k !in root.fields
        ensures !MemberSeen(k, m.fields[k]) && !MemberFinding(k, m.fields[k])
      {
      }
      hide MemberSeen, MemberFinding;
      forall k | k in root.fields ensures k in m.fields && m.fields[k] == root.fields[k] {
      }
    }
  }

  lemma ShortenedMarkerFree(a: Json, b: Json)
    requires Shortened(a, b) && MarkerFree(b)
    ensures MarkerFree(a)
  {
  }

  /** What a trimmed reply still says about evidence, read from the delivered text. */
  lemma DeliveredEvidence(root: Json, budget: int, out: string)
    requires WellFormed(root) && MarkerFree(root) && Delivered(root, budget, out)
    ensures Decode(out).Some?
    ensures !Finding(root) ==> !Finding(Decode(out).value)
    ensures SafeFinding(root) ==> Finding(Decode(out).value)
    ensures SafeCounter(root) ==> HasCounter(Decode(out).value)
    ensures AllZero(root) && SafeCounter(root) ==> AllZero(Decode(out).value)
  {
    hide HasCounter, Finding, SafeFinding, SafeCounter, Spent, Room, Marked, Encode, Decode, Shortened, MarkerFree;
    var d, e := DeliveredCount(root, budget, out);
    var t := Spent(root, d);
    SpentShortens(root, d);
    ShortenedWellFormed(t, root);
    ShortenedMarkerFree(t, root);
    MarkersStateNothing(t, d, e);
    if !Finding(root) { NoNewFinding(root, d); }
    SafeStays(root, d);
    MarkedWellFormed(t, d, e);
    DecodeEncode(Marked(t, d, e));
  }

  lemma MarkedWellFormed(t: Json, d: nat, e: bool)
    requires WellFormed(t)
    ensures WellFormed(Marked(t, d, e))
  {
    DecimalIsNumber(d);
    hide ValidNumber, Decimal;
  }

  /** What a trimmed reply says of itself, read from the delivered text.  For an object, whether or not it
      uses the marker keys itself: besides its markers it is the payload with `d` elements gone,
      `rows_dropped` is d, and either the text is within the budget or no number of dropped elements
      makes it fit, everything droppable is gone and `budget_exceeded` is set.  Any other payload is
      delivered with `d` elements gone and nothing else. */
  lemma DeliveredIsMarked(root: Json, budget: int, out: string) returns (d: nat)
    requires WellFormed(root) && Delivered(root, budget, out)
    ensures d <= Room(root)
    ensures Decode(out).Some?
    ensures var exceeded := NoneFits(root, budget, 0, Room(root));
            && (exceeded ==> d == Room(root))
            && (!exceeded ==> |out| <= budget)
            && (if root.Obj? then SaysDropped(Decode(out).value, Spent(root, d), d, exceeded)
                else Decode(out).value == Spent(root, d))
  {
    hide Encode, Decode, WellFormed, Room, MarkedSize, SaysDropped, Fits, Spent, Shortened, Marked;
    var e: bool;
    d, e := DeliveredCount(root, budget, out);
    var t := Spent(root, d);
    SpentShortens(root, d);
    ShortenedWellFormed(t, root);
    ShortenedKind(t, root);
    MarkedWellFormed(t, d, e);
    DecodeEncode(Marked(t, d, e));
    if root.Obj? { MarkersSay(t, d, e); } else { NoMarkers(t, d, e); }
  }

  lemma ShortenedKind(a: Json, b: Json)
    requires Shortened(a, b)
    ensures a.Obj? == b.Obj?
  {
  }

  lemma NoMarkers(t: Json, d: nat, e: bool)
    requires !t.Obj?
    ensures Marked(t, d, e) == t
  {
  }

  /** Besides the markers `v` is `t`; the markers say that `d` elements are gone, and whether the budget
      is still exceeded; where it is not, a member `budget_exceeded` of the payload is left as it was. */
  ghost predicate SaysDropped(v: Json, t: Json, d: nat, exceeded: bool) {
    && v.Obj? && t.Obj? && v.fields - {TRUNCATED, DROPPED, EXCEEDED} == t.fields - {TRUNCATED, DROPPED, EXCEEDED}
    && TRUNCATED in v.fields && v.fields[TRUNCATED] == Bool(true)
    && DROPPED in v.fields && v.fields[DROPPED].Num? && IntValue(v.fields[DROPPED].lit) == Some(d)
    && (exceeded ==> EXCEEDED in v.fields && v.fields[EXCEEDED] == Bool(true))
    && (!exceeded ==> (EXCEEDED in v.fields <==> EXCEEDED in t.fields)
                      && (EXCEEDED in t.fields ==> v.fields[EXCEEDED] == t.fields[EXCEEDED]))
  }

  lemma MarkersSay(t: Json, d: nat, e: bool)
    requires t.Obj? && (d > 0 || e)
    ensures SaysDropped(Marked(t, d, e), t, d, e)
  {
    hide Decimal;
    IntRoundTrip(d);
    hide IntValue;
    assert Marked(t, d, e).fields - {TRUNCATED, DROPPED, EXCEEDED} == t.fields - {TRUNCATED, DROPPED, EXCEEDED};
  }

  lemma DeliveredCount(root: Json, budget: int, out: string) returns (d: nat, e: bool)
    requires Delivered(root, budget, out)
    ensures d <= Room(root) && out == Encode(Marked(Spent(root, d), d, e)) && (d > 0 || e)
    ensures e <==> NoneFits(root, budget, 0, Room(root))
    ensures e ==> d == Room(root)
    ensures !e ==> |out| <= budget
  {
    hide Encode, Marked, Spent, Room, Between, WalkRows, Get;
    if exists x :: Fits(root, budget, x) {
      var x: nat, least: nat, i: nat, base: nat :|
        Stopped(root, budget, x, least, i, base) && out == Encode(Marked(Spent(root, x), x, false));
      d, e := x, false;
    } else {
      d, e := Room(root), true;
    }
  }
}
