/** Reciprocal rank fusion of ranked lists, in exact arithmetic (internal/memory/embed.go). */
module Fusion {
  import opened Text

  const K := 60

  function Weight(position: nat): real { 1.0 / (K + position + 1) as real }

  /** What one list gives an id: the weight of every place where it stands. */
  function ListScore(l: seq<string>, id: string): real {
    if l == [] then 0.0
    else ListScore(l[..|l| - 1], id) + (if l[|l| - 1] == id then Weight(|l| - 1) else 0.0)
  }

  function Score(lists: seq<seq<string>>, id: string): real {
    if lists == [] then 0.0 else Score(lists[..|lists| - 1], id) + ListScore(lists[|lists| - 1], id)
  }

  predicate Listed(lists: seq<seq<string>>, id: string) { exists i :: 0 <= i < |lists| && id in lists[i] }

  /** Higher score first, then the smaller id. */
  predicate Above(scores: map<string, real>, a: string, b: string)
    requires a in scores && b in scores
  {
    scores[a] > scores[b] || (scores[a] == scores[b] && Less(a, b))
  }

  /** The scores of exactly the listed ids. */
  ghost predicate Scores(lists: seq<seq<string>>, scores: map<string, real>) {
    (forall id :: id in scores <==> Listed(lists, id)) && forall id :: id in scores ==> scores[id] == Score(lists, id)
  }

  /** All listed ids, each once, in order. */
  ghost predicate Ranking(lists: seq<seq<string>>, ids: seq<string>) {
    && Distinct(ids) && (forall id :: id in ids <==> Listed(lists, id))
    && forall i, j :: 0 <= i < j < |ids| ==> Outranks(lists, ids[i], ids[j])
  }

  predicate Outranks(lists: seq<seq<string>>, a: string, b: string) {
    Score(lists, a) > Score(lists, b) || (Score(lists, a) == Score(lists, b) && Less(a, b))
  }

  // ---------- the loops ----------

  function Plus(scores: map<string, real>, id: string, x: real): map<string, real> {
    scores[id := (if id in scores then scores[id] else 0.0) + x]
  }

  /** The scores so far: whole lists, and the first `n` places of one more. */
  ghost predicate SoFar(done: seq<seq<string>>, l: seq<string>, n: nat, scores: map<string, real>)
    requires n <= |l|
  {
    && (forall id :: id in scores <==> Listed(done, id) || id in l[..n])
    && forall id :: id in scores ==> scores[id] == Score(done, id) + ListScore(l[..n], id)
  }

  lemma PlaceScored(done: seq<seq<string>>, l: seq<string>, n: nat, scores: map<string, real>)
    requires n < |l| && SoFar(done, l, n, scores)
    ensures SoFar(done, l, n + 1, Plus(scores, l[n], Weight(n)))
  {
    hide Weight, Listed;
    var before, now := l[..n], l[..n + 1];
    assert now[..n] == before && now == before + [l[n]];
    assert forall id :: ListScore(now, id) == ListScore(before, id) + (if l[n] == id then Weight(n) else 0.0);
    if l[n] !in scores { NotListedScore(done, l[n]); NotInScore(before, l[n]); }
  }

  lemma {:induction false} NotInScore(l: seq<string>, id: string)
    requires id !in l
    ensures ListScore(l, id) == 0.0
    decreases |l|
  {
    if l != [] { NotInScore(l[..|l| - 1], id); }
  }

  lemma {:induction false} NotListedScore(lists: seq<seq<string>>, id: string)
    requires !Listed(lists, id)
    ensures Score(lists, id) == 0.0
    decreases |lists|
  {
    if lists != [] {
      var init := lists[..|lists| - 1];
      forall i | 0 <= i < |init| ensures id !in init[i] { assert lists[i] == init[i]; }
      NotListedScore(init, id);
      NotInScore(lists[|lists| - 1], id);
    }
  }

  lemma ListScored(done: seq<seq<string>>, l: seq<string>, scores: map<string, real>)
    requires SoFar(done, l, |l|, scores)
    ensures Scores(done + [l], scores)
  {
    var all := done + [l];
    assert all[..|all| - 1] == done && l[..|l|] == l;
    forall id ensures Listed(all, id) <==> Listed(done, id) || id in l {
      if Listed(done, id) {
        var i :| 0 <= i < |done| && id in done[i];
        assert all[i] == done[i];
      }
      if id in l { assert all[|done|] == l; }
    }
  }

  lemma NewList(done: seq<seq<string>>, l: seq<string>, scores: map<string, real>)
    requires Scores(done, scores)
    ensures SoFar(done, l, 0, scores)
  {
    assert l[..0] == [];
  }

  /** `rrScoreMap` */
  method ScoreMap(lists: seq<seq<string>>) returns (scores: map<string, real>)
    ensures Scores(lists, scores)
  {
    hide Listed, Weight, Score, ListScore, SoFar;
    scores := map[];
    NoLists();
    assert lists[..0] == [];
    for i := 0 to |lists|
      invariant Scores(lists[..i], scores)
    {
      var l := lists[i];
      ghost var done := lists[..i];
      NewList(done, l, scores);
      for j := 0 to |l|
        invariant SoFar(done, l, j, scores)
      {
        PlaceScored(done, l, j, scores);
        scores := Plus(scores, l[j], Weight(j));
      }
      ListScored(done, l, scores);
      assert lists[..i + 1] == done + [l];
    }
    assert lists[..|lists|] == lists;
  }

  lemma NoLists()
    ensures Scores([], map[])
  {
  }

  lemma AboveTransitive(scores: map<string, real>, a: string, b: string, c: string)
    requires a in scores && b in scores && c in scores && Above(scores, a, b) && Above(scores, b, c)
    ensures Above(scores, a, c)
  {
    if Less(a, b) && Less(b, c) { LessTransitive(a, b, c); }
  }

  ghost predicate Sorted(scores: map<string, real>, ids: seq<string>) {
    (forall i :: 0 <= i < |ids| ==> ids[i] in scores)
    && forall i, j :: 0 <= i < j < |ids| ==> ids[i] in scores && ids[j] in scores && Above(scores, ids[i], ids[j])
  }

  /** Put `x` where it belongs among sorted ids. */
  method InsertId(scores: map<string, real>, ids: seq<string>, x: string) returns (r: seq<string>)
    requires Sorted(scores, ids) && x in scores && x !in ids
    ensures Sorted(scores, r) && (forall id :: id in r <==> id in ids || id == x) && |r| == |ids| + 1
  {
    hide Above;
    var p := |ids|;
    while p > 0 && Above(scores, x, ids[p - 1])
      invariant 0 <= p <= |ids|
      invariant forall i :: p <= i < |ids| ==> Above(scores, x, ids[i])
    {
      p := p - 1;
    }
    if p > 0 { NotAbove(scores, x, ids[p - 1]); }
    forall i | 0 <= i < p ensures Above(scores, ids[i], x) {
      if i < p - 1 { AboveTransitive(scores, ids[i], ids[p - 1], x); }
    }
    r := ids[..p] + [x] + ids[p..];
    Inserted(scores, ids, x, p, r);
  }

  lemma NotAbove(scores: map<string, real>, a: string, b: string)
    requires a in scores && b in scores && a != b && !Above(scores, a, b)
    ensures Above(scores, b, a)
  {
    LessTotal(a, b);
  }

  lemma Inserted(scores: map<string, real>, ids: seq<string>, x: string, p: nat, r: seq<string>)
    requires Sorted(scores, ids) && x in scores && p <= |ids| && r == ids[..p] + [x] + ids[p..]
    requires forall i :: 0 <= i < p ==> Above(scores, ids[i], x)
    requires forall i :: p <= i < |ids| ==> Above(scores, x, ids[i])
    ensures Sorted(scores, r) && forall id :: id in r <==> id in ids || id == x
  {
    hide Above;
    assert forall i :: 0 <= i < p ==> r[i] == ids[i];
    assert r[p] == x;
    assert forall i :: p < i < |r| ==> r[i] == ids[i - 1];
    forall id ensures id in r <==> id in ids || id == x {
      if id in ids {
        var i :| 0 <= i < |ids| && ids[i] == id;
        assert r[if i < p then i else i + 1] == id;
      }
    }
  }

  function Top(ids: seq<string>, limit: nat): seq<string> { if |ids| > limit then ids[..limit] else ids }

  ghost predicate TopOfRanking(lists: seq<seq<string>>, limit: nat, ids: seq<string>) {
    exists all :: Ranking(lists, all) && ids == Top(all, limit)
  }

  /** `rrFuse`: the first `limit` ids of the ranking, in whatever order the map is iterated. */
  method Fuse(limit: nat, lists: seq<seq<string>>) returns (ids: seq<string>)
    ensures TopOfRanking(lists, limit, ids)
  {
    hide Listed, Score, Above;
    var scores := ScoreMap(lists);
    var todo := scores.Keys;
    ids := [];
    while todo != {}
      invariant todo <= scores.Keys && Sorted(scores, ids)
      invariant forall id :: id in ids <==> id in scores && id !in todo
      decreases |todo|
    {
      var id :| id in todo;
      todo := todo - {id};
      ids := InsertId(scores, ids, id);
    }
    ghost var all := ids;
    SortedIsRanking(lists, scores, all);
    if |ids| > limit { ids := ids[..limit]; }
    assert Ranking(lists, all) && ids == Top(all, limit);
  }

  lemma SortedIsRanking(lists: seq<seq<string>>, scores: map<string, real>, ids: seq<string>)
    requires Scores(lists, scores) && Sorted(scores, ids) && forall id :: id in ids <==> id in scores
    ensures Ranking(lists, ids)
  {
    hide Listed, Score;
    forall i, j | 0 <= i < j < |ids| ensures ids[i] != ids[j] {
      LessTotal(ids[i], ids[j]);
      assert Above(scores, ids[i], ids[j]);
    }
  }

  // ---------- what the ranking says ----------

  /** There is one ranking: neither the order of iteration nor the sort can change it. */
  lemma {:induction false} RankingUnique(lists: seq<seq<string>>, a: seq<string>, b: seq<string>)
    requires Ranking(lists, a) && Ranking(lists, b)
    ensures a == b
  {
    SameSorted(lists, a, b);
  }

  ghost predicate Descending(lists: seq<seq<string>>, ids: seq<string>) {
    forall i, j :: 0 <= i < j < |ids| ==> Outranks(lists, ids[i], ids[j])
  }

  lemma OutranksOneWay(lists: seq<seq<string>>, a: string, b: string)
    ensures !(Outranks(lists, a, b) && Outranks(lists, b, a)) && !Outranks(lists, a, a)
  {
    hide Score;
    LessTotal(a, b);
    LessTotal(a, a);
  }

  lemma {:induction false} SameSorted(lists: seq<seq<string>>, a: seq<string>, b: seq<string>)
    requires Descending(lists, a) && Descending(lists, b) && forall id :: id in a <==> id in b
    ensures a == b
    decreases |a|
  {
    hide Outranks;
    FirstMember(a);
    FirstMember(b);
    if a != [] && b != [] {
      assert a[0] in b;
      var j :| 0 <= j < |b| && b[j] == a[0];
      assert b[0] in a;
      var i :| 0 <= i < |a| && a[i] == b[0];
      if i > 0 && j > 0 { OutranksOneWay(lists, a[0], b[0]); }
      assert a[0] == b[0];
      forall id ensures id in a[1..] <==> id in b[1..] {
        TailMember(lists, a, id);
        TailMember(lists, b, id);
      }
      SameSorted(lists, a[1..], b[1..]);
    }
  }

  lemma FirstMember(s: seq<string>)
    ensures s == [] || s[0] in s
  {
  }

  lemma TailMember(lists: seq<seq<string>>, a: seq<string>, id: string)
    requires a != [] && Descending(lists, a)
    ensures id in a[1..] <==> id in a && id != a[0]
  {
    hide Outranks;
    if id in a[1..] {
      var i :| 0 <= i < |a[1..]| && a[1..][i] == id;
      assert a[i + 1] == id;
      OutranksOneWay(lists, a[0], id);
    }
  }

  lemma {:induction false} ScoreOfPlace(l: seq<string>, i: nat)
    requires Distinct(l) && i < |l|
    ensures ListScore(l, l[i]) == Weight(i)
    decreases |l|
  {
    hide Weight;
    var last := |l| - 1;
    var init := l[..last];
    if i == last {
      assert l[i] !in init;
      NotInScore(init, l[i]);
    } else {
      assert init[i] == l[i];
      ScoreOfPlace(init, i);
    }
  }

  lemma {:induction false} ListScorePositive(l: seq<string>, id: string)
    ensures ListScore(l, id) >= 0.0
    decreases |l|
  {
    if l != [] { ListScorePositive(l[..|l| - 1], id); }
  }

  lemma EarlierWeighsMore(i: nat, j: nat)
    requires i < j
    ensures Weight(i) > Weight(j) > 0.0
  {
    hide Times;
    var x, y := (K + i + 1) as real, (K + j + 1) as real;
    WeightTimes(i);
    WeightTimes(j);
    GreaterOfTwo(Weight(i), x, Weight(j), y);
  }

  /** A product, kept apart from the arithmetic around it. */
  function Times(p: real, x: real): real { p * x }

  lemma WeightTimes(i: nat)
    ensures Times(Weight(i), (K + i + 1) as real) == 1.0
  {
  }

  /** Of two numbers with the same product the one with the smaller factor is greater. */
  lemma GreaterOfTwo(a: real, x: real, b: real, y: real)
    requires 0.0 < x < y && Times(a, x) == 1.0 && Times(b, y) == 1.0
    ensures a > b > 0.0
  {
    hide Times;
    Scaled(a, 0.0, x);
    Scaled(b, 0.0, y);
    Scaled(a, b, x);
    Scaled(y, x, b);
    Swapped(b, x);
    Swapped(b, y);
    Nothing(x);
    Nothing(y);
  }

  lemma Scaled(p: real, q: real, x: real)
    ensures x > 0.0 && p <= q ==> Times(p, x) <= Times(q, x)
    ensures x > 0.0 && p > q ==> Times(p, x) > Times(q, x)
  {
  }

  lemma Swapped(p: real, x: real)
    ensures Times(p, x) == Times(x, p)
  {
  }

  lemma Nothing(x: real)
    ensures Times(0.0, x) == 0.0
  {
  }

  /** Every list that holds `b` holds no id twice and holds `a` before `b`. */
  ghost predicate Dominates(lists: seq<seq<string>>, a: string, b: string) {
    forall n :: 0 <= n < |lists| && b in lists[n] ==> Distinct(lists[n]) && Precedes(lists[n], a, b)
  }

  predicate Precedes(l: seq<string>, a: string, b: string) { exists i, j :: 0 <= i < j < |l| && l[i] == a && l[j] == b }

  lemma {:induction false} DominatedScoresLess(lists: seq<seq<string>>, a: string, b: string)
    requires Dominates(lists, a, b)
    ensures Score(lists, a) >= Score(lists, b)
    ensures Listed(lists, b) ==> Score(lists, a) > Score(lists, b)
    decreases |lists|
  {
    if lists != [] {
      var last := |lists| - 1;
      var init, l := lists[..last], lists[last];
      assert forall n :: 0 <= n < |init| ==> init[n] == lists[n];
      DominatedScoresLess(init, a, b);
      hide Weight, Distinct;
      if b in l {
        var i, j :| 0 <= i < j < |l| && l[i] == a && l[j] == b;
        ScoreOfPlace(l, i);
        ScoreOfPlace(l, j);
        EarlierWeighsMore(i, j);
      } else {
        NotInScore(l, b);
        ListScorePositive(l, a);
        if Listed(lists, b) {
          var n :| 0 <= n < |lists| && b in lists[n];
          assert init[n] == lists[n];
        }
      }
    }
  }

  /** An id that stands before another wherever the other stands is ranked above it. */
  lemma DominantRanksFirst(lists: seq<seq<string>>, ids: seq<string>, a: string, b: string, i: nat, j: nat)
    requires Ranking(lists, ids) && Dominates(lists, a, b)
    requires i < |ids| && j < |ids| && ids[i] == a && ids[j] == b
    ensures i < j
  {
    hide Score, Listed, Distinct;
    assert ids[j] in ids;
    DominatedScoresLess(lists, a, b);
  }

  /** A dominated id that makes the cut brings the other with it. */
  lemma DominantMakesTheCut(lists: seq<seq<string>>, ids: seq<string>, a: string, b: string, limit: nat)
    requires Ranking(lists, ids) && Dominates(lists, a, b) && limit <= |ids| && b in ids[..limit]
    ensures a in ids[..limit]
  {
    hide Score, Distinct;
    var j :| 0 <= j < limit && ids[j] == b;
    assert ids[j] in ids;
    var n :| 0 <= n < |lists| && b in lists[n];
    var p, q :| 0 <= p < q < |lists[n]| && lists[n][p] == a && lists[n][q] == b;
    assert Listed(lists, a);
    var i :| 0 <= i < |ids| && ids[i] == a;
    DominantRanksFirst(lists, ids, a, b, i, j);
    assert ids[..limit][i] == a;
  }

  // ---------- the scores and the order, in numbers and bytes ----------

  /** The first place weighs 1/61, the next 1/62, and so on. */
  lemma WeightIs(position: nat)
    ensures Weight(position) * (position + 61) as real == 1.0
  {
  }

  /** Lists add up, in whatever groups they are taken. */
  lemma {:induction false} ScoresAdd(a: seq<seq<string>>, b: seq<seq<string>>, id: string)
    ensures Score(a + b, id) == Score(a, id) + Score(b, id)
    decreases |b|
  {
    if b == [] {
      assert a + b == a;
    } else {
      var init := b[..|b| - 1];
      ScoresAdd(a, init, id);
      assert (a + b)[..|a + b| - 1] == a + init && (a + b)[|a + b| - 1] == b[|b| - 1];
    }
  }

  lemma {:induction false} PlacesAdd(a: seq<string>, id: string)
    ensures ListScore(a + [id], id) == ListScore(a, id) + Weight(|a|)
    ensures forall other :: other != id ==> ListScore(a + [other], id) == ListScore(a, id)
    ensures Score([a], id) == ListScore(a, id)
  {
    hide Weight;
    assert (a + [id])[..|a|] == a;
    forall other | other != id ensures ListScore(a + [other], id) == ListScore(a, id) {
      assert (a + [other])[..|a|] == a;
    }
    assert [a][..0] == [];
  }

  /** In a ranking scores never rise, and where they stay the ids stand in byte order. */
  lemma RankingIs(lists: seq<seq<string>>, ids: seq<string>, i: nat, j: nat)
    requires Ranking(lists, ids) && i < j < |ids|
    ensures Score(lists, ids[i]) > Score(lists, ids[j])
            || (Score(lists, ids[i]) == Score(lists, ids[j]) && Before(ids[i], ids[j]))
  {
    hide Score, Listed;
    LessIsBefore(ids[i], ids[j]);
  }
}
