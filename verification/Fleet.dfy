/** Searching a fleet of projects in order under one shared limit (internal/mcp/zoekt.go).
    The search of one project is a parameter. */
module Fleet {
  import opened Text

  datatype Member = Member(name: string, shards: string, root: string, live: bool)

  datatype Match = Match(file: string, line: int, text: string)

  datatype Found = Found(matches: seq<Match>, total: nat, files: nat, hasMore: bool) | Failed(reason: string)

  /** The result of searching a member for at most so many matches; no limit when not positive. */
  type Search = (Member, int) -> Found

  datatype Result = Result(
    searched: seq<string>, skipped: seq<string>, notSearched: seq<string>,
    matchesTotal: nat, filesTotal: nat, matchesShown: nat, filesShown: nat,
    truncated: bool, limitReached: bool)

  /** One search that the walk made: whom, with what limit, and what came back. */
  datatype Visit = Visit(member: Member, limit: int, found: Found)

  function Rest(limit: int, remaining: int, found: Found): int {
    if found.Found? && limit > 0 then remaining - |found.matches| else remaining
  }

  /** The searches the walk makes, in order. */
  function Visits(members: seq<Member>, limit: int, remaining: int, search: Search): (vs: seq<Visit>)
    ensures |vs| <= |members|
  {
    if members == [] || (limit > 0 && remaining <= 0) then []
    else
      var found := search(members[0], remaining);
      [Visit(members[0], remaining, found)] + Visits(members[1..], limit, Rest(limit, remaining, found), search)
  }

  function Names(members: seq<Member>): seq<string> { seq(|members|, i requires 0 <= i < |members| => members[i].name) }

  function Searched(vs: seq<Visit>): seq<string> {
    if vs == [] then []
    else Searched(vs[..|vs| - 1]) + (if vs[|vs| - 1].found.Found? then [vs[|vs| - 1].member.name] else [])
  }

  function Skipped(vs: seq<Visit>): seq<string> {
    if vs == [] then []
    else
      var v := vs[|vs| - 1];
      Skipped(vs[..|vs| - 1]) + (if v.found.Failed? then [v.member.name + " (" + v.found.reason + ")"] else [])
  }

  function Shown(vs: seq<Visit>): nat {
    if vs == [] then 0
    else Shown(vs[..|vs| - 1]) + (if vs[|vs| - 1].found.Found? then |vs[|vs| - 1].found.matches| else 0)
  }

  function Total(vs: seq<Visit>): nat {
    if vs == [] then 0 else Total(vs[..|vs| - 1]) + (if vs[|vs| - 1].found.Found? then vs[|vs| - 1].found.total else 0)
  }

  function FilesTotal(vs: seq<Visit>): nat {
    if vs == [] then 0
    else FilesTotal(vs[..|vs| - 1]) + (if vs[|vs| - 1].found.Found? then vs[|vs| - 1].found.files else 0)
  }

  function FilesShown(vs: seq<Visit>): nat {
    if vs == [] then 0
    else FilesShown(vs[..|vs| - 1]) + (if vs[|vs| - 1].found.Found? then Runs(vs[|vs| - 1].found.matches) else 0)
  }

  predicate More(vs: seq<Visit>) { exists i :: 0 <= i < |vs| && vs[i].found.Found? && vs[i].found.hasMore }

  /** What the accounting says of these searches. */
  function Account(members: seq<Member>, limit: int, vs: seq<Visit>): Result
    requires |vs| <= |members|
  {
    Result(Searched(vs), Skipped(vs), Names(members[|vs|..]), Total(vs), FilesTotal(vs), Shown(vs), FilesShown(vs),
           More(vs) || (limit > 0 && Total(vs) > Shown(vs)), |vs| < |members|)
  }

  // ---------- files among matches ----------

  /** Runs of adjacent matches in one file. */
  function Runs(ms: seq<Match>): nat {
    if ms == [] then 0
    else
      var last := |ms| - 1;
      Runs(ms[..last]) + (if last == 0 || ms[last].file != ms[last - 1].file then 1 else 0)
  }

  /** `distinctFiles` */
  method DistinctFiles(ms: seq<Match>) returns (n: nat)
    ensures n == Runs(ms)
  {
    n := 0;
    for i := 0 to |ms|
      invariant n == Runs(ms[..i])
    {
      assert ms[..i + 1][..i] == ms[..i];
      if i == 0 || ms[i].file != ms[i - 1].file { n := n + 1; }
    }
    assert ms[..|ms|] == ms;
  }

  /** The matches of a file stand together. */
  ghost predicate Grouped(ms: seq<Match>) {
    forall i, j, k :: 0 <= i < j < k < |ms| && ms[i].file == ms[k].file ==> ms[j].file == ms[i].file
  }

  function Files(ms: seq<Match>): set<string> { set i | 0 <= i < |ms| :: ms[i].file }

  /** When the matches of a file stand together, the count of runs is the number of files. */
  lemma {:induction false} RunsAreFiles(ms: seq<Match>)
    requires Grouped(ms)
    ensures Runs(ms) == |Files(ms)|
    decreases |ms|
  {
    if ms == [] {
      assert Files(ms) == {};
    } else {
      var last := |ms| - 1;
      var init := ms[..last];
      hide Files, Grouped, Runs;
      GroupedInit(ms);
      RunsAreFiles(init);
      FilesStep(ms);
      RunsStep(ms);
      if last > 0 && ms[last].file == ms[last - 1].file {
        IsFile(init, last - 1);
        assert Files(init) + {ms[last].file} == Files(init);
      } else {
        NewFile(ms);
      }
    }
  }

  lemma GroupedInit(ms: seq<Match>)
    requires Grouped(ms) && ms != []
    ensures Grouped(ms[..|ms| - 1])
  {
  }

  lemma RunsStep(ms: seq<Match>)
    requires ms != []
    ensures Runs(ms) == Runs(ms[..|ms| - 1]) + (if |ms| == 1 || ms[|ms| - 1].file != ms[|ms| - 2].file then 1 else 0)
  {
  }

  lemma FilesStep(ms: seq<Match>)
    requires ms != []
    ensures Files(ms) == Files(ms[..|ms| - 1]) + {ms[|ms| - 1].file}
  {
    var last := |ms| - 1;
    var init := ms[..last];
    forall f ensures f in Files(ms) <==> f in Files(init) + {ms[last].file} {
      if f in Files(ms) {
        var i :| 0 <= i < |ms| && ms[i].file == f;
        if i < last { assert init[i] == ms[i]; }
      }
      if f in Files(init) {
        var i :| 0 <= i < |init| && init[i].file == f;
        assert ms[i] == init[i];
      }
    }
  }

  lemma IsFile(ms: seq<Match>, i: nat)
    requires i < |ms|
    ensures ms[i].file in Files(ms)
  {
  }

  lemma NewFile(ms: seq<Match>)
    requires Grouped(ms) && ms != [] && (|ms| > 1 ==> ms[|ms| - 1].file != ms[|ms| - 2].file)
    ensures ms[|ms| - 1].file !in Files(ms[..|ms| - 1])
  {
    var init := ms[..|ms| - 1];
    forall i | 0 <= i < |init| ensures init[i].file != ms[|ms| - 1].file {
      EarlierRun(ms, i);
    }
  }

  lemma EarlierRun(ms: seq<Match>, i: nat)
    requires Grouped(ms) && i < |ms| - 1 && ms[|ms| - 2].file != ms[|ms| - 1].file
    ensures ms[i].file != ms[|ms| - 1].file
  {
    var early, before, last := ms[i].file, ms[|ms| - 2].file, ms[|ms| - 1].file;
  }

  // ---------- the walk ----------

  /** `QueryZoektFleet`, its rendering left out. */
  method QueryFleet(members: seq<Member>, limit: int, search: Search) returns (out: Result)
    ensures out == Account(members, limit, Visits(members, limit, limit, search))
  {
    hide Searched, Skipped, Shown, Total, FilesTotal, FilesShown, Runs, More, Visits, Names;
    out := Result([], [], [], 0, 0, 0, 0, false, false);
    ghost var visits: seq<Visit> := [];
    var remaining := limit;
    NothingYet();
    assert members[0..] == members;
    assert visits + Visits(members, limit, limit, search) == Visits(members, limit, limit, search);
    for k := 0 to |members|
      invariant k == |visits|
      invariant Visits(members, limit, limit, search) == visits + Visits(members[k..], limit, remaining, search)
      invariant out == Result(Searched(visits), Skipped(visits), [], Total(visits), FilesTotal(visits), Shown(visits),
                              FilesShown(visits), More(visits), false)
    {
      if limit > 0 && remaining <= 0 {
        NoVisit(members[k..], limit, remaining, search);
        out := out.(notSearched := Names(members[k..]), limitReached := true);
        break;
      }
      var m := members[k];
      var found := search(m, remaining);
      ghost var v := Visit(m, remaining, found);
      VisitStep(members[k..], limit, remaining, search);
      assert members[k..][1..] == members[k + 1..];
      assert visits + ([v] + Visits(members[k + 1..], limit, Rest(limit, remaining, found), search))
          == visits + [v] + Visits(members[k + 1..], limit, Rest(limit, remaining, found), search);
      AccountStep(visits, v);
      visits := visits + [v];
      match found {
        case Failed(reason) =>
          out := out.(skipped := out.skipped + [m.name + " (" + reason + ")"]);
        case Found(matches, total, files, hasMore) =>
          var distinct := DistinctFiles(matches);
          out := out.(searched := out.searched + [m.name], matchesTotal := out.matchesTotal + total,
                      filesTotal := out.filesTotal + files, matchesShown := out.matchesShown + |matches|,
                      filesShown := out.filesShown + distinct, truncated := out.truncated || hasMore);
          if limit > 0 { remaining := remaining - |matches|; }
      }
    }
    assert visits + [] == visits;
    if |visits| == |members| { NoVisit(members[|members|..], limit, remaining, search); }
    if limit > 0 && out.matchesTotal > out.matchesShown { out := out.(truncated := true); }
  }

  lemma NothingYet()
    ensures Searched([]) == [] && Skipped([]) == [] && Total([]) == 0 && FilesTotal([]) == 0 && Shown([]) == 0
            && FilesShown([]) == 0 && !More([])
  {
  }

  lemma NoVisit(members: seq<Member>, limit: int, remaining: int, search: Search)
    requires members == [] || (limit > 0 && remaining <= 0)
    ensures Visits(members, limit, remaining, search) == [] && (members == [] ==> Names(members) == [])
  {
  }

  lemma VisitStep(members: seq<Member>, limit: int, remaining: int, search: Search)
    requires members != [] && !(limit > 0 && remaining <= 0)
    ensures var found := search(members[0], remaining);
            var rest := Visits(members[1..], limit, Rest(limit, remaining, found), search);
            Visits(members, limit, remaining, search) == [Visit(members[0], remaining, found)] + rest
  {
  }

  lemma AccountStep(vs: seq<Visit>, v: Visit)
    ensures var ws := vs + [v];
            && Searched(ws) == Searched(vs) + (if v.found.Found? then [v.member.name] else [])
            && Skipped(ws)
            == Skipped(vs) + (if v.found.Failed? then [v.member.name + " (" + v.found.reason + ")"] else [])
            && Total(ws) == Total(vs) + (if v.found.Found? then v.found.total else 0)
            && FilesTotal(ws) == FilesTotal(vs) + (if v.found.Found? then v.found.files else 0)
            && Shown(ws) == Shown(vs) + (if v.found.Found? then |v.found.matches| else 0)
            && FilesShown(ws) == FilesShown(vs) + (if v.found.Found? then Runs(v.found.matches) else 0)
            && (More(ws) <==> More(vs) || (v.found.Found? && v.found.hasMore))
  {
    var ws := vs + [v];
    assert ws[..|ws| - 1] == vs && ws[|ws| - 1] == v;
    hide Runs;
    if More(vs) {
      var i :| 0 <= i < |vs| && vs[i].found.Found? && vs[i].found.hasMore;
      assert ws[i] == vs[i];
    }
  }

  // ---------- what the accounting guarantees ----------

  /** A search given a positive limit returns no more than that many matches. */
  ghost predicate Respectful(search: Search) {
    forall m, n :: n > 0 && search(m, n).Found? ==> |search(m, n).matches| <= n
  }

  lemma {:induction false} ShownHead(v: Visit, vs: seq<Visit>)
    ensures Shown([v] + vs) == (if v.found.Found? then |v.found.matches| else 0) + Shown(vs)
    decreases |vs|
  {
    var ws := [v] + vs;
    if vs == [] {
      assert ws[..0] == [];
    } else {
      assert ws[..|ws| - 1] == [v] + vs[..|vs| - 1];
      ShownHead(v, vs[..|vs| - 1]);
    }
  }

  lemma {:induction false} LimitShared(members: seq<Member>, limit: int, remaining: int, search: Search, k: nat)
    requires limit > 0 && Respectful(search) && 0 <= remaining && k < |Visits(members, limit, remaining, search)|
    ensures var vs := Visits(members, limit, remaining, search);
            vs[k].limit == remaining - Shown(vs[..k]) && vs[k].limit > 0
    decreases k
  {
    var vs := Visits(members, limit, remaining, search);
    if k > 0 {
      var found := search(members[0], remaining);
      var tail := Visits(members[1..], limit, Rest(limit, remaining, found), search);
      LimitShared(members[1..], limit, Rest(limit, remaining, found), search, k - 1);
      assert vs[..k] == [vs[0]] + tail[..k - 1];
      ShownHead(vs[0], tail[..k - 1]);
    } else {
      assert vs[..0] == [];
    }
  }

  lemma {:induction false} ShownWithin(members: seq<Member>, limit: int, remaining: int, search: Search)
    requires limit > 0 && Respectful(search) && 0 <= remaining
    ensures var vs := Visits(members, limit, remaining, search);
            Shown(vs) <= remaining && (|vs| < |members| <==> |vs| != |members|)
            && (|vs| < |members| ==> Shown(vs) == remaining)
    decreases |members|
  {
    if members != [] && remaining > 0 {
      var found := search(members[0], remaining);
      var tail := Visits(members[1..], limit, Rest(limit, remaining, found), search);
      ShownWithin(members[1..], limit, Rest(limit, remaining, found), search);
      ShownHead(Visit(members[0], remaining, found), tail);
    } else {
      NothingYet();
    }
  }

  lemma {:induction false} VisitsInOrder(members: seq<Member>, limit: int, remaining: int, search: Search)
    ensures var vs := Visits(members, limit, remaining, search);
            && |vs| <= |members|
            && (forall k :: 0 <= k < |vs| ==>
                  vs[k].member == members[k] && vs[k].found == search(members[k], vs[k].limit))
    ensures limit <= 0 ==> |Visits(members, limit, remaining, search)| == |members|
    ensures limit <= 0 ==> forall k :: 0 <= k < |members| ==>
              Visits(members, limit, remaining, search)[k].limit == remaining
    decreases |members|
  {
    if members != [] && !(limit > 0 && remaining <= 0) {
      VisitsInOrder(members[1..], limit, Rest(limit, remaining, search(members[0], remaining)), search);
    }
  }

  /** Under a positive limit the fleet never shows more than the limit, no member is ever searched
      without a positive remainder, that remainder is the limit less what was shown before, and a
      walk that stops early has shown exactly the limit. */
  lemma LimitIsKept(members: seq<Member>, limit: int, search: Search)
    requires limit > 0 && Respectful(search)
    ensures var vs := Visits(members, limit, limit, search);
            && |vs| <= |members|
            && Shown(vs) <= limit
            && (forall k :: 0 <= k < |vs| ==> vs[k].limit > 0 && vs[k].limit + Shown(vs[..k]) == limit)
            && var out := Account(members, limit, vs);
               && out.matchesShown == Shown(vs) <= limit
               && (out.limitReached <==> |vs| < |members|) && (out.limitReached ==> out.matchesShown == limit)
  {
    hide Shown, Visits;
    var vs := Visits(members, limit, limit, search);
    VisitsInOrder(members, limit, limit, search);
    ShownWithin(members, limit, limit, search);
    forall k | 0 <= k < |vs| ensures vs[k].limit > 0 && vs[k].limit + Shown(vs[..k]) == limit {
      LimitShared(members, limit, limit, search, k);
    }
  }

  // ---------- what the numbers are ----------

  /** All matches shown, one member after the other. */
  function AllMatches(vs: seq<Visit>): seq<Match> {
    if vs == [] then []
    else (if vs[0].found.Found? then vs[0].found.matches else []) + AllMatches(vs[1..])
  }

  function Sum(ns: seq<nat>): nat { if ns == [] then 0 else ns[0] + Sum(ns[1..]) }

  function Totals(vs: seq<Visit>): seq<nat> {
    seq(|vs|, i requires 0 <= i < |vs| => if vs[i].found.Found? then vs[i].found.total else 0)
  }

  function FileTotals(vs: seq<Visit>): seq<nat> {
    seq(|vs|, i requires 0 <= i < |vs| => if vs[i].found.Found? then vs[i].found.files else 0)
  }

  function FileRuns(vs: seq<Visit>): seq<nat> {
    seq(|vs|, i requires 0 <= i < |vs| => if vs[i].found.Found? then Runs(vs[i].found.matches) else 0)
  }

  lemma {:induction false} SumLast(ns: seq<nat>)
    requires ns != []
    ensures Sum(ns) == Sum(ns[..|ns| - 1]) + ns[|ns| - 1]
  {
    if |ns| > 1 {
      SumLast(ns[1..]);
      assert ns[1..][..|ns| - 2] == ns[..|ns| - 1][1..];
    } else {
      assert ns[1..] == [] && ns[..0] == [];
    }
  }

  lemma {:induction false} MatchesLast(vs: seq<Visit>)
    requires vs != []
    ensures var v := vs[|vs| - 1];
            AllMatches(vs) == AllMatches(vs[..|vs| - 1]) + if v.found.Found? then v.found.matches else []
  {
    MatchesHead(vs);
    if |vs| > 1 {
      var init := vs[..|vs| - 1];
      MatchesHead(init);
      assert vs[1..][..|vs| - 2] == init[1..];
      hide AllMatches;
      MatchesLast(vs[1..]);
    } else {
      assert vs[1..] == [] && vs[..0] == [];
    }
  }

  lemma MatchesHead(vs: seq<Visit>)
    requires vs != []
    ensures AllMatches(vs) == (if vs[0].found.Found? then vs[0].found.matches else []) + AllMatches(vs[1..])
  {
  }

  lemma {:induction false} NumbersAre(vs: seq<Visit>)
    ensures Shown(vs) == |AllMatches(vs)| && Total(vs) == Sum(Totals(vs))
    ensures FilesTotal(vs) == Sum(FileTotals(vs)) && FilesShown(vs) == Sum(FileRuns(vs))
    decreases |vs|
  {
    if vs != [] {
      var init := vs[..|vs| - 1];
      hide Runs, AllMatches, Sum;
      NumbersAre(init);
      MatchesLast(vs);
      SumLast(Totals(vs));
      SumLast(FileTotals(vs));
      SumLast(FileRuns(vs));
      assert Totals(vs)[..|vs| - 1] == Totals(init);
      assert FileTotals(vs)[..|vs| - 1] == FileTotals(init);
      assert FileRuns(vs)[..|vs| - 1] == FileRuns(init);
    }
  }

  /** The numbers of the answer are those of the searches made, each search being of its member with the
      remainder it got: matches shown, totals, files, and whether there is more than is shown. */
  lemma AccountIsExact(members: seq<Member>, limit: int, search: Search)
    ensures var vs := Visits(members, limit, limit, search);
            && |vs| <= |members|
            && (forall k :: 0 <= k < |vs| ==>
                  vs[k].member == members[k] && vs[k].found == search(members[k], vs[k].limit))
            && var out := Account(members, limit, vs);
               && out.matchesShown == |AllMatches(vs)| && out.matchesTotal == Sum(Totals(vs))
               && out.filesTotal == Sum(FileTotals(vs)) && out.filesShown == Sum(FileRuns(vs))
               && (out.truncated <==>
                     (exists k :: 0 <= k < |vs| && vs[k].found.Found? && vs[k].found.hasMore)
                     || (limit > 0 && out.matchesTotal > out.matchesShown))
  {
    hide Visits, Searched, Skipped, Shown, Total, FilesTotal, FilesShown, AllMatches, Sum, Totals, FileTotals, FileRuns;
    var vs := Visits(members, limit, limit, search);
    VisitsInOrder(members, limit, limit, search);
    NumbersAre(vs);
  }

  /** Position `k` of the members is searched, skipped, or in the tail that was not reached. */
  ghost predicate Split(members: seq<Member>, searched: seq<nat>, skipped: seq<nat>, reached: nat) {
    && reached <= |members| && Increasing(searched) && Increasing(skipped)
    && forall k: nat :: (k < reached <==> k in searched || k in skipped) && !(k in searched && k in skipped)
  }

  function Positions(vs: seq<Visit>, ok: bool): seq<nat> {
    if vs == [] then []
    else Positions(vs[..|vs| - 1], ok) + (if vs[|vs| - 1].found.Found? == ok then [|vs| - 1] else [])
  }

  lemma {:induction false} PositionsAre(vs: seq<Visit>, ok: bool)
    ensures Increasing(Positions(vs, ok)) && forall k: nat :: k in Positions(vs, ok) <==>
              k < |vs| && vs[k].found.Found? == ok
    decreases |vs|
  {
    if vs != [] {
      var init := vs[..|vs| - 1];
      PositionsAre(init, ok);
      var ps := Positions(init, ok);
      forall p | 0 <= p < |ps| ensures ps[p] < |init| { assert ps[p] in ps; }
      forall k: nat ensures k in Positions(vs, ok) <==> k < |vs| && vs[k].found.Found? == ok {
        if k < |init| { assert init[k] == vs[k]; }
        assert k in Positions(vs, ok) <==>
                 k in Positions(init, ok) || (vs[|vs| - 1].found.Found? == ok && k == |vs| - 1);
      }
    }
  }

  lemma {:induction false} SearchedNames(vs: seq<Visit>)
    ensures var ps := Positions(vs, true);
            |Searched(vs)| == |ps| && forall p :: 0 <= p < |ps| ==>
              ps[p] < |vs| && vs[ps[p]].found.Found? && Searched(vs)[p] == vs[ps[p]].member.name
    decreases |vs|
  {
    if vs != [] {
      SearchedNames(vs[..|vs| - 1]);
    }
  }

  lemma {:induction false} SkippedNames(vs: seq<Visit>)
    ensures var ps := Positions(vs, false);
            |Skipped(vs)| == |ps| && forall p :: 0 <= p < |ps| ==>
              ps[p] < |vs| && vs[ps[p]].found.Failed?
              && Skipped(vs)[p] == vs[ps[p]].member.name + " (" + vs[ps[p]].found.reason + ")"
    decreases |vs|
  {
    if vs != [] {
      SkippedNames(vs[..|vs| - 1]);
    }
  }

  /** Every member is, in order and once, among the searched, the skipped or the not searched. */
  lemma NoMemberLost(members: seq<Member>, limit: int, search: Search) returns (searched: seq<nat>, skipped: seq<nat>)
    ensures var vs := Visits(members, limit, limit, search);
            && |vs| <= |members|
            && var out := Account(members, limit, vs);
            && Split(members, searched, skipped, |vs|)
            && |out.searched| == |searched| && |out.skipped| == |skipped| && |out.notSearched| == |members| - |vs|
            && (forall p :: 0 <= p < |searched| ==>
                 searched[p] < |members| && out.searched[p] == members[searched[p]].name)
            && (forall p :: 0 <= p < |searched| ==> searched[p] < |vs| && vs[searched[p]].found.Found?)
            && (forall p :: 0 <= p < |skipped| ==>
                  skipped[p] < |vs| && vs[skipped[p]].found.Failed?
                  && out.skipped[p] == members[skipped[p]].name + " (" + vs[skipped[p]].found.reason + ")")
            && (forall k :: |vs| <= k < |members| ==> out.notSearched[k - |vs|] == members[k].name)
  {
    hide Visits, Searched, Skipped, Shown, Total, FilesTotal, FilesShown, More, Positions;
    var vs := Visits(members, limit, limit, search);
    VisitsInOrder(members, limit, limit, search);
    PositionsAre(vs, true);
    PositionsAre(vs, false);
    SearchedNames(vs);
    SkippedNames(vs);
    searched, skipped := Positions(vs, true), Positions(vs, false);
  }
}
