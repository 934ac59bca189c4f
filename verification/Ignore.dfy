/** The ignore rules of plain directories (internal/zoekttext/zoekttext.go): the string tests of
    the code, and what they mean on path components. */
module Ignore {
  import opened Text
  import opened Lines

  datatype Rule = Rule(pat: string, anchored: bool, dirOnly: bool)

  predicate HasPrefix(s: string, p: string) { p <= s }

  predicate HasSuffix(s: string, t: string) { |s| >= |t| && s[|s| - |t|..] == t }

  /** Whether `sub` occurs in `s`, looking from the left. */
  predicate Occurs(s: string, sub: string) { HasPrefix(s, sub) || (s != "" && Occurs(s[1..], sub)) }

  /** `ignoreRule.match` */
  predicate Matches(r: Rule, rel: string, isDir: bool) {
    if r.dirOnly && !isDir then false
    else if rel == r.pat || HasPrefix(rel, r.pat + "/") then true
    else !r.anchored && Occurs("/" + rel + "/", "/" + r.pat + "/")
  }

  /** `matchIgnores` */
  predicate AnyMatches(rules: seq<Rule>, rel: string, isDir: bool) {
    rules != [] && (Matches(rules[0], rel, isDir) || AnyMatches(rules[1..], rel, isDir))
  }

  /** One line of the ignore file. */
  function ParseRule(line: string): Option<Rule> { FromText(TrimSpace(line)) }

  /** A line without the white space around it. */
  function FromText(text: string): Option<Rule> {
    if text == "" || text[0] == '#' then None
    else
      var anchored := text[0] == '/';
      var body := if anchored then text[1..] else text;
      var dirOnly := HasSuffix(body, "/");
      var pat := if dirOnly then body[..|body| - 1] else body;
      if pat == "" then None else Some(Rule(pat, anchored, dirOnly))
  }

  function ParseAll(lines: seq<string>): seq<Rule> {
    if lines == [] then []
    else ParseAll(lines[..|lines| - 1]) + (match ParseRule(lines[|lines| - 1]) case Some(r) => [r] case None => [])
  }

  /** `parseIgnores` */
  method ParseIgnores(lines: seq<string>) returns (rules: seq<Rule>)
    ensures rules == ParseAll(lines)
    ensures forall i :: 0 <= i < |rules| ==> rules[i].pat != ""
  {
    hide TrimSpace, ParseAll;
    rules := [];
    NoLines(lines);
    for n := 0 to |lines|
      invariant rules == ParseAll(lines[..n])
      invariant forall i :: 0 <= i < |rules| ==> rules[i].pat != ""
    {
      ParseAllStep(lines, n);
      var line := TrimSpace(lines[n]);
      if line == "" || line[0] == '#' { continue; }
      var r := Rule(line, false, false);
      if r.pat[0] == '/' { r := r.(anchored := true, pat := r.pat[1..]); }
      if HasSuffix(r.pat, "/") { r := r.(dirOnly := true, pat := r.pat[..|r.pat| - 1]); }
      if r.pat == "" { continue; }
      assert FromText(line) == Some(r);
      rules := rules + [r];
    }
    assert lines[..|lines|] == lines;
  }

  lemma NoLines(lines: seq<string>)
    ensures ParseAll(lines[..0]) == []
  {
  }

  lemma ParseAllStep(lines: seq<string>, n: nat)
    requires n < |lines|
    ensures ParseAll(lines[..n + 1])
         == ParseAll(lines[..n]) + (match FromText(TrimSpace(lines[n])) case Some(r) => [r] case None => [])
  {
    hide TrimSpace, FromText;
    assert lines[..n + 1][..n] == lines[..n];
  }

  /** The line that stands for a rule. */
  function Written(r: Rule): string { (if r.anchored then "/" else "") + r.pat + (if r.dirOnly then "/" else "") }

  /** What is written for a rule reads back as that rule, given a pattern that could have been read. */
  lemma RuleRoundTrip(r: Rule)
    requires r.pat != "" && (!r.anchored ==> r.pat[0] != '/' && r.pat[0] != '#') &&
               (!r.dirOnly ==> r.pat[|r.pat| - 1] != '/')
    requires TrimSpace(Written(r)) == Written(r)
    ensures ParseRule(Written(r)) == Some(r)
  {
    hide TrimSpace, FromText, HasSuffix, Written;
    var body := r.pat + (if r.dirOnly then "/" else "");
    WrittenBody(r);
    SlashSuffix(body);
    assert r.dirOnly ==> body[..|body| - 1] == r.pat;
    assert !r.dirOnly ==> body == r.pat;
    ReadFromText(Written(r), body);
  }

  lemma ReadFromText(text: string, body: string)
    requires text != "" && text[0] != '#' && body == if text[0] == '/' then text[1..] else text
    ensures var pat := if HasSuffix(body, "/") then body[..|body| - 1] else body;
            FromText(text) == if pat == "" then None else Some(Rule(pat, text[0] == '/', HasSuffix(body, "/")))
  {
    hide HasSuffix;
  }

  lemma WrittenBody(r: Rule)
    requires r.pat != ""
    ensures var text, body := Written(r), r.pat + (if r.dirOnly then "/" else "");
            && text != "" && text[0] == (if r.anchored then '/' else r.pat[0])
            && body == (if r.anchored then text[1..] else text)
  {
    var body := r.pat + (if r.dirOnly then "/" else "");
    if r.anchored { assert Written(r) == "/" + body; } else { assert Written(r) == body; }
  }

  lemma SlashSuffix(s: string)
    requires s != ""
    ensures HasSuffix(s, "/") <==> s[|s| - 1] == '/'
  {
    assert s[|s| - 1..] == [s[|s| - 1]];
  }

  /** The lines that give no rule: blank ones, comments, and slashes alone. */
  lemma NoRuleIs(line: string)
    ensures ParseRule(line) == None <==> var t := TrimSpace(line); t == "" || t[0] == '#' || t == "/" || t == "//"
  {
    hide TrimSpace, HasSuffix;
    var t := TrimSpace(line);
    if t != "" && t[0] != '#' {
      var body := if t[0] == '/' then t[1..] else t;
      ReadFromText(t, body);
      if body != "" { SlashSuffix(body); }
      EmptySuffix();
      assert t[0] == '/' ==> t == "/" + body;
    }
  }

  lemma EmptySuffix()
    ensures !HasSuffix("", "/")
  {
  }

  lemma RuleIsWritten(line: string)
    requires ParseRule(line).Some?
    ensures Written(ParseRule(line).value) == TrimSpace(line) && ParseRule(line).value.pat != ""
  {
    hide TrimSpace;
    var text := TrimSpace(line);
    var body := if text[0] == '/' then text[1..] else text;
    if HasSuffix(body, "/") { assert body == body[..|body| - 1] + "/"; }
  }

  // ---------- components ----------

  /** The text between slashes. */
  function Components(s: string): (r: seq<string>)
    ensures r != []
  {
    Split(s, '/')
  }

  function Joined(cs: seq<string>): string
    requires cs != []
  {
    if |cs| == 1 then cs[0] else cs[0] + ("/" + Joined(cs[1..]))
  }

  /** `p` stands in `cs` without gaps, starting at `i`. */
  predicate StandsAt(cs: seq<string>, p: seq<string>, i: int) { 0 <= i <= |cs| - |p| && cs[i..i + |p|] == p }

  ghost predicate Contiguous(cs: seq<string>, p: seq<string>) { exists i :: StandsAt(cs, p, i) }

  /** A slash separates components. */
  lemma ComponentsJoin(a: string, b: string)
    ensures Components(a + ("/" + b)) == Components(a) + Components(b)
  {
    SplitJoin(a, b, '/');
  }

  lemma {:induction false} JoinComponents(s: string)
    ensures Joined(Components(s)) == s
    decreases |s|
  {
    if s != "" {
      var c, t := s[0], s[1..];
      var r := Components(t);
      JoinComponents(t);
      assert s == [c] + t;
      hide Split;
      SplitStep(c, t, '/');
      if c == '/' {
        assert ([""] + r)[1..] == r;
        assert "" + ("/" + t) == "/" + t;
      } else {
        JoinHead(c, r);
      }
    }
  }

  lemma JoinHead(c: char, r: seq<string>)
    requires r != []
    ensures Joined([[c] + r[0]] + r[1..]) == [c] + Joined(r)
  {
    var s := [[c] + r[0]] + r[1..];
    if |r| > 1 {
      assert s[1..] == r[1..];
      assert [c] + r[0] + ("/" + Joined(r[1..])) == [c] + (r[0] + ("/" + Joined(r[1..])));
    }
  }

  lemma {:induction false} JoinedAppend(a: seq<string>, b: seq<string>)
    requires a != [] && b != []
    ensures Joined(a + b) == Joined(a) + ("/" + Joined(b))
    decreases |a|
  {
    assert (a + b)[1..] == a[1..] + b;
    if |a| == 1 {
      assert a[1..] + b == b;
    } else {
      JoinedAppend(a[1..], b);
      var x, y, z := a[0], Joined(a[1..]), "/" + Joined(b);
      assert x + ("/" + (y + z)) == x + ("/" + y) + z;
    }
  }

  /** Names without a slash are the components of the path they make. */
  lemma {:induction false} ComponentsOfJoined(cs: seq<string>)
    requires cs != [] && forall i :: 0 <= i < |cs| ==> '/' !in cs[i]
    ensures Components(Joined(cs)) == cs
    decreases |cs|
  {
    if |cs| == 1 {
      SplitOne(cs[0], '/');
    } else {
      ComponentsOfJoined(cs[1..]);
      hide Components;
      NameIsComponent(cs[0]);
      ComponentsJoin(cs[0], Joined(cs[1..]));
      assert [cs[0]] + cs[1..] == cs;
    }
  }

  lemma NameIsComponent(name: string)
    requires '/' !in name
    ensures Components(name) == [name]
  {
    SplitOne(name, '/');
  }

  // ---------- what a rule matches ----------

  function Around(x: string, sub: string, y: string): string { x + (sub + y) }

  lemma {:induction false} SplitAround(s: string, sub: string) returns (x: string, y: string)
    requires Occurs(s, sub)
    ensures s == Around(x, sub, y)
    decreases |s|
  {
    if HasPrefix(s, sub) {
      x, y := "", s[|sub|..];
    } else {
      x, y := SplitAround(s[1..], sub);
      x := [s[0]] + x;
      assert s == [s[0]] + s[1..];
    }
  }

  lemma {:induction false} OccursAround(x: string, sub: string, y: string)
    ensures Occurs(Around(x, sub, y), sub)
    decreases |x|
  {
    var s := Around(x, sub, y);
    if x == "" {
      assert s == sub + y;
    } else {
      assert s[1..] == Around(x[1..], sub, y);
      OccursAround(x[1..], sub, y);
    }
  }

  lemma PrefixComponents(rel: string, pat: string)
    requires HasPrefix(rel, pat + "/")
    ensures Components(pat) <= Components(rel)
  {
    hide Components;
    var t := rel[|pat| + 1..];
    assert rel == pat + ("/" + t);
    ComponentsJoin(pat, t);
  }

  lemma ComponentsPrefix(rel: string, pat: string)
    requires Components(pat) <= Components(rel)
    ensures rel == pat || HasPrefix(rel, pat + "/")
  {
    hide Components, Joined;
    var pc, rc := Components(pat), Components(rel);
    JoinComponents(rel);
    JoinComponents(pat);
    var rest := rc[|pc|..];
    assert rc == pc + rest;
    if rest == [] {
      assert rc == pc;
    } else {
      JoinedAppend(pc, rest);
      assert rel == pat + "/" + Joined(rest);
    }
  }

  /** The prefix test of an anchored rule is a prefix of components. */
  lemma PrefixIsComponents(rel: string, pat: string)
    ensures rel == pat || HasPrefix(rel, pat + "/") <==> Components(pat) <= Components(rel)
  {
    hide Components;
    if HasPrefix(rel, pat + "/") { PrefixComponents(rel, pat); }
    if Components(pat) <= Components(rel) { ComponentsPrefix(rel, pat); }
  }

  lemma Surrounded(rel: string, pat: string, before: seq<string>, after: seq<string>)
    requires Components(rel) == before + Components(pat) + after
    ensures Occurs("/" + rel + "/", "/" + pat + "/")
  {
    hide Occurs, Joined, Components;
    JoinComponents(rel);
    JoinComponents(pat);
    var pc := Components(pat);
    var tail := pc + after;
    var y := if after == [] then "" else Joined(after);
    if after != [] { JoinedAppend(pc, after); } else { assert tail == pc; }
    assert before + pc + after == before + tail;
    if before == [] {
      assert before + tail == tail;
      SlashText("", false, pat, y, after != []);
    } else {
      JoinedAppend(before, tail);
      SlashText(Joined(before), true, pat, y, after != []);
    }
  }

  lemma SlashText(x: string, left: bool, pat: string, y: string, right: bool)
    ensures var tail := if right then pat + ("/" + y) else pat;
            var rel := if left then x + ("/" + tail) else tail;
            Occurs("/" + rel + "/", "/" + pat + "/")
  {
    hide Occurs;
    var tail := if right then pat + ("/" + y) else pat;
    var rel := if left then x + ("/" + tail) else tail;
    var pre, post := if left then "/" + x else "", if right then y + "/" else "";
    assert "/" + tail + "/" == "/" + pat + "/" + post;
    assert "/" + rel + "/" == pre + ("/" + tail + "/");
    OccursAround(pre, "/" + pat + "/", post);
  }

  /** Where `/pat/` stands in `/rel/`, the components of `pat` stand in those of `rel`. */
  lemma Standing(rel: string, pat: string, x: string, y: string)
    requires "/" + rel + "/" == Around(x, "/" + pat + "/", y)
    ensures Contiguous(Components(rel), Components(pat))
  {
    hide Components;
    var pc := Components(pat);
    var s := "/" + rel + "/";
    var after: seq<string> := [];
    var tail := pat;
    if y != "" {
      Ends(s, x + ("/" + pat + "/"), y);
      var y' := y[..|y| - 1];
      ComponentsJoin(pat, y');
      after := Components(y');
      tail := pat + ("/" + y');
    }
    assert pc + after == Components(tail) by { if y == "" { assert pc + [] == pc; } }
    TailText(rel, pat, x, y, tail);
    if x == "" {
      assert rel == tail;
      assert Components(rel)[0..0 + |pc|] == pc;
      assert StandsAt(Components(rel), pc, 0);
    } else {
      var x' := x[1..];
      assert rel == x' + ("/" + tail);
      ComponentsJoin(x', tail);
      var before := Components(x');
      assert Components(rel) == before + (pc + after);
      assert Components(rel)[|before|..|before| + |pc|] == pc;
      assert StandsAt(Components(rel), pc, |before|);
    }
  }

  lemma Ends(s: string, a: string, y: string)
    requires y != "" && s == a + y && s != "" && s[|s| - 1] == '/'
    ensures y == y[..|y| - 1] + "/"
  {
    assert y[|y| - 1] == s[|s| - 1];
  }

  lemma TailText(rel: string, pat: string, x: string, y: string, tail: string)
    requires "/" + rel + "/" == Around(x, "/" + pat + "/", y)
    requires if y == "" then tail == pat else y[|y| - 1] == '/' && tail == pat + ("/" + y[..|y| - 1])
    ensures x == "" ==> rel == tail
    ensures x != "" ==> rel == x[1..] + ("/" + tail)
  {
    var s := "/" + rel + "/";
    assert rel == s[1..|s| - 1];
    assert s == x + ("/" + tail + "/") by {
      if y != "" {
        assert y == y[..|y| - 1] + "/";
        assert "/" + pat + "/" + y == "/" + tail + "/";
      }
    }
    if x == "" {
      assert s == "/" + tail + "/";
      assert s[1..|s| - 1] == tail;
    } else {
      assert s[1..|s| - 1] == x[1..] + ("/" + tail);
    }
  }

  /** The rule's components stand in the path's: from the start for an anchored rule, anywhere without
      gaps otherwise; a directory rule covers directories only. */
  ghost predicate Covers(r: Rule, path: seq<string>, isDir: bool) {
    (r.dirOnly ==> isDir) && if r.anchored then Components(r.pat) <= path else Contiguous(path, Components(r.pat))
  }

  ghost predicate AnyCovers(rules: seq<Rule>, path: seq<string>, isDir: bool) {
    exists i :: 0 <= i < |rules| && Covers(rules[i], path, isDir)
  }

  /** The string tests of all rules on a path made of names, in terms of the names. */
  lemma {:induction false} AnyMatchesIsCovers(rules: seq<Rule>, path: seq<string>, isDir: bool)
    requires path != [] && forall i :: 0 <= i < |path| ==> '/' !in path[i]
    ensures AnyMatches(rules, Joined(path), isDir) <==> AnyCovers(rules, path, isDir)
    decreases |rules|
  {
    if rules != [] {
      AnyMatchesIsCovers(rules[1..], path, isDir);
      ComponentsOfJoined(path);
      MatchIsComponents(rules[0], Joined(path), isDir);
      hide Matches, Covers, Joined;
      if AnyCovers(rules, path, isDir) {
        var i :| 0 <= i < |rules| && Covers(rules[i], path, isDir);
        assert i > 0 ==> rules[1..][i - 1] == rules[i];
      }
      if AnyCovers(rules[1..], path, isDir) {
        var i :| 0 <= i < |rules[1..]| && Covers(rules[1..][i], path, isDir);
        assert rules[i + 1] == rules[1..][i];
      }
    }
  }

  /** A rule matches a path exactly when its components stand in the path's: from the start for an
      anchored rule, anywhere without gaps otherwise; a directory rule matches directories only. */
  lemma MatchIsComponents(r: Rule, rel: string, isDir: bool)
    ensures Matches(r, rel, isDir) <==> Covers(r, Components(rel), isDir)
  {
    hide Occurs, Components;
    var pc, rc := Components(r.pat), Components(rel);
    var s, sub := "/" + rel + "/", "/" + r.pat + "/";
    PrefixIsComponents(rel, r.pat);
    if pc <= rc {
      assert rc[0..0 + |pc|] == pc;
      assert StandsAt(rc, pc, 0);
    }
    if Occurs(s, sub) {
      var x, y := SplitAround(s, sub);
      Standing(rel, r.pat, x, y);
    }
    if Contiguous(rc, pc) {
      var i :| StandsAt(rc, pc, i);
      assert rc == rc[..i] + pc + rc[i + |pc|..];
      Surrounded(rel, r.pat, rc[..i], rc[i + |pc|..]);
    }
  }

  /** A rule that is not for directories only and matches a directory matches everything below it. */
  lemma MatchCoversBelow(r: Rule, rel: string, sub: string, isDir: bool)
    requires !r.dirOnly && Matches(r, rel, true)
    ensures Matches(r, rel + ("/" + sub), isDir)
  {
    hide Matches, Components;
    MatchIsComponents(r, rel, true);
    MatchIsComponents(r, rel + ("/" + sub), isDir);
    ComponentsJoin(rel, sub);
    var pc, rc, all := Components(r.pat), Components(rel), Components(rel + ("/" + sub));
    if !r.anchored {
      var i :| StandsAt(rc, pc, i);
      assert all[i..i + |pc|] == rc[i..i + |pc|];
      assert StandsAt(all, pc, i);
    }
  }
}
