/** Text cut at line ends, white space and runes, as Go's strings package sees them. */
module Lines {
  import opened Text

  predicate NoNewline(s: string) { '\n' !in s }

  /** `strings.Split` at a one-byte separator. */
  function Split(s: string, sep: char): (r: seq<string>)
    ensures r != []
    ensures forall i :: 0 <= i < |r| ==> sep !in r[i]
  {
    if s == "" then [""]
    else if s[0] == sep then [""] + Split(s[1..], sep)
    else
      var r := Split(s[1..], sep);
      [[s[0]] + r[0]] + r[1..]
  }

  lemma {:induction false} SplitOne(x: string, sep: char)
    requires sep !in x
    ensures Split(x, sep) == [x]
  {
    if x != "" {
      SplitOne(x[1..], sep);
      assert [x[0]] + x[1..] == x;
    }
  }

  lemma SplitStep(c: char, t: string, sep: char)
    ensures Split([c] + t, sep)
         == if c == sep then [""] + Split(t, sep) else [[c] + Split(t, sep)[0]] + Split(t, sep)[1..]
  {
    assert ([c] + t)[1..] == t;
  }

  lemma HeadJoin(c: char, r: seq<string>, q: seq<string>)
    requires r != []
    ensures [[c] + (r + q)[0]] + (r + q)[1..] == [[c] + r[0]] + r[1..] + q
    ensures [""] + (r + q) == [""] + r + q
  {
  }

  /** A separator cuts the text in two, whatever stands on either side. */
  lemma {:induction false} SplitJoin(a: string, b: string, sep: char)
    ensures Split(a + ([sep] + b), sep) == Split(a, sep) + Split(b, sep)
    decreases |a|
  {
    if a == "" {
      assert a + ([sep] + b) == [sep] + b;
      SplitStep(sep, b, sep);
    } else {
      var c, t := a[0], a[1..];
      SplitJoin(t, b, sep);
      assert a == [c] + t && a + ([sep] + b) == [c] + (t + ([sep] + b));
      hide Split;
      SplitStep(c, t, sep);
      SplitStep(c, t + ([sep] + b), sep);
      HeadJoin(c, Split(t, sep), Split(b, sep));
    }
  }

  /** `strings.TrimSuffix(s, "\n")` */
  function TrimNewline(s: string): string {
    if s != "" && s[|s| - 1] == '\n' then s[..|s| - 1] else s
  }

  // ---------- white space ----------

  /** Bytes of the white-space rune that starts `s`; 0 when there is none (`unicode.IsSpace` over UTF-8). */
  function SpaceWidth(s: string): (n: nat)
    ensures n <= |s|
  {
    if s == "" then 0
    else if 9 <= s[0] as int <= 13 || s[0] == ' ' then 1
    else if |s| >= 2 && s[0] as int == 0xC2 && (s[1] as int == 0x85 || s[1] as int == 0xA0) then 2
    else if |s| >= 3 && s[0] as int == 0xE1 && s[1] as int == 0x9A && s[2] as int == 0x80 then 3
    else if |s| >= 3 && s[0] as int == 0xE2 && s[1] as int == 0x80
            && (0x80 <= s[2] as int <= 0x8A || 0xA8 <= s[2] as int <= 0xA9 || s[2] as int == 0xAF) then 3
    else if |s| >= 3 && s[0] as int == 0xE2 && s[1] as int == 0x81 && s[2] as int == 0x9F then 3
    else if |s| >= 3 && s[0] as int == 0xE3 && s[1] as int == 0x80 && s[2] as int == 0x80 then 3
    else 0
  }

  /** `strings.TrimSpace(s) == ""` */
  predicate White(s: string)
    decreases |s|
  {
    s == "" || (SpaceWidth(s) > 0 && White(s[SpaceWidth(s)..]))
  }

  function TrimLeft(s: string): string
    decreases |s|
  {
    if SpaceWidth(s) > 0 then TrimLeft(s[SpaceWidth(s)..]) else s
  }

  function TrimRight(s: string): string { if White(s) then "" else [s[0]] + TrimRight(s[1..]) }

  /** `strings.TrimSpace` */
  function TrimSpace(s: string): string { TrimRight(TrimLeft(s)) }

  // ---------- runes ----------

  /** Bytes of the rune that starts `s`. */
  function RuneWidth(s: string): (n: nat)
    requires s != ""
    ensures 0 < n <= |s|
  {
    var c := s[0] as int;
    var n := if c < 0xC0 then 1 else if c < 0xE0 then 2 else if c < 0xF0 then 3 else 4;
    if n <= |s| then n else |s|
  }

  /** Every rune is complete. */
  predicate WholeRunes(s: string)
    decreases |s|
  {
    s == "" ||
    (var c := s[0] as int;
     (c < 0x80 || (0xC0 <= c < 0xE0 && |s| >= 2) || (0xE0 <= c < 0xF0 && |s| >= 3) || (0xF0 <= c < 0xF8 && |s| >= 4))
     && WholeRunes(s[RuneWidth(s)..]))
  }

  /** `len([]rune(s))` */
  function RuneCount(s: string): (n: nat)
    ensures n <= |s| && (s != "" ==> n > 0)
    decreases |s|
  {
    if s == "" then 0 else 1 + RuneCount(s[RuneWidth(s)..])
  }

  /** `string([]rune(s)[:n])` */
  function RunePrefix(s: string, n: nat): (p: string)
    requires n <= RuneCount(s)
    ensures p <= s
    decreases |s|
  {
    if n == 0 then "" else s[..RuneWidth(s)] + RunePrefix(s[RuneWidth(s)..], n - 1)
  }

  /** Cutting after `n` runes keeps exactly `n`, each of them whole; what is put behind them adds
      its own. */
  lemma {:induction false} RunesAdd(s: string, n: nat, tail: string)
    requires WholeRunes(s) && n <= RuneCount(s)
    ensures RuneCount(RunePrefix(s, n) + tail) == n + RuneCount(tail)
    ensures WholeRunes(tail) ==> WholeRunes(RunePrefix(s, n) + tail)
    decreases n
  {
    hide RunePrefix, WholeRunes, RuneCount, RuneWidth;
    if n == 0 {
      NoRunes(s, tail);
    } else {
      RuneRest(s, n);
      var w := RuneWidth(s);
      RunesAdd(s[w..], n - 1, tail);
      JoinAgain(s[..w], RunePrefix(s[w..], n - 1), tail);
      RuneFirst(s, RunePrefix(s[w..], n - 1) + tail);
    }
  }

  lemma NoRunes(s: string, tail: string)
    ensures RunePrefix(s, 0) + tail == tail
  {
  }

  lemma JoinAgain(a: string, b: string, c: string)
    ensures a + b + c == a + (b + c)
  {
  }

  lemma RuneRest(s: string, n: nat)
    requires WholeRunes(s) && 0 < n <= RuneCount(s)
    ensures s != ""
    ensures var t := s[RuneWidth(s)..];
            WholeRunes(t) && RuneCount(s) == 1 + RuneCount(t) &&
              RunePrefix(s, n) == s[..RuneWidth(s)] + RunePrefix(t, n - 1)
  {
  }

  /** A whole rune stays one rune whatever follows it. */
  lemma RuneFirst(s: string, more: string)
    requires s != "" && WholeRunes(s)
    ensures var p := s[..RuneWidth(s)] + more;
            RuneCount(p) == 1 + RuneCount(more) && (WholeRunes(more) ==> WholeRunes(p))
  {
    var w := RuneWidth(s);
    var p := s[..w] + more;
    assert p[0] == s[0] && RuneWidth(p) == w;
    assert p[w..] == more;
  }

  // ---------- reading line by line ----------

  /** The line has its line end. */
  predicate Ended(line: string) { line != "" && line[|line| - 1] == '\n' }

  /** No line end but the last character. */
  predicate OneLine(line: string) { line != "" && NoNewline(line[..|line| - 1]) }

  /** `ReadBytes('\n')`: a line with its newline, or what is left when there is none. */
  datatype Read = Read(line: string, rest: string, eof: bool)

  function ReadLine(s: string): (r: Read)
    ensures s == r.line + r.rest
    ensures s == "" <==> r.line == ""
    ensures r.line != "" ==> OneLine(r.line)
    ensures r.eof <==> !Ended(r.line)
    ensures r.eof ==> r.rest == ""
  {
    if s == "" then Read("", "", true)
    else if s[0] == '\n' then Read("\n", s[1..], false)
    else
      var r := ReadLine(s[1..]);
      assert r.line != "" ==> ([s[0]] + r.line)[..|r.line|] == [s[0]] + r.line[..|r.line| - 1];
      Read([s[0]] + r.line, r.rest, r.eof)
  }

  /** The text cut into lines, each with its newline; the last may lack one. */
  function LinesOf(s: string): seq<string>
    decreases |s|
  {
    if s == "" then [] else [ReadLine(s).line] + LinesOf(ReadLine(s).rest)
  }

  function Joined(lines: seq<string>): string { if lines == [] then "" else lines[0] + Joined(lines[1..]) }

  /** Every piece is one line; only the last may lack its line end. */
  predicate WellCut(ls: seq<string>) {
    ls == [] || (OneLine(ls[0]) && (|ls| > 1 ==> Ended(ls[0])) && WellCut(ls[1..]))
  }

  predicate AllEnded(ls: seq<string>) { ls == [] || (Ended(ls[0]) && AllEnded(ls[1..])) }

  /** Every line of the text is complete. */
  predicate Closed(text: string) { text == "" || Ended(text) }

  lemma {:induction false} LinesWellCut(s: string)
    ensures WellCut(LinesOf(s))
    decreases |s|
  {
    if s != "" {
      LinesWellCut(ReadLine(s).rest);
    }
  }

  lemma {:induction false} ReadOne(line: string, rest: string)
    requires OneLine(line) && (Ended(line) || rest == "")
    ensures ReadLine(line + rest).line == line && ReadLine(line + rest).rest == rest
    decreases |line|
  {
    var s := line + rest;
    assert s[0] == line[0] && s[1..] == line[1..] + rest;
    if |line| > 1 {
      assert line[1..][..|line| - 2] == line[..|line| - 1][1..];
      assert line[..|line| - 1][0] != '\n';
      ReadOne(line[1..], rest);
    } else if line[0] != '\n' {
      assert s[1..] == "";
    }
  }

  /** Lines put together again are read as the same lines. */
  lemma {:induction false} LinesJoined(ls: seq<string>)
    requires WellCut(ls)
    ensures LinesOf(Joined(ls)) == ls
    decreases |ls|
  {
    if ls != [] {
      LinesJoined(ls[1..]);
      if |ls| == 1 { assert Joined(ls[1..]) == ""; }
      ReadOne(ls[0], Joined(ls[1..]));
    }
  }

  lemma ClosedRest(text: string)
    requires text != "" && Closed(text)
    ensures var r := ReadLine(text); Closed(r.rest) && Ended(r.line)
  {
    var r := ReadLine(text);
    if r.rest == "" {
      assert r.line == text;
    } else {
      assert r.rest[|r.rest| - 1] == text[|text| - 1];
    }
  }

  lemma {:induction false} ClosedLines(text: string)
    requires Closed(text)
    ensures AllEnded(LinesOf(text))
    decreases |text|
  {
    if text != "" {
      ClosedRest(text);
      ClosedLines(ReadLine(text).rest);
    }
  }

  lemma {:induction false} ClosedJoin(ls: seq<string>)
    requires AllEnded(ls)
    ensures Closed(Joined(ls))
    decreases |ls|
  {
    if ls != [] { ClosedJoin(ls[1..]); }
  }

  /** A line put behind complete lines is one line more. */
  lemma {:induction false} LinesAppend(text: string, line: string)
    requires Closed(text) && OneLine(line)
    ensures LinesOf(text + line) == LinesOf(text) + [line]
    decreases |text|
  {
    hide ReadLine, OneLine, Ended, Closed;
    if text == "" {
      assert text + line == line == line + "";
      ReadOne(line, "");
      LinesHead(line);
    } else {
      var r := ReadLine(text);
      ClosedRest(text);
      ReadOne(r.line, r.rest + line);
      assert text + line == r.line + (r.rest + line);
      LinesAppend(r.rest, line);
      LinesHead(text);
      LinesHead(text + line);
      assert [r.line] + (LinesOf(r.rest) + [line]) == [r.line] + LinesOf(r.rest) + [line];
    }
  }

  lemma LinesHead(s: string)
    ensures LinesOf(s) == if s == "" then [] else [ReadLine(s).line] + LinesOf(ReadLine(s).rest)
    ensures LinesOf("") == [] && OneLine(s) ==> s != ""
  {
  }
}
