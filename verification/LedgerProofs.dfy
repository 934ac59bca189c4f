/** What a ledger keeps across appends, crashes and readers. */
module LedgerProofs {
  import opened Text
  import opened Json
  import opened JsonProofs
  import opened JsonText
  import opened Lines
  import opened Fields
  import opened Names
  import opened LedgerLog

  // ---------- one entry ----------

  lemma EntryWellFormed(e: Entry)
    ensures WellFormed(EntryJson(e)) && forall i :: 0 <= i < |MEMBERS| ==> MEMBERS[i] in EntryJson(e).fields
  {
    DecimalIsNumber(e.number);
  }

  /** The text of an entry reads back as that entry. */
  lemma EntryRoundTrip(e: Entry)
    requires Int64(e.number)
    ensures ParseEntry(EncodeEntry(e)) == Some(e)
  {
    hide Decode, EncodeEntry, EntryOf, EntryJson;
    EntryReads(e);
    EntryReadsBack(e);
  }

  lemma EntryReads(e: Entry)
    ensures Decode(EncodeEntry(e)) == Some(EntryJson(e))
  {
    hide ParseValue, EncodeObject, WellFormed, Decimal;
    var v := EntryJson(e);
    EntryWellFormed(e);
    LayoutsAreBlank();
    ObjectRoundTrip(v, MEMBERS, COMPACT, "");
    assert EncodeEntry(e) + "" == EncodeEntry(e);
    assert Select(v.fields, MEMBERS) == v.fields;
  }

  lemma EntryReadsBack(e: Entry)
    requires Int64(e.number)
    ensures EntryOf(EntryJson(e)) == Some(e)
  {
    hide Decimal;
    IntOfDecimal(EntryJson(e).fields, "seq", e.number);
  }

  /** A torn entry never reads as an entry, and the text of an entry is one line that is not blank. */
  lemma EntryText(e: Entry, n: nat)
    requires 0 < n <= |EncodeEntry(e)|
    ensures NoNewline(EncodeEntry(e)[..n]) && !White(EncodeEntry(e)[..n])
    ensures n < |EncodeEntry(e)| ==> ParseEntry(EncodeEntry(e)[..n]) == None
  {
    hide EncodeFields, Decode, ValidNumber;
    EntryWellFormed(e);
    LayoutsAreBlank();
    var v := EntryJson(e);
    PlainObject(v, MEMBERS);
    if n < |EncodeEntry(e)| { TornObjectUnreadable(v, MEMBERS, COMPACT, n); }
    var text := EncodeEntry(e);
    assert text[0] == '{';
    assert text[..n][0] == '{';
    forall i | 0 <= i < n ensures text[..n][i] != '\n' { assert text[i] >= ' '; }
  }

  // ---------- a log that can be appended to ----------

  predicate Good(line: string) { White(line) || ParseEntry(line).Some? }

  ghost predicate AllGood(lines: seq<string>) { forall i :: 0 <= i < |lines| ==> Good(lines[i]) }

  /** Every line is complete and readable. */
  ghost predicate Intact(raw: string) {
    raw == "" || (raw[|raw| - 1] == '\n' && AllGood(Split(TrimNewline(raw), '\n')))
  }

  lemma {:induction false} GoodLinesParse(ls: seq<string>, tail: seq<string>)
    requires AllGood(ls)
    ensures Parsed(ls).Some?
    ensures tail != [] ==> Parsed(ls + tail) == Prepended(Parsed(ls).value, Parsed(tail))
    decreases |ls|
  {
    hide Good, Parsed, White, ParseEntry;
    if ls == [] {
      assert ls + tail == tail;
      NoLines();
      PrependedEmpty([], Parsed(tail));
    } else {
      GoodLine(ls[0]);
      assert AllGood(ls[1..]);
      GoodLinesParse(ls[1..], tail);
      ParsedStep(ls);
      assert (ls + tail)[1..] == ls[1..] + tail;
      ParsedStep(ls + tail);
      if !White(ls[0]) {
        Regroup(ParseEntry(ls[0]).value, Parsed(ls[1..]).value, Parsed(tail));
      }
    }
  }

  lemma NoLines()
    ensures Parsed([]) == Some([])
  {
  }

  lemma GoodLine(line: string)
    requires Good(line)
    ensures White(line) || ParseEntry(line).Some?
  {
  }

  lemma Regroup(e: Entry, es: seq<Entry>, rest: Option<seq<Entry>>)
    ensures Prepended([e] + es, rest) == Prepended([e], Prepended(es, rest))
  {
    if rest.Some? { assert [e] + es + rest.value == [e] + (es + rest.value); }
  }

  lemma LastLine(x: string)
    ensures Parsed([x]) == if White(x) then Some([])
                           else match ParseEntry(x) case None => Some([]) case Some(e) => Some([e])
  {
    hide White, ParseEntry;
    assert [x][1..] == [];
    if ParseEntry(x).Some? { assert [ParseEntry(x).value] + [] == [ParseEntry(x).value]; }
  }

  lemma EmptyLog()
    ensures ReadLog("") == Some([])
  {
    SplitOne("", '\n');
    LastLine("");
  }

  /** Text after an intact log is read after it. */
  lemma ReadTail(raw: string, x: string)
    requires Intact(raw) && NoNewline(x) && x != ""
    ensures ReadLog(raw).Some?
    ensures Parsed([x]).Some?
    ensures ReadLog(raw + x) == Some(ReadLog(raw).value + Parsed([x]).value)
    ensures ReadLog(raw + (x + "\n")) == ReadLog(raw + x)
    ensures raw != "" ==> Split(TrimNewline(raw + (x + "\n")), '\n') == Split(TrimNewline(raw), '\n') + [x]
    ensures raw == "" ==> Split(TrimNewline(raw + (x + "\n")), '\n') == [x]
  {
    hide White, ParseEntry, Split, Parsed, AllGood;
    LastLine(x);
    SplitOne(x, '\n');
    assert TrimNewline(raw + (x + "\n")) == raw + x;
    assert (raw + x)[|raw + x| - 1] == x[|x| - 1] && TrimNewline(raw + x) == raw + x;
    if raw == "" {
      assert raw + x == x;
      EmptyLog();
      assert [] + Parsed([x]).value == Parsed([x]).value;
    } else {
      var body := TrimNewline(raw);
      assert raw + x == body + ("\n" + x);
      SplitJoin(body, x, '\n');
      GoodLinesParse(Split(body, '\n'), [x]);
    }
  }

  /** A crash after any number of bytes of one append to an intact log leaves the history as it
      was, or with the new entry at its end when all of the entry's text arrived; never an error. */
  lemma CrashSafe(raw: string, e: Entry, n: nat)
    requires Intact(raw) && Int64(e.number) && n <= |Line(e)|
    ensures ReadLog(raw).Some?
    ensures ReadLog(raw + Line(e)[..n]) == Some(ReadLog(raw).value + if n < |EncodeEntry(e)| then [] else [e])
  {
    hide ReadLog, EncodeEntry, Intact, ParseEntry, White;
    var text := EncodeEntry(e);
    EntryNotEmpty(e);
    if n == 0 {
      assert raw + Line(e)[..n] == raw;
      EntryText(e, |text|);
      assert text[..|text|] == text;
      ReadTail(raw, text);
      assert ReadLog(raw).value + [] == ReadLog(raw).value;
    } else {
      var m := if n <= |text| then n else |text|;
      EntryText(e, m);
      var x := text[..m];
      ReadTail(raw, x);
      LastLine(x);
      if n <= |text| {
        assert Line(e)[..n] == x;
      } else {
        assert Line(e)[..n] == x + "\n";
      }
      if m == |text| {
        assert x == text;
        EntryRoundTrip(e);
      }
    }
  }

  lemma EntryNotEmpty(e: Entry)
    ensures EncodeEntry(e) != ""
  {
  }

  /** A completed append leaves the log intact. */
  lemma AppendKeepsIntact(raw: string, e: Entry)
    requires Intact(raw) && Int64(e.number)
    ensures Intact(raw + Line(e))
  {
    hide EncodeEntry, ParseEntry, White, Split;
    var text := EncodeEntry(e);
    EntryNotEmpty(e);
    EntryText(e, |text|);
    assert text[..|text|] == text;
    EntryRoundTrip(e);
    ReadTail(raw, text);
    var lines := Split(TrimNewline(raw + Line(e)), '\n');
    forall i | 0 <= i < |lines| ensures Good(lines[i]) {
      if raw != "" && i < |lines| - 1 { assert lines[i] == Split(TrimNewline(raw), '\n')[i]; }
    }
  }

  // ---------- a damaged log ----------

  /** The entries of the lines that can be read, in order. */
  function Readable(lines: seq<string>): seq<Entry> {
    if lines == [] then []
    else
      match (White(lines[0]), ParseEntry(lines[0]))
      case (false, Some(e)) => [e] + Readable(lines[1..])
      case _ => Readable(lines[1..])
  }

  /** The line is neither blank nor an entry. */
  predicate Unreadable(line: string) { !White(line) && ParseEntry(line) == None }

  /** A line before the last one cannot be read. */
  ghost predicate Damaged(lines: seq<string>) { exists i :: 0 <= i < |lines| - 1 && Unreadable(lines[i]) }

  /** A log is refused exactly when a line before the last is damaged; otherwise it gives the entries of the
      lines that can be read, so that only a damaged last line is passed over. */
  lemma {:induction false} ReadingIsExact(lines: seq<string>)
    ensures Parsed(lines) == if Damaged(lines) then None else Some(Readable(lines))
    decreases |lines|
  {
    hide White, ParseEntry, Parsed;
    if lines == [] {
      NoLines();
    } else {
      var rest := lines[1..];
      ReadingIsExact(rest);
      ParsedStep(lines);
      DamagedStep(lines);
    }
  }

  lemma DamagedStep(lines: seq<string>)
    requires lines != []
    ensures Damaged(lines) <==> (|lines| > 1 && Unreadable(lines[0])) || Damaged(lines[1..])
    ensures |lines| == 1 ==> Readable(lines[1..]) == [] && !Damaged(lines[1..])
  {
    hide White, ParseEntry, Unreadable;
    var rest := lines[1..];
    if Damaged(rest) {
      var i :| 0 <= i < |rest| - 1 && Unreadable(rest[i]);
      assert lines[i + 1] == rest[i];
    }
    if Damaged(lines) {
      var i :| 0 <= i < |lines| - 1 && Unreadable(lines[i]);
      if i > 0 { assert rest[i - 1] == lines[i]; }
    }
  }

  /** A line that says `null` is an entry with nothing in it. */
  lemma NullEntry()
    ensures EntryOf(Null) == Some(Entry(0, "", "", ""))
  {
  }

  /** The five keys of the ledger. */
  lemma KeysAre(key: string)
    ensures ValidKey(key) <==>
              key == "goal" || key == "next" || key == "done" || key == "decisions" || key == "open_questions"
  {
  }

  /** Whatever the log holds: an append is refused, and writes nothing, exactly for a bad project name, else a
      bad key, else a blank value, else a damaged log; otherwise the bytes that reached the file are a
      beginning of the new entry's line. */
  lemma AppendIsExact(files: map<string, string>, project: string, key: string, value: string, ts: string,
                      fault: Option<nat>)
    ensures var (after, o) := AppendSpec(files, project, key, value, ts, fault);
            var p := ValidProject(project);
            && (o == BadProject <==> p == None)
            && (o == BadKey <==> p.Some? && key !in KEYS)
            && (o == EmptyValue <==> p.Some? && key in KEYS && White(value))
            && (o == Outcome.Unreadable <==> p.Some? && key in KEYS && !White(value) && History(files, p.value) == None)
            && (o.Appended? || o.WriteFailed? ==>
                  && History(files, p.value).Some? && (o.WriteFailed? <==> fault.Some?)
                  && var line := Line(NextEntry(files, p.value, key, value, ts));
                     var n := if fault.Some? && fault.value < |line| then fault.value else |line|;
                     after == files[p.value := (if p.value in files then files[p.value] else "") + line[..n]])
            && (!o.Appended? && !o.WriteFailed? ==> after == files)
  {
    hide White, ReadLog, Line, ValidProject;
    if ValidProject(project).Some? && History(files, ValidProject(project).value).Some? {
      var line := Line(NextEntry(files, ValidProject(project).value, key, value, ts));
      assert line[..|line|] == line;
    }
  }

  /** The history of a project, in terms of its lines. */
  lemma HistoryIsExact(files: map<string, string>, p: string)
    requires p in files
    ensures var lines := Split(TrimNewline(files[p]), '\n');
            History(files, p) == if Damaged(lines) then None else Some(Readable(lines))
  {
    hide Split, Parsed, White, ParseEntry, TrimNewline, Damaged, Readable;
    ReadingIsExact(Split(TrimNewline(files[p]), '\n'));
  }

  // ---------- appends by project ----------

  ghost predicate AllIntact(files: map<string, string>) { forall p :: p in files ==> Intact(files[p]) }

  lemma IntactReads(files: map<string, string>, p: string)
    requires AllIntact(files)
    ensures History(files, p).Some?
  {
    hide Split, Parsed, White, ParseEntry;
    if p in files && files[p] != "" {
      GoodLinesParse(Split(TrimNewline(files[p]), '\n'), []);
    } else {
      EmptyLog();
    }
  }

  /** The entry an append makes. */
  function NextEntry(files: map<string, string>, p: string, key: string, value: string, ts: string): Entry
    requires History(files, p).Some?
  {
    Entry(Wrap64(LastSeq(History(files, p).value) + 1), ts, key, value)
  }

  /** What an append may do to intact files: it is refused exactly for a bad name, a bad key or a blank
      value, and then nothing changes; otherwise its project's history is the old one, or the old one and
      the new entry, the latter when it completed, and every other project is untouched. */
  ghost predicate SafeAppend(files: map<string, string>, project: string, key: string, value: string, ts: string,
                             after: map<string, string>, o: Outcome)
  {
    && (o.Appended? || o.WriteFailed? <==> ValidProject(project).Some? && ValidKey(key) && !White(value))
    && (!o.Appended? && !o.WriteFailed? ==> after == files && !o.Unreadable?)
    && (o.Appended? ==> AllIntact(after))
    && (forall q :: Some(q) != ValidProject(project) ==> History(after, q) == History(files, q))
    && (o.Appended? || o.WriteFailed? ==>
          var p := ValidProject(project).value;
          && History(files, p).Some?
          && (History(after, p) == History(files, p)
              || History(after, p) == Some(History(files, p).value + [NextEntry(files, p, key, value, ts)]))
          && (o.Appended? ==> o.entry == NextEntry(files, p, key, value, ts)
                              && History(after, p) == Some(History(files, p).value + [o.entry])))
  }

  /** One append to intact files, completed or torn at any byte: the history of its project is the
      old one or the old one and the new entry; every other project is untouched; a rejected
      append writes nothing; a completed one leaves everything intact. */
  lemma AppendIsSafe(files: map<string, string>, project: string, key: string, value: string, ts: string,
                     fault: Option<nat>)
    requires AllIntact(files)
    ensures var (after, o) := AppendSpec(files, project, key, value, ts, fault);
            SafeAppend(files, project, key, value, ts, after, o)
  {
    hide ReadLog, Line, White, Intact, ValidProject;
    if ValidProject(project).Some? && ValidKey(key) && !White(value) {
      var p := ValidProject(project).value;
      IntactReads(files, p);
      var e := NextEntry(files, p, key, value, ts);
      var raw := if p in files then files[p] else "";
      EmptyIsIntact();
      EmptyLog();
      var n := if fault.Some? && fault.value <= |Line(e)| then fault.value else |Line(e)|;
      assert Line(e)[..|Line(e)|] == Line(e);
      CrashSafe(raw, e, n);
      LineLength(e);
      assert ReadLog(raw).value + [] == ReadLog(raw).value;
      AppendKeepsIntact(raw, e);
    }
  }

  lemma EmptyIsIntact()
    ensures Intact("")
  {
  }

  lemma LineLength(e: Entry)
    ensures |Line(e)| == |EncodeEntry(e)| + 1
  {
  }

  // ---------- a single writer ----------

  datatype Write = Write(key: string, value: string, ts: string)

  function Writes(files: map<string, string>, project: string, ws: seq<Write>): map<string, string> {
    if ws == [] then files
    else
      var w := ws[|ws| - 1];
      AppendSpec(Writes(files, project, ws[..|ws| - 1]), project, w.key, w.value, w.ts, None).0
  }

  ghost predicate Numbered(es: seq<Entry>, ws: seq<Write>) {
    |es| == |ws| && forall i :: 0 <= i < |es| ==> es[i] == Entry(i + 1, ws[i].ts, ws[i].key, ws[i].value)
  }

  /** A single writer's entries are numbered 1 to n, in order, and hold exactly what was written. */
  lemma {:induction false} SingleWriter(files: map<string, string>, project: string, p: string, ws: seq<Write>)
    requires AllIntact(files) && ValidProject(project) == Some(p) && p !in files && |ws| < TWO63
    requires forall i :: 0 <= i < |ws| ==> ValidKey(ws[i].key) && !White(ws[i].value)
    ensures AllIntact(Writes(files, project, ws))
    ensures History(Writes(files, project, ws), p).Some? && Numbered(History(Writes(files, project, ws), p).value, ws)
    decreases |ws|
  {
    hide AppendSpec, White, ValidProject, Intact, ReadLog;
    if ws != [] {
      var w := ws[|ws| - 1];
      SingleWriter(files, project, p, ws[..|ws| - 1]);
      var before := Writes(files, project, ws[..|ws| - 1]);
      AppendIsSafe(before, project, w.key, w.value, w.ts, None);
      NoFault(before, project, w.key, w.value, w.ts);
    }
  }

  lemma NoFault(files: map<string, string>, project: string, key: string, value: string, ts: string)
    ensures !AppendSpec(files, project, key, value, ts, None).1.WriteFailed?
  {
  }

  // ---------- reading the latest ----------

  ghost predicate IsLast(es: seq<Entry>, k: string, i: int) {
    0 <= i < |es| && es[i].key == k && forall j :: i < j < |es| ==> es[j].key != k
  }

  /** `Get` has a key exactly when some entry has it, and then returns the last such entry. */
  lemma {:induction false} FoldIsLast(es: seq<Entry>, k: string) returns (i: int)
    ensures k in Fold(es) <==> exists j :: 0 <= j < |es| && es[j].key == k
    ensures k in Fold(es) ==> IsLast(es, k, i) && Fold(es)[k] == es[i]
    decreases |es|
  {
    i := |es| - 1;
    if es != [] && es[i].key != k {
      var init := es[..|es| - 1];
      i := FoldIsLast(init, k);
      forall j | 0 <= j < |init| ensures init[j] == es[j] {}
      if exists j :: 0 <= j < |es| && es[j].key == k {
        var j :| 0 <= j < |es| && es[j].key == k;
        assert init[j].key == k;
      }
    }
  }

  /** The last entry of every key, its value capped, and nothing else. */
  ghost predicate LatestCapped(es: seq<Entry>, max: int, m: map<string, Entry>) {
    && (forall k :: k in m <==> exists i :: IsLast(es, k, i))
    && (forall k, i :: IsLast(es, k, i) && k in m ==> m[k] == es[i].(value := CapValue(es[i].value, max)))
  }

  lemma CappedIsLatest(es: seq<Entry>, max: int)
    ensures LatestCapped(es, max, Capped(Fold(es), max))
  {
    hide Fold, IsLast, CapValue;
    LastEntries(es);
  }

  lemma NothingFolded()
    ensures Fold([]) == map[]
  {
  }

  lemma FoldStep(es: seq<Entry>, i: nat)
    requires i < |es|
    ensures Fold(es[..i + 1]) == Fold(es[..i])[es[i].key := es[i]]
  {
    assert es[..i + 1][..i] == es[..i];
  }

  lemma LastEntries(es: seq<Entry>)
    ensures forall k :: k in Fold(es) <==> exists i :: IsLast(es, k, i)
    ensures forall k, i :: IsLast(es, k, i) ==> k in Fold(es) && Fold(es)[k] == es[i]
  {
    hide Fold;
    forall k, i | IsLast(es, k, i) ensures k in Fold(es) && Fold(es)[k] == es[i] {
      var j := FoldIsLast(es, k);
    }
    forall k | k in Fold(es) ensures exists i :: IsLast(es, k, i) { var j := FoldIsLast(es, k); }
  }

  /** A value that fits is returned whole; a longer one is cut between runes to exactly the cap,
      marker included. */
  lemma CapIsExact(v: string, max: int)
    requires WholeRunes(v)
    ensures max <= 0 || RuneCount(v) <= max ==> CapValue(v, max) == v
    ensures 0 < max < RuneCount(v) ==> RuneCount(CapValue(v, max)) == max && WholeRunes(CapValue(v, max))
    ensures |MARKER| < max < RuneCount(v) ==>
              CapValue(v, max) == RunePrefix(v, max - |MARKER|) + MARKER
  {
    hide RuneCount, RunePrefix, WholeRunes;
    if 0 < max < RuneCount(v) {
      if max <= |MARKER| {
        RunesAdd(v, max, "");
        AsciiRunes("");
        assert RunePrefix(v, max) + "" == RunePrefix(v, max);
      } else {
        MarkerRunes();
        RunesAdd(v, max - |MARKER|, MARKER);
      }
    }
  }

  lemma {:induction false} AsciiRunes(s: string)
    requires forall i :: 0 <= i < |s| ==> s[i] as int < 0x80
    ensures RuneCount(s) == |s| && WholeRunes(s)
  {
    if s != "" { AsciiRunes(s[1..]); }
  }

  lemma MarkerRunes()
    ensures RuneCount(MARKER) == |MARKER| && WholeRunes(MARKER)
  {
    hide RuneCount, WholeRunes;
    AsciiRunes(MARKER);
  }
}
