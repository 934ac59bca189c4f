/** The queue as a list: capturing adds one entry, dropping removes exactly the entries of one id. */
module ReviewsProofs {
  import opened Text
  import opened Json
  import opened JsonProofs
  import opened JsonText
  import opened Lines
  import opened Fields
  import opened Reviews

  lemma ReviewWellFormed(e: Review)
    ensures WellFormed(ReviewJson(e))
  {
    DecimalIsNumber(e.createdAt);
  }

  lemma {:induction false} StringsRoundTrip(xs: seq<string>)
    ensures StringsOf(Strings(xs)) == Some(xs)
    decreases |xs|
  {
    if xs != [] {
      assert Strings(xs)[0] == Str(xs[0]) && Strings(xs)[1..] == Strings(xs[1..]);
      assert [xs[0]] + xs[1..] == xs;
      StringsRoundTrip(xs[1..]);
    }
  }

  lemma LineEndIsBlank()
    ensures Blank("\n")
  {
  }

  /** The members left out when writing are the ones whose absence reads as empty. */
  lemma ReviewReads(e: Review)
    requires Int64(e.createdAt)
    ensures (MembersPresent(e); ReviewOf(Obj(Select(ReviewJson(e).fields, Members(e)))) == Some(e))
  {
    MembersPresent(e);
    hide Members, Strings, StringsOf, Decimal, Int64;
    var m := ReviewJson(e).fields;
    var s := Select(m, Members(e));
    MembersAre(e);
    StringsRoundTrip(e.reason);
    Selected(m, Members(e), "id");
    Selected(m, Members(e), "project");
    Selected(m, Members(e), "title");
    Selected(m, Members(e), "text");
    Selected(m, Members(e), "reason");
    Selected(m, Members(e), "created_at");
    hide Select;
    IntOfDecimal(s, "created_at", e.createdAt);
    assert StrOf(s, "text") == Some(e.text);
    assert ListOf(s, "reason") == Some(e.reason);
  }

  lemma Selected(m: map<string, Json>, ks: seq<string>, k: string)
    requires forall i :: 0 <= i < |ks| ==> ks[i] in m
    ensures k in Select(m, ks) <==> k in ks
    ensures k in ks ==> k in m && Select(m, ks)[k] == m[k]
  {
  }

  lemma MembersAre(e: Review)
    ensures var ks := Members(e);
            "id" in ks && "project" in ks && "title" in ks && "created_at" in ks
            && ("text" in ks <==> e.text != "") && ("reason" in ks <==> e.reason != [])
  {
    var ks := Members(e);
    assert ks[0] == "id" && ks[1] == "project" && ks[2] == "title" && ks[|ks| - 1] == "created_at";
    if e.text != "" { assert ks[3] == "text"; }
    if e.reason != [] { assert ks[|ks| - 2] == "reason"; }
  }

  /** A captured note is written as one line that reads back as that note. */
  lemma ReviewRoundTrip(e: Review)
    requires Int64(e.createdAt)
    ensures ParseReview(ReviewLine(e)) == Some(e)
    ensures ReviewLine(e) != "" && NoNewline(EncodeReview(e))
  {
    hide ParseValue, EncodeObject, ReviewJson, Members, White, ReviewOf, Select;
    MembersPresent(e);
    ReviewWellFormed(e);
    LayoutsAreBlank();
    LineEndIsBlank();
    JsonIsObject(e);
    ObjectRoundTrip(ReviewJson(e), Members(e), COMPACT, "\n");
    ReviewReads(e);
    PlainObject(ReviewJson(e), Members(e));
    StartsWithBrace(e);
    NotWhite(ReviewLine(e));
  }

  lemma JsonIsObject(e: Review)
    ensures ReviewJson(e).Obj?
  {
  }

  lemma StartsWithBrace(e: Review)
    ensures ReviewLine(e) != "" && ReviewLine(e)[0] == '{'
  {
    MembersPresent(e);
  }

  lemma NotWhite(s: string)
    requires s != "" && s[0] == '{'
    ensures !White(s)
  {
  }

  // ---------- capturing ----------

  lemma {:induction false} PendingJoin(a: seq<string>, b: seq<string>)
    ensures PendingOf(a + b) == PendingOf(a) + PendingOf(b)
    decreases |a|
  {
    hide ParseReview;
    if a == [] {
      assert a + b == b;
    } else {
      assert (a + b)[1..] == a[1..] + b;
      PendingJoin(a[1..], b);
    }
  }

  /** Capturing a note adds it at the end of the queue. */
  lemma CaptureAppends(text: string, e: Review)
    requires Closed(text) && Int64(e.createdAt)
    ensures Pending(text + ReviewLine(e)) == Pending(text) + [e] && Closed(text + ReviewLine(e))
  {
    hide EncodeReview, ParseReview, LinesOf;
    var line := ReviewLine(e);
    ReviewRoundTrip(e);
    assert line[..|line| - 1] == EncodeReview(e);
    LinesAppend(text, line);
    PendingJoin(LinesOf(text), [line]);
    assert PendingOf([line]) == [e] by { assert [line][1..] == []; assert [e] + [] == [e]; }
  }

  // ---------- dropping ----------

  lemma {:induction false} KeptPending(ls: seq<string>, id: string)
    ensures PendingOf(KeptLines(ls, id)) == Without(PendingOf(ls), id)
    ensures forall i :: 0 <= i < |KeptLines(ls, id)| ==> KeptLines(ls, id)[i] in ls
    decreases |ls|
  {
    if ls != [] {
      KeptPending(ls[1..], id);
      hide ParseReview, White;
      var tail := KeptLines(ls[1..], id);
      PendingStep(ls[0], tail);
      BlankIsNothing(ls[0]);
      var e := ParseReview(ls[0]);
      if e.Some? {
        assert ([e.value] + PendingOf(ls[1..]))[1..] == PendingOf(ls[1..]);
        assert [] + Without(PendingOf(ls[1..]), id) == Without(PendingOf(ls[1..]), id);
      } else {
        assert [] + PendingOf(ls[1..]) == PendingOf(ls[1..]);
        assert [] + PendingOf(tail) == PendingOf(tail);
      }
      assert [] + tail == tail;
    }
  }

  lemma BlankIsNothing(line: string)
    ensures White(line) ==> ParseReview(line) == None
  {
  }

  lemma {:induction false} KeptWellCut(ls: seq<string>, id: string)
    requires WellCut(ls)
    ensures WellCut(KeptLines(ls, id)) && (KeptLines(ls, id) != [] ==> ls != [])
    ensures AllEnded(ls) ==> AllEnded(KeptLines(ls, id))
    decreases |ls|
  {
    hide Kept, OneLine, Ended;
    if ls != [] {
      var tail := KeptLines(ls[1..], id);
      KeptWellCut(ls[1..], id);
      assert [] + tail == tail && ([ls[0]] + tail)[1..] == tail;
    }
  }

  /** A list of strings is read element by element, null as the empty string, and not at all when any is
      something else. */
  lemma {:induction false} StringsAre(es: seq<Json>)
    ensures StringsOf(es).Some? <==> forall i :: 0 <= i < |es| ==> es[i].Str? || es[i].Null?
    ensures StringsOf(es).Some? ==>
              |StringsOf(es).value| == |es|
              && forall i :: 0 <= i < |es| ==> StringsOf(es).value[i] == if es[i].Str? then es[i].s else ""
    decreases |es|
  {
    if es != [] {
      StringsAre(es[1..]);
      assert forall i :: 0 < i < |es| ==> es[i] == es[1..][i - 1];
    }
  }

  /** Entries are kept or left out one by one, by their ids alone. */
  lemma {:induction false} WithoutIs(a: seq<Review>, e: Review, b: seq<Review>, id: string)
    ensures Without(a + ([e] + b), id) == Without(a, id) + ((if e.id == id then [] else [e]) + Without(b, id))
    ensures Without([], id) == []
    decreases |a|
  {
    if a == [] {
      assert a + ([e] + b) == [e] + b && ([e] + b)[1..] == b;
      var tail := (if e.id == id then [] else [e]) + Without(b, id);
      assert [] + tail == tail;
    } else {
      assert (a + ([e] + b))[1..] == a[1..] + ([e] + b);
      WithoutIs(a[1..], e, b, id);
      var head := if a[0].id == id then [] else [a[0]];
      var tail := (if e.id == id then [] else [e]) + Without(b, id);
      assert head + (Without(a[1..], id) + tail) == head + Without(a[1..], id) + tail;
    }
  }

  /** The lines that stay: neither blank nor an entry with the id. */
  lemma {:induction false} KeptLinesAre(lines: seq<string>, id: string, line: string)
    ensures line in KeptLines(lines, id) <==>
              line in lines && !White(line) && forall e :: ParseReview(line) == Some(e) ==> e.id != id
    decreases |lines|
  {
    hide White, ParseReview;
    if lines != [] {
      KeptLinesAre(lines[1..], id, line);
      assert line in lines <==> line == lines[0] || line in lines[1..];
    }
  }

  /** Dropping an id removes its entries, all of them and no others, in order; lines that cannot be
      read stay as they are. */
  lemma DropIsExact(text: string, id: string)
    ensures var kept := Joined(KeptLines(LinesOf(text), id));
            && Pending(kept) == Without(Pending(text), id)
            && LinesOf(kept) == KeptLines(LinesOf(text), id)
            && FirstWith(Pending(kept), id) == None
            && (Closed(text) ==> Closed(kept))
  {
    hide LinesOf, KeptLines, ParseReview, White;
    var ls := LinesOf(text);
    LinesWellCut(text);
    KeptWellCut(ls, id);
    LinesJoined(KeptLines(ls, id));
    KeptPending(ls, id);
    NoneLeft(PendingOf(ls), id);
    if Closed(text) {
      ClosedLines(text);
      ClosedJoin(KeptLines(ls, id));
    }
  }

  lemma {:induction false} NoneLeft(es: seq<Review>, id: string)
    ensures FirstWith(Without(es, id), id) == None
    ensures forall e :: e in Without(es, id) <==> e in es && e.id != id
    decreases |es|
  {
    if es != [] {
      NoneLeft(es[1..], id);
      var tail := Without(es[1..], id);
      assert [] + tail == tail && ([es[0]] + tail)[1..] == tail;
    }
  }
}
