/** The printer and the reader are inverse, printed text is one line, and no
    strict prefix of a printed object can be read. */
module JsonProofs {
  import opened Text
  import opened Json

  // ---------- strings ----------

  lemma LetterReads(e: char, c: char, tail: string)
    requires e != 'u' && SimpleEscape(e) == Some(c)
    ensures ParseChars(['\\', e] + tail) == Prefixed([c], ParseChars(tail))
  {
    assert (['\\', e] + tail)[2..] == tail;
  }

  lemma ByteReads(c: char, tail: string)
    requires c >= ' ' && c != '\"' && c != '\\'
    ensures ParseChars([c] + tail) == Prefixed([c], ParseChars(tail))
  {
    assert ([c] + tail)[1..] == tail;
  }

  lemma HexReads(s: string, text: string, tail: string)
    requires |s| >= 6 && s[0] == '\\' && s[1] == 'u' && s[6..] == tail && UnicodeEscape(s) == Some((text, 6))
    ensures ParseChars(s) == Prefixed(text, ParseChars(tail))
  {
    hide UnicodeEscape;
  }

  lemma CodeReads(s: string, a: nat, b: nat, c: nat, d: nat)
    requires |s| >= 6 && s[0] == '\\' && s[1] == 'u'
    requires HexValue(s[2]) == Some(a) && HexValue(s[3]) == Some(b) && HexValue(s[4]) == Some(c)
    requires HexValue(s[5]) == Some(d)
    requires 4096 * a + 256 * b + 16 * c + d < 0xD800
    ensures UnicodeEscape(s) == Some((Utf8(4096 * a + 256 * b + 16 * c + d), 6))
  {
    hide HexValue, Utf8;
  }

  lemma EscapeByteReads(c: char, tail: string)
    ensures ParseChars(EscapeByte(c) + tail) == Prefixed([c], ParseChars(tail))
  {
    hide ParseChars, UnicodeEscape;
    var e := EscapeByte(c);
    if |e| == 1 {
      ByteReads(c, tail);
    } else if |e| == 2 {
      assert e == ['\\', e[1]];
      LetterReads(e[1], c, tail);
    } else {
      var s := e + tail;
      assert s[6..] == tail;
      CodeReads(s, 0, 0, c as int / 16, c as int % 16);
      HexReads(s, [c], tail);
    }
  }

  lemma SeparatorReads(x: string, tail: string)
    requires LineSeparator(x)
    ensures ParseChars("\\u202" + [HexDigit(x[2] as int - 0xA0)] + tail) == Prefixed(x[..3], ParseChars(tail))
  {
    var d := x[2] as int - 0xA0;
    var s := "\\u202" + [HexDigit(d)] + tail;
    assert s[6..] == tail;
    hide ParseChars, UnicodeEscape;
    assert Utf8(0x2020 + d) == [Byte(0xE2), Byte(0x80), Byte(0xA0 + d)] == x[..3];
    CodeReads(s, 2, 0, 2, d);
    HexReads(s, x[..3], tail);
  }

  lemma Cat3(a: string, b: string, c: string)
    ensures a + b + c == a + (b + c)
  {
  }

  /** A printed string reads back as itself, whatever bytes it holds. */
  lemma {:induction false} StringRoundTrip(x: string, rest: string)
    ensures ParseChars(Escape(x) + ("\"" + rest)) == Done(x, rest)
    decreases |x|
  {
    if x == "" {
      assert Escape(x) + ("\"" + rest) == "\"" + rest;
      assert ("\"" + rest)[1..] == rest;
    } else {
      hide ParseChars;
      var n := if LineSeparator(x) then 3 else 1;
      var tail := Escape(x[n..]) + ("\"" + rest);
      StringRoundTrip(x[n..], rest);
      if LineSeparator(x) {
        SeparatorReads(x, tail);
        Cat3("\\u202" + [HexDigit(x[2] as int - 0xA0)], Escape(x[3..]), "\"" + rest);
      } else {
        EscapeByteReads(x[0], tail);
        Cat3(EscapeByte(x[0]), Escape(x[1..]), "\"" + rest);
        assert x[..1] == [x[0]];
      }
      assert x == x[..n] + x[n..];
    }
  }

  // ---------- numbers ----------

  predicate NumChars(s: string) { forall i :: 0 <= i < |s| ==> NumChar(s[i]) }

  lemma NumCharsJoin(s: string, n: nat)
    requires n <= |s| && NumChars(s[..n]) && NumChars(s[n..])
    ensures NumChars(s)
  {
    forall i | 0 <= i < |s| ensures NumChar(s[i]) {
      if i < n { assert s[i] == s[..n][i]; } else { assert s[i] == s[n..][i - n]; }
    }
  }

  lemma ValidNumberChars(lit: string)
    requires ValidNumber(lit)
    ensures lit != "" && (lit[0] == '-' || IsDigit(lit[0])) && NumChars(lit)
  {
    var a := Unsigned(lit);
    var n := DigitRun(a);
    assert a[0] == a[..n][0];
    FractionChars(a[n..]);
    hide ValidFraction, DigitRun;
    NumCharsJoin(a, n);
    NumCharsJoin(lit, |lit| - |a|);
  }

  lemma FractionChars(s: string)
    requires ValidFraction(s)
    ensures NumChars(s)
  {
    if s != "" && s[0] == '.' {
      var n := DigitRun(s[1..]);
      ExponentChars(s[1 + n..]);
      hide ValidFraction, ValidExponent;
      assert s[..1 + n] == "." + s[1..][..n];
      NumCharsJoin(s, 1 + n);
    } else {
      ExponentChars(s);
    }
  }

  lemma ExponentChars(s: string)
    requires ValidExponent(s)
    ensures NumChars(s)
  {
    if s != "" {
      NumCharsJoin(s, if |s| > 1 && s[1] in "+-" then 2 else 1);
    }
  }

  lemma {:induction false} DigitRunAll(s: string)
    requires Digits(s)
    ensures DigitRun(s) == |s|
  {
    if s != "" { DigitRunAll(s[1..]); }
  }

  lemma DecimalIsNumber(n: int)
    ensures ValidNumber(Decimal(n))
  {
    var m: nat := if n < 0 then -n else n;
    var a := Natural(m);
    assert Unsigned(Decimal(n)) == a by { assert IsDigit(a[0]); }
    DigitRunAll(a);
    assert a[|a|..] == "";
  }

  lemma {:induction false} NumRunExact(lit: string, rest: string)
    requires NumChars(lit)
    requires rest == "" || !NumChar(rest[0])
    ensures NumRun(lit + rest) == |lit|
  {
    if lit == "" {
      assert lit + rest == rest;
    } else {
      NumRunExact(lit[1..], rest);
      assert (lit + rest)[1..] == lit[1..] + rest;
    }
  }

  // ---------- documents ----------

  /** What may follow a printed value without changing how it is read. */
  predicate Ends(v: Json, rest: string) {
    v.Num? ==> rest == "" || !NumChar(rest[0])
  }

  lemma {:induction false} SkipBlank(w: string, s: string)
    requires Blank(w)
    requires s == "" || !JsonSpace(s[0])
    ensures SkipSpace(w + s) == s
  {
    if w == "" {
      assert w + s == s;
    } else {
      SkipBlank(w[1..], s);
      assert (w + s)[1..] == w[1..] + s;
    }
  }

  lemma EncodeStart(v: Json)
    requires WellFormed(v)
    ensures Encode(v) != "" && !JsonSpace(Encode(v)[0]) && Encode(v)[0] != ']'
  {
    if v.Num? { ValidNumberChars(v.lit); }
  }

  ghost predicate BlankLayout(lay: Layout) {
    Blank(lay.open) && Blank(lay.colon) && Blank(lay.close)
  }

  function Select(m: map<string, Json>, ks: seq<string>): map<string, Json>
    requires forall i :: 0 <= i < |ks| ==> ks[i] in m
  {
    map k | k in ks && k in m :: m[k]
  }

  lemma SkipSpaceIdempotent(s: string)
    requires s != "" && !JsonSpace(s[0])
    ensures SkipSpace(s) == s
  {
  }

  lemma ParseAfterBlank(w: string, s: string)
    requires Blank(w) && s != "" && !JsonSpace(s[0])
    ensures ParseValue(w + s) == ParseValue(s)
  {
    SkipBlank(w, s);
    SkipSpaceIdempotent(s);
  }

  // One step of the reader on each shape of text.

  lemma ReadString(x: string, rest: string)
    ensures ParseValue(Quote(x) + rest) == Done(Str(x), rest)
  {
    hide ParseChars, Escape, SkipSpace;
    var s := Quote(x) + rest;
    StringRoundTrip(x, rest);
    QuoteText(x, rest);
    SkipSpaceIdempotent(s);
  }

  lemma QuoteText(x: string, rest: string)
    ensures var s := Quote(x) + rest; s != "" && s[0] == '\"' && s[1..] == Escape(x) + ("\"" + rest)
  {
    hide Escape;
  }

  lemma ReadNumber(lit: string, rest: string)
    requires ValidNumber(lit) && (rest == "" || !NumChar(rest[0]))
    ensures ParseValue(lit + rest) == Done(Num(lit), rest)
  {
    hide ValidNumber, NumRun, SkipSpace;
    var s := lit + rest;
    ValidNumberChars(lit);
    NumRunExact(lit, rest);
    assert s[..|lit|] == lit && s[|lit|..] == rest;
    SkipSpaceIdempotent(s);
  }

  lemma ReadArray(body: string, es: seq<Json>, rest: string)
    requires body != "" && !JsonSpace(body[0]) && body[0] != ']'
    requires ParseElems(body, []) == Done(es, rest)
    ensures ParseValue("[" + body) == Done(Arr(es), rest)
  {
    var s := "[" + body;
    assert s[1..] == body;
    SkipSpaceIdempotent(s);
    SkipSpaceIdempotent(body);
    hide ParseElems;
  }

  lemma ReadElem(s: string, acc: seq<Json>, v: Json, sep: char, rest: string)
    requires forall i :: 0 <= i < |acc| ==> WellFormed(acc[i])
    requires ParseValue(s) == Done(v, [sep] + rest)
    ensures sep == ']' ==> ParseElems(s, acc) == Done(acc + [v], rest)
    ensures sep == ',' ==> ParseElems(s, acc) == ParseElems(rest, acc + [v])
  {
    var u := [sep] + rest;
    assert u[1..] == rest;
    if !JsonSpace(sep) { SkipSpaceIdempotent(u); }
    hide ParseValue;
  }

  lemma ReadObject(body: string, m: map<string, Json>, rest: string)
    requires body != "" && SkipSpace(body) != "" && SkipSpace(body)[0] == '\"'
    requires ParseMembers(body, map[]) == Done(m, rest)
    ensures ParseValue("{" + body) == Done(Obj(m), rest)
  {
    var s := "{" + body;
    assert s[1..] == body;
    SkipSpaceIdempotent(s);
    SkipSpaceIdempotent(SkipSpace(body));
    assert ParseMembers(SkipSpace(body), map[]) == ParseMembers(body, map[]);
  }

  /** A member whose key is preceded by `open` and whose value is followed by `close` and a separator. */
  lemma ReadMember(open: string, k: string, s: string, acc: map<string, Json>, v: Json, close: string, sep: char,
                   rest: string)
    requires Blank(open) && Blank(close) && !JsonSpace(sep)
    requires forall x :: x in acc ==> WellFormed(acc[x])
    requires ParseValue(s) == Done(v, close + ([sep] + rest))
    ensures var text := open + (Quote(k) + (":" + s));
            && (sep == '}' ==> ParseMembers(text, acc) == Done(acc[k := v], rest))
            && (sep == ',' ==> ParseMembers(text, acc) == ParseMembers(rest, acc[k := v]))
  {
    hide ParseChars, Escape, ParseValue, SkipSpace, Quote, ParseMembers, Blank;
    var afterKey := ":" + s;
    var quoted := Quote(k) + afterKey;
    QuoteText(k, afterKey);
    SkipBlank(open, quoted);
    StringRoundTrip(k, afterKey);
    SkipSpaceIdempotent(afterKey);
    assert afterKey[1..] == s;
    SkipBlank(close, [sep] + rest);
    assert ([sep] + rest)[1..] == rest;
    MembersUnfold(open + quoted, acc, k, afterKey, v, close + ([sep] + rest));
  }

  /** Reading what was printed gives the document back, and leaves the rest alone. */
  lemma {:induction false} RoundTrip(v: Json, rest: string)
    requires WellFormed(v) && Ends(v, rest)
    ensures ParseValue(Encode(v) + rest) == Done(v, rest)
    decreases v
  {
    hide ParseValue, ParseElems, ValidNumber, EncodeFields, Quote, EncodeObject, Select, SortedKeys;
    match v
    case Null => ReadWord("null", v, rest);
    case Bool(b) => ReadWord(Encode(v), v, rest);
    case Num(lit) => ReadNumber(lit, rest);
    case Str(x) => ReadString(x, rest);
    case Arr(es) =>
      if es == [] {
        assert Encode(v) == "[]";
        ReadEmpty("[]", v, rest);
      } else {
        hide EncodeElems;
        var body := EncodeElems(es) + ("]" + rest);
        ElemsStart(es);
        ElemsRoundTrip(es, [], rest);
        assert [] + es == es;
        ReadArray(body, es, rest);
        Cat3("[" + EncodeElems(es), "]", rest);
        Cat3("[", EncodeElems(es), "]" + rest);
      }
    case Obj(m) =>
      ObjectRoundTrip(v, SortedKeys(m.Keys), COMPACT, rest);
      SelectAll(m);
  }

  lemma ReadWord(word: string, v: Json, rest: string)
    requires (v.Null? || v.Bool?) && word == Encode(v)
    ensures ParseValue(word + rest) == Done(v, rest)
  {
    var s := word + rest;
    assert s[|word|..] == rest;
    SkipSpaceIdempotent(s);
  }

  lemma ReadEmpty(word: string, v: Json, rest: string)
    requires (word == "[]" && v == Arr([])) || (word == "{}" && v == Obj(map[]))
    ensures ParseValue(word + rest) == Done(v, rest)
  {
    var s := word + rest;
    SkipSpaceIdempotent(s);
    SkipSpaceIdempotent(s[1..]);
    assert s[1..][1..] == rest;
  }

  lemma ElemsStart(es: seq<Json>)
    requires es != [] && WellFormed(es[0])
    ensures EncodeElems(es) != "" && !JsonSpace(EncodeElems(es)[0]) && EncodeElems(es)[0] != ']'
  {
    EncodeStart(es[0]);
  }

  lemma {:induction false} ElemsRoundTrip(es: seq<Json>, acc: seq<Json>, rest: string)
    requires es != []
    requires forall i :: 0 <= i < |es| ==> WellFormed(es[i])
    requires forall i :: 0 <= i < |acc| ==> WellFormed(acc[i])
    ensures ParseElems(EncodeElems(es) + ("]" + rest), acc) == Done(acc + es, rest)
    decreases es
  {
    hide ParseElems, ParseValue;
    if |es| == 1 {
      RoundTrip(es[0], "]" + rest);
      ReadElem(Encode(es[0]) + ("]" + rest), acc, es[0], ']', rest);
      assert es == [es[0]];
    } else {
      var tail := EncodeElems(es[1..]) + ("]" + rest);
      RoundTrip(es[0], "," + tail);
      ReadElem(Encode(es[0]) + ("," + tail), acc, es[0], ',', tail);
      ElemsRoundTrip(es[1..], acc + [es[0]], rest);
      Cat4(Encode(es[0]), ",", EncodeElems(es[1..]), "]" + rest);
      assert acc + [es[0]] + es[1..] == acc + es;
    }
  }

  lemma Cat4(a: string, b: string, c: string, d: string)
    ensures a + b + c + d == a + (b + (c + d))
  {
  }

  /** An object printed with its members in any order and any layout reads back as those members. */
  lemma {:induction false} ObjectRoundTrip(v: Json, ks: seq<string>, lay: Layout, rest: string)
    requires v.Obj? && (forall i :: 0 <= i < |ks| ==> ks[i] in v.fields)
    requires WellFormed(v) && BlankLayout(lay)
    ensures ParseValue(EncodeObject(v, ks, lay) + rest) == Done(Obj(Select(v.fields, ks)), rest)
    decreases v, |ks| + 1
  {
    if ks == [] {
      ReadEmpty("{}", Obj(map[]), rest);
      assert Select(v.fields, ks) == map[];
    } else {
      hide ParseMembers, ParseValue, EncodeFields, Select;
      var body := EncodeFields(v, ks, lay) + (lay.close + ("}" + rest));
      FieldsStart(v, ks, lay, lay.close + ("}" + rest));
      FieldsRoundTrip(v, ks, lay, map[], rest);
      assert map[] + Select(v.fields, ks) == Select(v.fields, ks);
      ReadObject(body, Select(v.fields, ks), rest);
      Cat4("{", EncodeFields(v, ks, lay), lay.close, "}" + rest);
      Cat3("{" + EncodeFields(v, ks, lay) + lay.close, "}", rest);
    }
  }

  lemma FieldsStart(v: Json, ks: seq<string>, lay: Layout, after: string)
    requires v.Obj? && ks != [] && (forall i :: 0 <= i < |ks| ==> ks[i] in v.fields)
    requires BlankLayout(lay)
    ensures var body := SkipSpace(EncodeFields(v, ks, lay) + after);
            body != "" && body[0] == '\"'
  {
    var fields := EncodeFields(v, ks, lay);
    var text := fields + after;
    assert lay.open <= text && text[|lay.open|] == '\"' by {
      assert fields[..|lay.open|] == lay.open && fields[|lay.open|] == '\"';
    }
    assert text == lay.open + text[|lay.open|..];
    SkipBlank(lay.open, text[|lay.open|..]);
  }

  lemma SelectAll(m: map<string, Json>)
    ensures Select(m, SortedKeys(m.Keys)) == m
  {
    hide SortedKeys;
  }

  lemma SelectStep(m: map<string, Json>, ks: seq<string>, acc: map<string, Json>)
    requires ks != [] && forall i :: 0 <= i < |ks| ==> ks[i] in m
    ensures acc[ks[0] := m[ks[0]]] + Select(m, ks[1..]) == acc + Select(m, ks)
    ensures Select(m, []) == map[]
  {
  }

  lemma {:induction false} FieldsRoundTrip(v: Json, ks: seq<string>, lay: Layout, acc: map<string, Json>, rest: string)
    requires v.Obj? && ks != [] && (forall i :: 0 <= i < |ks| ==> ks[i] in v.fields)
    requires WellFormed(v) && BlankLayout(lay)
    requires forall k :: k in acc ==> WellFormed(acc[k])
    ensures ParseMembers(EncodeFields(v, ks, lay) + (lay.close + ("}" + rest)), acc)
         == Done(acc + Select(v.fields, ks), rest)
    decreases v, |ks|
  {
    hide ParseMembers, ParseValue, Quote, Encode, EncodeFields, Blank, Select;
    var k, x := ks[0], v.fields[ks[0]];
    var end := lay.close + ("}" + rest);
    var after := AfterMember(v, ks, lay, end);
    EndsAfterMember(v, ks, lay, rest);
    RoundTrip(x, after);
    EncodeStart(x);
    ParseAfterBlank(lay.colon, Encode(x) + after);
    FieldsText(v, ks, lay, end);
    var text := lay.colon + (Encode(x) + after);
    if |ks| == 1 {
      ReadMember(lay.open, k, text, acc, x, lay.close, '}', rest);
      SelectStep(v.fields, ks, acc);
      assert ks[1..] == [] && acc[k := x] + map[] == acc[k := x];
    } else {
      var tail := EncodeFields(v, ks[1..], lay) + end;
      assert "" + after == after == [','] + tail;
      BlankEmpty();
      ReadMember(lay.open, k, text, acc, x, "", ',', tail);
      FieldsRoundTrip(v, ks[1..], lay, acc[k := x], rest);
      SelectStep(v.fields, ks, acc);
    }
  }

  lemma BlankEmpty()
    ensures Blank("")
  {
  }

  /** Both layouts put nothing but white space between the tokens. */
  lemma LayoutsAreBlank()
    ensures BlankLayout(COMPACT) && BlankLayout(INDENTED)
  {
  }

  /** What follows the value of the first member. */
  function AfterMember(v: Json, ks: seq<string>, lay: Layout, end: string): string
    requires v.Obj? && ks != [] && (forall i :: 0 <= i < |ks| ==> ks[i] in v.fields)
  {
    if |ks| == 1 then end else "," + (EncodeFields(v, ks[1..], lay) + end)
  }

  lemma FieldsText(v: Json, ks: seq<string>, lay: Layout, end: string)
    requires v.Obj? && ks != [] && (forall i :: 0 <= i < |ks| ==> ks[i] in v.fields)
    ensures EncodeFields(v, ks, lay) + end
         == lay.open + (Quote(ks[0]) + (":" + (lay.colon + (Encode(v.fields[ks[0]]) + AfterMember(v, ks, lay, end)))))
  {
    hide Quote, Encode;
    var x := Encode(v.fields[ks[0]]);
    if |ks| > 1 {
      var tail := EncodeFields(v, ks[1..], lay);
      Cat4(lay.open + Quote(ks[0]) + ":" + lay.colon + x, ",", tail, end);
      Cat3(lay.open + Quote(ks[0]) + ":" + lay.colon + x + ",", tail, end);
      hide EncodeFields;
      Cat3(lay.open + Quote(ks[0]) + ":" + lay.colon + x, ",", tail + end);
    }
    Member(lay, ks[0], x, AfterMember(v, ks, lay, end));
  }

  lemma EndsAfterMember(v: Json, ks: seq<string>, lay: Layout, rest: string)
    requires v.Obj? && ks != [] && (forall i :: 0 <= i < |ks| ==> ks[i] in v.fields)
    requires BlankLayout(lay)
    ensures Ends(v.fields[ks[0]], AfterMember(v, ks, lay, lay.close + ("}" + rest)))
  {
    if lay.close != "" { assert (lay.close + ("}" + rest))[0] == lay.close[0]; }
  }

  lemma Member(lay: Layout, k: string, x: string, after: string)
    ensures lay.open + Quote(k) + ":" + lay.colon + x + after
         == lay.open + (Quote(k) + (":" + (lay.colon + (x + after))))
  {
    hide Quote;
    var q := Quote(k);
    Cat3(lay.open + q + ":" + lay.colon, x, after);
    Cat3(lay.open + q + ":", lay.colon, x + after);
    Cat3(lay.open + q, ":", lay.colon + (x + after));
    Cat3(lay.open, q, ":" + (lay.colon + (x + after)));
  }

  /** `json.Unmarshal` undoes `json.Marshal`. */
  lemma DecodeEncode(v: Json)
    requires WellFormed(v)
    ensures Decode(Encode(v)) == Some(v)
  {
    RoundTrip(v, "");
    assert Encode(v) + "" == Encode(v);
  }

  // ---------- reading is stable under more input ----------

  lemma {:induction false} SkipExtend(s: string, t: string)
    requires SkipSpace(s) != ""
    ensures SkipSpace(s + t) == SkipSpace(s) + t
  {
    if JsonSpace(s[0]) {
      SkipExtend(s[1..], t);
      assert (s + t)[1..] == s[1..] + t;
    }
  }

  lemma CodeUnitExtend(s: string, t: string)
    requires |s| >= 6 || ParseChars(s).Done?
    requires |s| >= 6 || (|s| > 0 && s[0] == '\\')
    ensures CodeUnit(s + t) == CodeUnit(s)
  {
    hide HexValue, ParseChars;
    if |s| < 6 {
      ShortEscape(s);
      assert (s + t)[1] == s[1];
    } else {
      SameUnit(s, s + t);
    }
  }

  lemma SameUnit(s: string, u: string)
    requires 6 <= |s| <= |u| && u[..6] == s[..6]
    ensures CodeUnit(u) == CodeUnit(s)
  {
    hide HexValue;
    assert forall i :: 0 <= i < 6 ==> s[i] == s[..6][i] && u[i] == u[..6][i];
  }

  /** A complete string literal that starts with a short escape does not start with a code unit. */
  lemma ShortEscape(s: string)
    requires 0 < |s| < 6 && s[0] == '\\' && ParseChars(s).Done?
    ensures |s| >= 2 && s[1] != 'u'
  {
    hide HexValue, SimpleEscape;
  }

  lemma Unfinished(s: string, t: string)
    requires |s| < 6 && CodeUnit(s + t).Some?
    ensures ParseChars(s) == Fail
  {
    if s != "" { assert s[0] == (s + t)[0]; }
    if |s| > 1 { assert s[1] == (s + t)[1]; }
  }

  /** A code unit cut off by the end of the text cannot be part of a complete string. */
  lemma EscapeExtend(s: string, t: string)
    requires |s| >= 6 && s[0] == '\\' && s[1] == 'u'
    requires UnicodeEscape(s).Some? && ParseChars(s[UnicodeEscape(s).value.1..]).Done?
    ensures UnicodeEscape(s + t) == UnicodeEscape(s)
  {
    var low := s[6..];
    assert CodeUnit(s + t) == CodeUnit(s);
    assert (s + t)[6..] == low + t;
    if |low| < 6 && CodeUnit(low + t).Some? {
      assert UnicodeEscape(s).value.1 == 6;
      Unfinished(low, t);
    } else if |low| >= 6 {
      CodeUnitExtend(low, t);
    }
  }

  lemma {:induction false} CharsExtend(s: string, t: string)
    requires ParseChars(s).Done?
    ensures ParseChars(s + t) == Done(ParseChars(s).value, ParseChars(s).rest + t)
    decreases |s|
  {
    if s[0] == '\"' {
      assert (s + t)[1..] == s[1..] + t;
    } else {
      var n := if s[0] != '\\' then 1 else if s[1] != 'u' then 2 else UnicodeEscape(s).value.1;
      if s[0] == '\\' && s[1] == 'u' { EscapeExtend(s, t); }
      assert (s + t)[n..] == s[n..] + t;
      CharsExtend(s[n..], t);
      hide UnicodeEscape;
    }
  }

  lemma {:induction false} NumRunExtend(s: string, t: string)
    requires NumRun(s) < |s|
    ensures NumRun(s + t) == NumRun(s)
  {
    if NumChar(s[0]) {
      NumRunExtend(s[1..], t);
      assert (s + t)[1..] == s[1..] + t;
    }
  }

  function Extended<T>(p: Parse<T>, t: string): Parse<T> {
    match p
    case Done(v, rest) => Done(v, rest + t)
    case Fail => Fail
  }

  lemma HeadExtend(u: string, t: string)
    requires u != ""
    ensures (u + t)[0] == u[0] && (u + t)[1..] == u[1..] + t
  {
  }

  lemma StringExtend(u: string, t: string)
    requires u != "" && u[0] == '\"' && ParseValue(u).Done?
    ensures ParseValue(u + t) == Extended(ParseValue(u), t)
  {
    SkipSpaceIdempotent(u);
    SkipSpaceIdempotent(u + t);
    HeadExtend(u, t);
    CharsExtend(u[1..], t);
    hide ParseChars;
  }

  lemma WordExtend(u: string, t: string)
    requires u != "" && u[0] in "tfn" && ParseValue(u).Done?
    ensures ParseValue(u + t) == Extended(ParseValue(u), t)
  {
    hide ParseElems, ParseMembers, ParseChars, NumRun, ValidNumber;
    SkipSpaceIdempotent(u);
    SkipSpaceIdempotent(u + t);
    var n := |u| - |ParseValue(u).rest|;
    assert (u + t)[n..] == u[n..] + t;
  }

  lemma NumberExtend(u: string, t: string)
    requires u != "" && !JsonSpace(u[0]) && u[0] !in "{[\"tfn"
    requires ParseValue(u).Done? && ParseValue(u).rest != ""
    ensures ParseValue(u + t) == Extended(ParseValue(u), t)
  {
    hide NumRun, ValidNumber, SkipSpace;
    SkipSpaceIdempotent(u);
    SkipSpaceIdempotent(u + t);
    var n := NumRun(u);
    NumRunExtend(u, t);
    assert (u + t)[..n] == u[..n] && (u + t)[n..] == u[n..] + t;
  }

  /** A complete value reads the same whatever follows it; a number must already be delimited. */
  lemma {:induction false} ValueExtend(s: string, t: string)
    requires ParseValue(s).Done? && (ParseValue(s).rest != "" || !ParseValue(s).value.Num?)
    ensures ParseValue(s + t) == Extended(ParseValue(s), t)
    decreases |s|, 0
  {
    hide ParseElems, ParseMembers, ParseChars, NumRun, ValidNumber;
    var u := SkipSpace(s);
    SkipExtend(s, t);
    SkipSpaceIdempotent(u);
    SkipSpaceIdempotent(u + t);
    assert ParseValue(s) == ParseValue(u) && ParseValue(s + t) == ParseValue(u + t);
    if u[0] == '{' || u[0] == '[' {
      HeadExtend(u, t);
      var w := SkipSpace(u[1..]);
      assert w != "" by { if w == "" { MembersNeedText(w); } }
      SkipExtend(u[1..], t);
      HeadExtend(w, t);
      if u[0] == '{' && w[0] != '}' { MembersExtend(w, map[], t); }
      if u[0] == '[' && w[0] != ']' { ElemsExtend(w, [], t); }
    } else if u[0] == '\"' {
      StringExtend(u, t);
    } else if u[0] in "tfn" {
      WordExtend(u, t);
    } else {
      NumberExtend(u, t);
    }
  }

  lemma MembersNeedText(w: string)
    requires w == ""
    ensures ParseMembers(w, map[]) == Fail && ParseElems(w, []) == Fail
  {
  }

  lemma ElemsUnfold(s: string, acc: seq<Json>, v: Json, rest: string)
    requires forall i :: 0 <= i < |acc| ==> WellFormed(acc[i])
    requires ParseValue(s) == Done(v, rest)
    ensures var u := SkipSpace(rest);
            ParseElems(s, acc) == if u == "" then Fail
                                  else if u[0] == ']' then Done(acc + [v], u[1..])
                                  else if u[0] == ',' then ParseElems(u[1..], acc + [v])
                                  else Fail
  {
    hide ParseValue, SkipSpace;
  }

  lemma {:induction false} ElemsExtend(s: string, acc: seq<Json>, t: string)
    requires forall i :: 0 <= i < |acc| ==> WellFormed(acc[i])
    requires ParseElems(s, acc).Done?
    ensures ParseElems(s + t, acc) == Extended(ParseElems(s, acc), t)
    decreases |s|, 1
  {
    assert ParseValue(s).Done?;
    hide ParseElems, ParseValue;
    var Done(v, rest) := ParseValue(s);
    ElemsUnfold(s, acc, v, rest);
    var u := SkipSpace(rest);
    ValueExtend(s, t);
    ElemsUnfold(s + t, acc, v, rest + t);
    SkipExtend(rest, t);
    HeadExtend(u, t);
    if u[0] == ',' { ElemsExtend(u[1..], acc + [v], t); }
  }

  lemma MembersUnfold(s: string, acc: map<string, Json>, k: string, afterKey: string, v: Json, rest: string)
    requires forall x :: x in acc ==> WellFormed(acc[x])
    requires SkipSpace(s) != "" && SkipSpace(s)[0] == '\"'
    requires ParseChars(SkipSpace(s)[1..]) == Done(k, afterKey)
    requires SkipSpace(afterKey) != "" && SkipSpace(afterKey)[0] == ':'
    requires ParseValue(SkipSpace(afterKey)[1..]) == Done(v, rest)
    ensures var u := SkipSpace(rest);
            ParseMembers(s, acc) == if u == "" then Fail
                                    else if u[0] == '}' then Done(acc[k := v], u[1..])
                                    else if u[0] == ',' then ParseMembers(u[1..], acc[k := v])
                                    else Fail
  {
    hide ParseValue, SkipSpace, ParseChars;
  }

  lemma MembersInvert(s: string, acc: map<string, Json>)
    returns (k: string, afterKey: string, v: Json, rest: string)
    requires forall x :: x in acc ==> WellFormed(acc[x])
    requires ParseMembers(s, acc).Done?
    ensures SkipSpace(s) != "" && SkipSpace(s)[0] == '\"'
    ensures ParseChars(SkipSpace(s)[1..]) == Done(k, afterKey)
    ensures SkipSpace(afterKey) != "" && SkipSpace(afterKey)[0] == ':'
    ensures ParseValue(SkipSpace(afterKey)[1..]) == Done(v, rest) && SkipSpace(rest) != ""
    ensures WellFormed(v) && |afterKey| < |s| && |rest| < |afterKey|
  {
    hide ParseValue, SkipSpace, ParseChars;
    var p := ParseChars(SkipSpace(s)[1..]);
    k, afterKey := p.value, p.rest;
    var q := ParseValue(SkipSpace(afterKey)[1..]);
    v, rest := q.value, q.rest;
  }

  lemma {:induction false} MembersExtend(s: string, acc: map<string, Json>, t: string)
    requires forall k :: k in acc ==> WellFormed(acc[k])
    requires ParseMembers(s, acc).Done?
    ensures ParseMembers(s + t, acc) == Extended(ParseMembers(s, acc), t)
    decreases |s|, 1
  {
    hide ParseMembers, ParseValue, ParseChars;
    var k, afterKey, v, rest := MembersInvert(s, acc);
    MembersUnfold(s, acc, k, afterKey, v, rest);
    var q, c, u := SkipSpace(s), SkipSpace(afterKey), SkipSpace(rest);
    SkipExtend(s, t);
    HeadExtend(q, t);
    CharsExtend(q[1..], t);
    SkipExtend(afterKey, t);
    HeadExtend(c, t);
    ValueExtend(c[1..], t);
    SkipExtend(rest, t);
    HeadExtend(u, t);
    MembersUnfold(s + t, acc, k, afterKey + t, v, rest + t);
    if u[0] == ',' { MembersExtend(u[1..], acc[k := v], t); }
  }

  /** No strict prefix of a printed object reads as a document: a torn write is always noticed. */
  lemma TornObjectUnreadable(v: Json, ks: seq<string>, lay: Layout, n: nat)
    requires v.Obj? && (forall i :: 0 <= i < |ks| ==> ks[i] in v.fields)
    requires WellFormed(v) && BlankLayout(lay)
    requires n < |EncodeObject(v, ks, lay)|
    ensures Decode(EncodeObject(v, ks, lay)[..n]) == None
  {
    hide ParseValue, EncodeObject, Blank;
    var whole := EncodeObject(v, ks, lay);
    var torn, lost := whole[..n], whole[n..];
    assert torn + lost == whole && whole + "" == whole;
    StartsWithBrace(v, ks, lay);
    ObjectRoundTrip(v, ks, lay, "");
    if n == 0 {
      NothingToRead();
    } else {
      TornObjectFails(torn, lost);
    }
  }

  lemma StartsWithBrace(v: Json, ks: seq<string>, lay: Layout)
    requires v.Obj? && forall i :: 0 <= i < |ks| ==> ks[i] in v.fields
    ensures EncodeObject(v, ks, lay) != "" && EncodeObject(v, ks, lay)[0] == '{'
  {
    hide EncodeFields;
  }

  lemma NothingToRead()
    ensures Decode("") == None
  {
  }

  lemma BraceReadsObject(s: string)
    requires s != "" && s[0] == '{' && ParseValue(s).Done?
    ensures ParseValue(s).value.Obj?
  {
    hide ParseMembers, ParseElems, ParseChars, ValidNumber, NumRun;
    assert SkipSpace(s) == s;
  }

  /** What follows an object is left over, so a text that is read to its end has no shorter beginning that
      can be read. */
  lemma TornObjectFails(torn: string, lost: string)
    requires torn != "" && torn[0] == '{' && lost != ""
    requires ParseValue(torn + lost).Done? && ParseValue(torn + lost).rest == ""
    ensures Decode(torn) == None
  {
    hide ParseValue, Blank;
    if ParseValue(torn).Done? {
      BraceReadsObject(torn);
      assert Extended(ParseValue(torn), lost).rest != "";
      ValueExtend(torn, lost);
      assert false;
    }
  }
}
