/** What the printer and the reader do with single characters, code points and numerals, told without their
    own functions (sections 6 to 8 of RFC 8259, section 3 of RFC 3629, section 2 of RFC 2781). */
module JsonLaws {
  import opened Text
  import opened Json
  import opened JsonProofs

  // ---------- white space ----------

  predicate FourSpaces(s: string) { forall i :: 0 <= i < |s| ==> s[i] in " \t\n\r" }

  /** White space around a document changes nothing. */
  lemma DecodePadded(a: string, v: Json, b: string)
    requires WellFormed(v) && FourSpaces(a) && FourSpaces(b)
    ensures Decode(a + (Encode(v) + b)) == Some(v)
  {
    assert Blank(a) && Blank(b);
    EncodeStart(v);
    var s := Encode(v) + b;
    assert s[0] == Encode(v)[0];
    assert b != "" ==> b[0] in " \t\n\r";
    hide ParseValue, Encode, WellFormed, Blank;
    ParseAfterBlank(a, s);
    RoundTrip(v, b);
  }

  /** A document with anything but white space behind it is none. */
  lemma NothingBehind(v: Json, b: string)
    requires WellFormed(v) && !FourSpaces(b) && (v.Num? ==> !NumChar(b[0]))
    ensures Decode(Encode(v) + b) == None
  {
    assert !Blank(b);
    hide ParseValue, Encode, WellFormed, Blank;
    RoundTrip(v, b);
  }

  // ---------- escapes ----------

  /** The letters that may follow a backslash, and what they read as. */
  lemma LettersAre(x: char)
    ensures SimpleEscape(x).Some? <==> x in "\"\\/bfnrt"
    ensures x in "\"\\/" ==> SimpleEscape(x) == Some(x)
    ensures SimpleEscape('b') == Some(8 as char) && SimpleEscape('f') == Some(12 as char)
    ensures SimpleEscape('n') == Some(10 as char) && SimpleEscape('r') == Some(13 as char)
    ensures SimpleEscape('t') == Some(9 as char)
  {
  }

  /** A string that can be read holds no control character, and ends with a quote. */
  lemma {:induction false} NoControlInside(s: string)
    requires ParseChars(s).Done?
    ensures var n := |s| - |ParseChars(s).rest|;
            0 < n <= |s| && s[n..] == ParseChars(s).rest && s[n - 1] == '\"'
            && forall i :: 0 <= i < n ==> s[i] >= ' '
    decreases |s|
  {
    var k := CharsStep(s);
    hide ParseChars;
    if s[0] != '\"' {
      NoControlInside(s[k..]);
      Shifted(s, k);
    }
  }

  /** What the reader of a string takes at once: the quote, a byte, or an escape. */
  lemma CharsStep(s: string) returns (k: nat)
    requires ParseChars(s).Done?
    ensures 0 < k <= |s| && forall i :: 0 <= i < k ==> s[i] >= ' '
    ensures if s[0] == '\"' then ParseChars(s).rest == s[1..]
            else ParseChars(s[k..]).Done? && ParseChars(s[k..]).rest == ParseChars(s).rest
  {
    hide UnicodeEscape, SimpleEscape;
    k := 1;
    if s[0] == '\\' {
      if s[1] == 'u' {
        k := UnicodeEscape(s).value.1;
        EscapeIsPlain(s);
      } else {
        k := 2;
        LettersAre(s[1]);
      }
    }
  }

  lemma Shifted(s: string, k: nat)
    requires k <= |s|
    ensures forall i :: k <= i < |s| ==> s[i] == s[k..][i - k]
    ensures forall m: nat :: m <= |s| - k ==> s[k..][m..] == s[k + m..]
  {
  }

  lemma EscapeIsPlain(s: string)
    requires UnicodeEscape(s).Some?
    ensures var k := UnicodeEscape(s).value.1; 6 <= k <= |s| && forall i :: 0 <= i < k ==> s[i] >= ' '
  {
    hide Utf8;
    UnitIsPlain(s);
    if UnicodeEscape(s).value.1 == 12 {
      UnitIsPlain(s[6..]);
      Shifted(s, 6);
    }
  }

  lemma UnitIsPlain(s: string)
    requires CodeUnit(s).Some?
    ensures |s| >= 6 && forall i :: 0 <= i < 6 ==> s[i] >= ' '
  {
  }

  /** U+2028 and U+2029 are escaped as a whole, and nothing else that is longer than a byte. */
  lemma SeparatorsAre(s: string)
    requires s != ""
    ensures Escape(s) == if Utf8(0x2028) <= s then "\\u2028" + Escape(s[3..])
                         else if Utf8(0x2029) <= s then "\\u2029" + Escape(s[3..])
                         else EscapeByte(s[0]) + Escape(s[1..])
  {
    SeparatorBytes(s);
    assert "\\u202" + [HexDigit(8)] == "\\u2028" && "\\u202" + [HexDigit(9)] == "\\u2029";
    hide Utf8, EscapeByte;
  }

  lemma SeparatorBytes(s: string)
    ensures LineSeparator(s) <==> Utf8(0x2028) <= s || Utf8(0x2029) <= s
    ensures LineSeparator(s) ==> s[2] as int - 0xA0 == (if Utf8(0x2028) <= s then 8 else 9)
    ensures !(Utf8(0x2028) <= s && Utf8(0x2029) <= s)
  {
    assert Utf8(0x2028) == [0xE2 as char, 0x80 as char, 0xA8 as char];
    assert Utf8(0x2029) == [0xE2 as char, 0x80 as char, 0xA9 as char];
    hide Utf8;
    if |s| >= 3 { assert s[..3] == [s[0], s[1], s[2]]; }
  }

  /** The reader knows a one-letter escape for the character; the one for `/` is never needed. */
  ghost predicate HasLetter(c: char) { exists x :: x in "\"\\bfnrt" && SimpleEscape(x) == Some(c) }

  /** Two bytes where there is a one-letter escape, six for the other control characters and for the three
      that HTML would read, one for the rest. */
  lemma EscapeWidth(c: char)
    ensures |EscapeByte(c)| == if HasLetter(c) then 2 else if c < ' ' || c in "<>&" then 6 else 1
    ensures HasLetter(c) <==> c in ['\"', '\\', 8 as char, 12 as char, '\n', '\r', '\t']
    ensures |EscapeByte(c)| == 6 ==> forall i :: 2 <= i < 6 ==> EscapeByte(c)[i] in "0123456789abcdef"
  {
    if c in ['\"', '\\', 8 as char, 12 as char, '\n', '\r', '\t'] {
      var x := EscapeByte(c)[1];
      assert x in "\"\\bfnrt" && SimpleEscape(x) == Some(c);
    }
    if |EscapeByte(c)| == 6 {
      LowerHex(c as int / 16);
      LowerHex(c as int % 16);
    }
  }

  lemma LowerHex(d: nat)
    requires d < 16
    ensures HexDigit(d) == "0123456789abcdef"[d]
  {
  }

  /** Only the digits of base 16 are read, letters in either case. */
  lemma HexValueIs(c: char)
    ensures HexValue(c).Some? <==> c in "0123456789abcdefABCDEF"
    ensures forall d: nat :: d < 16 ==>
              (HexValue(c) == Some(d) <==> c == "0123456789abcdef"[d] || c == "0123456789ABCDEF"[d])
  {
    forall d: nat | d < 16
      ensures HexValue(c) == Some(d) <==> c == "0123456789abcdef"[d] || c == "0123456789ABCDEF"[d]
    {
      LowerHex(d);
      UpperHex(d);
    }
  }

  lemma UpperHex(d: nat)
    requires d < 16
    ensures "0123456789ABCDEF"[d] == if d < 10 then '0' + d as char else 'A' + (d - 10) as char
  {
  }

  // ---------- code points ----------

  predicate Tail(c: char) { 0x80 <= c as int < 0xC0 }

  /** The bytes of a code point: how many there are, what they start with, and the bits they carry. */
  lemma Utf8Is(n: nat)
    requires n < 0x110000
    ensures var s := Utf8(n);
            if n < 0x80 then s == [n as char]
            else if n < 0x800 then
              |s| == 2 && 0xC0 <= s[0] as int < 0xE0 && Tail(s[1])
              && n == (s[0] as int - 0xC0) * 0x40 + (s[1] as int - 0x80)
            else if n < 0x10000 then
              |s| == 3 && 0xE0 <= s[0] as int < 0xF0 && Tail(s[1]) && Tail(s[2])
              && n == (s[0] as int - 0xE0) * 0x1000 + (s[1] as int - 0x80) * 0x40 + (s[2] as int - 0x80)
            else
              |s| == 4 && 0xF0 <= s[0] as int < 0xF8 && Tail(s[1]) && Tail(s[2]) && Tail(s[3])
              && n == (s[0] as int - 0xF0) * 0x40000 + (s[1] as int - 0x80) * 0x1000
                      + (s[2] as int - 0x80) * 0x40 + (s[3] as int - 0x80)
  {
    SixBits(n);
    SixBits(n / 0x40);
    SixBits(n / 0x1000);
    assert n / 0x40 / 0x40 == n / 0x1000 && n / 0x1000 / 0x40 == n / 0x40000;
    TailByte(n);
    TailByte(n / 0x40);
    TailByte(n / 0x1000);
  }

  lemma SixBits(n: nat)
    ensures n == n / 0x40 * 0x40 + n % 0x40
  {
  }

  lemma TailByte(n: nat)
    ensures Tail(Byte(0x80 + n % 0x40)) && Byte(0x80 + n % 0x40) as int - 0x80 == n % 0x40
  {
  }

  /** Four digits of base 16, in either case, spell the code unit. */
  predicate Spells(s: string, at: nat, u: nat) {
    && at + 6 <= |s| && s[at] == '\\' && s[at + 1] == 'u'
    && HexValue(s[at + 2]).Some? && HexValue(s[at + 3]).Some? && HexValue(s[at + 4]).Some? && HexValue(s[at + 5]).Some?
    && u == ((HexValue(s[at + 2]).value * 16 + HexValue(s[at + 3]).value) * 16
             + HexValue(s[at + 4]).value) * 16 + HexValue(s[at + 5]).value
  }

  lemma SpelledUnit(s: string, at: nat, u: nat)
    requires at <= |s|
    ensures CodeUnit(s[at..]) == Some(u) <==> Spells(s, at, u)
  {
    hide HexValue;
    var t := s[at..];
    assert forall i :: 0 <= i < |t| ==> t[i] == s[at + i];
  }

  /** A code unit outside the surrogates reads as its code point. */
  lemma PlainUnit(s: string, n: nat)
    requires Spells(s, 0, n) && !(0xD800 <= n < 0xE000) && n < 0x10000
    ensures UnicodeEscape(s) == Some((Utf8(n), 6))
  {
    hide HexValue, Utf8;
    SpelledUnit(s, 0, n);
    assert s[0..] == s;
    hide CodeUnit;
  }

  /** A pair of surrogates reads as the code point it stands for. */
  lemma SurrogatePair(s: string, n: nat)
    requires 0x10000 <= n < 0x110000
    requires Spells(s, 0, 0xD800 + (n - 0x10000) / 0x400) && Spells(s, 6, 0xDC00 + (n - 0x10000) % 0x400)
    ensures UnicodeEscape(s) == Some((Utf8(n), 12))
  {
    hide HexValue, Utf8, Spells;
    assert |s| >= 12 by { SpellsLong(s, 6, 0xDC00 + (n - 0x10000) % 0x400); }
    SpelledUnit(s, 0, 0xD800 + (n - 0x10000) / 0x400);
    SpelledUnit(s, 6, 0xDC00 + (n - 0x10000) % 0x400);
    assert s[0..] == s;
    hide CodeUnit;
  }

  lemma SpellsLong(s: string, at: nat, u: nat)
    requires Spells(s, at, u)
    ensures |s| >= at + 6
  {
  }

  /** A surrogate that is not the first of a pair reads as U+FFFD, and what follows is read by itself. */
  lemma LoneSurrogate(s: string, n: nat)
    requires Spells(s, 0, n) && 0xD800 <= n < 0xE000
    requires n >= 0xDC00 || !exists low: nat :: Spells(s, 6, low) && 0xDC00 <= low < 0xE000
    ensures UnicodeEscape(s) == Some((Utf8(0xFFFD), 6))
  {
    hide HexValue, Utf8, Spells;
    assert |s| >= 6 by { SpellsLong(s, 0, n); }
    SpelledUnit(s, 0, n);
    assert s[0..] == s;
    if CodeUnit(s[6..]).Some? { SpelledUnit(s, 6, CodeUnit(s[6..]).value); }
    hide CodeUnit;
  }

  // ---------- numerals ----------

  predicate IntPart(s: string) { s != "" && Digits(s) && (s[0] == '0' ==> |s| == 1) }

  predicate FracPart(s: string) { s == "" || (|s| > 1 && s[0] == '.' && Digits(s[1..])) }

  predicate ExpPart(s: string) {
    s == "" || (|s| > 1 && s[0] in "eE" && Digits(s[1..]))
    || (|s| > 2 && s[0] in "eE" && s[1] in "+-" && Digits(s[2..]))
  }

  /** Sign, integer, fraction and exponent, as section 6 of RFC 8259 puts them together. */
  ghost predicate Numeral(lit: string) {
    exists sign, whole, frac, exp ::
      (sign == "" || sign == "-") && IntPart(whole) && FracPart(frac) && ExpPart(exp)
      && lit == sign + (whole + (frac + exp))
  }

  lemma {:induction false} RunEnds(a: string, rest: string)
    requires Digits(a) && (rest == "" || !IsDigit(rest[0]))
    ensures DigitRun(a + rest) == |a|
    decreases |a|
  {
    if a == "" {
      assert a + rest == rest;
    } else {
      assert (a + rest)[1..] == a[1..] + rest;
      RunEnds(a[1..], rest);
    }
  }

  lemma ExponentIs(s: string)
    ensures ValidExponent(s) <==> ExpPart(s)
  {
    if s != "" && s[0] in "eE" && |s| > 1 && s[1] in "+-" { assert !IsDigit(s[1..][0]); }
  }

  lemma FractionIs(s: string) returns (frac: string, exp: string)
    ensures ValidFraction(s) ==> FracPart(frac) && ExpPart(exp) && s == frac + exp
  {
    if s != "" && s[0] == '.' {
      var n := DigitRun(s[1..]);
      frac, exp := s[..1 + n], s[1 + n..];
      assert frac[1..] == s[1..][..n];
      ExponentIs(exp);
    } else {
      frac, exp := "", s;
      ExponentIs(s);
    }
  }

  lemma FractionHolds(frac: string, exp: string)
    requires FracPart(frac) && ExpPart(exp)
    ensures ValidFraction(frac + exp)
  {
    var s := frac + exp;
    ExponentIs(exp);
    if frac == "" {
      assert s == exp;
    } else {
      assert s[1..] == frac[1..] + exp;
      RunEnds(frac[1..], exp);
      assert s[1 + |frac[1..]|..] == exp;
    }
  }

  lemma ReadIsNumeral(lit: string)
    requires ValidNumber(lit)
    ensures Numeral(lit)
  {
    hide ValidFraction, FracPart, ExpPart, DigitRun;
    var a := Unsigned(lit);
    var n := DigitRun(a);
    var frac, exp := FractionIs(a[n..]);
    var sign := if a == lit then "" else "-";
    assert a == a[..n] + (frac + exp);
    assert a[..n][0] == a[0];
    assert lit == sign + (a[..n] + (frac + exp));
  }

  lemma NumeralIsRead(lit: string)
    requires Numeral(lit)
    ensures ValidNumber(lit)
  {
    hide ValidFraction, FracPart, ExpPart, DigitRun;
    var sign, whole, frac, exp :|
      (sign == "" || sign == "-") && IntPart(whole) && FracPart(frac) && ExpPart(exp)
      && lit == sign + (whole + (frac + exp));
    var rest := frac + exp;
    var a := whole + rest;
    FractionHolds(frac, exp);
    PartsStart(frac, exp);
    RunEnds(whole, rest);
    assert a[0] == whole[0] && a[|whole|..] == rest;
    assert Unsigned(lit) == a by { if sign == "-" { assert lit[1..] == a; } else { assert lit == a; } }
  }

  lemma PartsStart(frac: string, exp: string)
    requires FracPart(frac) && ExpPart(exp)
    ensures var rest := frac + exp; rest == "" || !IsDigit(rest[0])
  {
  }

  /** The numerals that are read are exactly those of the grammar. */
  lemma NumeralIs(lit: string)
    ensures ValidNumber(lit) <==> Numeral(lit)
  {
    hide ValidNumber, Numeral;
    if ValidNumber(lit) { ReadIsNumeral(lit); }
    if Numeral(lit) { NumeralIsRead(lit); }
  }
}
