/** JSON documents as Go's encoding/json holds, prints and reads them.
    Number literals are kept verbatim; objects are maps, printed in key order. */
module Json {
  import opened Text

  datatype Json =
    | Null
    | Bool(b: bool)
    | Num(lit: string)
    | Str(s: string)
    | Arr(elems: seq<Json>)
    | Obj(fields: map<string, Json>)

  // ---------- numbers (section 6 of RFC 8259) ----------

  predicate NumChar(c: char) { IsDigit(c) || c in "+-.eE" }

  /** Length of the run of digits that starts `s`. */
  function DigitRun(s: string): (n: nat)
    ensures n <= |s| && Digits(s[..n])
    ensures n < |s| ==> !IsDigit(s[n])
  {
    if s == "" || !IsDigit(s[0]) then 0 else 1 + DigitRun(s[1..])
  }

  /** Length of the run of numeral characters that starts `s`. */
  function NumRun(s: string): (n: nat)
    ensures n <= |s|
    ensures forall i :: 0 <= i < n ==> NumChar(s[i])
    ensures n < |s| ==> !NumChar(s[n])
  {
    if s == "" || !NumChar(s[0]) then 0 else 1 + NumRun(s[1..])
  }

  predicate ValidExponent(s: string) {
    s == "" ||
    (s[0] in "eE" &&
     var t := if |s| > 1 && s[1] in "+-" then s[2..] else s[1..];
     t != "" && Digits(t))
  }

  predicate ValidFraction(s: string) {
    if s != "" && s[0] == '.' then
      var n := DigitRun(s[1..]);
      n > 0 && ValidExponent(s[1 + n..])
    else ValidExponent(s)
  }

  function Unsigned(lit: string): string {
    if lit != "" && lit[0] == '-' then lit[1..] else lit
  }

  predicate ValidNumber(lit: string) {
    var a := Unsigned(lit);
    var n := DigitRun(a);
    n > 0 && (a[0] == '0' ==> n == 1) && ValidFraction(a[n..])
  }

  /** The literal denotes zero: no non-zero digit in its mantissa. */
  predicate ZeroLiteral(lit: string) {
    lit == "" || lit[0] in "eE" || (!('1' <= lit[0] <= '9') && ZeroLiteral(lit[1..]))
  }

  /** No exponent starts at or before position `i`. */
  predicate InMantissa(lit: string, i: nat) { forall j :: 0 <= j <= i && j < |lit| ==> lit[j] !in "eE" }

  /** A literal denotes zero exactly when every digit before its exponent is `0`. */
  lemma {:induction false} ZeroLiteralIs(lit: string)
    ensures ZeroLiteral(lit) <==> forall i :: 0 <= i < |lit| && InMantissa(lit, i) && IsDigit(lit[i]) ==> lit[i] == '0'
    decreases |lit|
  {
    if lit != "" {
      var rest := lit[1..];
      ZeroLiteralIs(rest);
      MantissaStarts(lit);
      if lit[0] !in "eE" {
        forall i: nat ensures InMantissa(lit, i + 1) <==> InMantissa(rest, i) {
          assert forall j :: 0 <= j < |rest| ==> rest[j] == lit[j + 1];
          if InMantissa(lit, i + 1) {
            forall j | 0 <= j <= i && j < |rest| ensures rest[j] !in "eE" { assert lit[j + 1] !in "eE"; }
          }
          if InMantissa(rest, i) {
            forall j | 0 <= j <= i + 1 && j < |lit| ensures lit[j] !in "eE" { assert j > 0 ==> lit[j] == rest[j - 1]; }
          }
        }
        assert InMantissa(lit, 0);
        if ZeroLiteral(lit) {
          forall i | 0 <= i < |lit| && InMantissa(lit, i) && IsDigit(lit[i]) ensures lit[i] == '0' {
            if i > 0 { assert InMantissa(rest, i - 1) && rest[i - 1] == lit[i]; }
          }
        }
        if forall i :: 0 <= i < |lit| && InMantissa(lit, i) && IsDigit(lit[i]) ==> lit[i] == '0' {
          forall i | 0 <= i < |rest| && InMantissa(rest, i) && IsDigit(rest[i]) ensures rest[i] == '0' {
            assert InMantissa(lit, i + 1) && lit[i + 1] == rest[i];
          }
        }
      }
    }
  }

  lemma MantissaStarts(lit: string)
    requires lit != ""
    ensures forall i: nat :: InMantissa(lit, i) ==> lit[0] !in "eE"
  {
  }

  /** An integer literal denotes zero exactly when its value is 0. */
  lemma ZeroIntLiteral(lit: string)
    requires IntValue(lit).Some?
    ensures ZeroLiteral(lit) <==> IntValue(lit).value == 0
  {
    var s := if Digits(lit) then lit else lit[1..];
    ZeroLiteralIs(lit);
    NaturalZero(s);
    assert forall i :: 0 <= i < |s| ==> IsDigit(s[i]);
    forall i: nat | i < |lit| ensures InMantissa(lit, i) {
      forall j | 0 <= j <= i && j < |lit| ensures lit[j] !in "eE" {
        assert s != lit && j > 0 ==> lit[j] == s[j - 1];
      }
    }
    if s != lit { assert forall i :: 0 <= i < |s| ==> lit[i + 1] == s[i]; }
  }

  /** Every number in the document is a JSON number. */
  predicate WellFormed(v: Json) {
    match v
    case Num(lit) => ValidNumber(lit)
    case Arr(es) => forall i :: 0 <= i < |es| ==> WellFormed(es[i])
    case Obj(m) => forall k :: k in m ==> WellFormed(m[k])
    case _ => true
  }

  // ---------- printing ----------

  function HexDigit(d: nat): char requires d < 16 { if d < 10 then '0' + d as char else 'a' + (d - 10) as char }

  /** encoding/json's escape of one byte, HTML-safe as `json.Marshal` is. */
  function EscapeByte(c: char): string {
    if c == '\"' then "\\\""
    else if c == '\\' then "\\\\"
    else if c == 8 as char then "\\b"
    else if c == 12 as char then "\\f"
    else if c == '\n' then "\\n"
    else if c == '\r' then "\\r"
    else if c == '\t' then "\\t"
    else if c < ' ' || c == '<' || c == '>' || c == '&' then
      "\\u00" + [HexDigit(c as int / 16), HexDigit(c as int % 16)]
    else [c]
  }

  /** U+2028 and U+2029 in UTF-8: the two characters Go escapes beyond single bytes. */
  predicate LineSeparator(s: string) {
    |s| >= 3 && s[0] as int == 0xE2 && s[1] as int == 0x80 && (s[2] as int == 0xA8 || s[2] as int == 0xA9)
  }

  function Escape(s: string): string {
    if s == "" then ""
    else if LineSeparator(s) then
      "\\u202" + [HexDigit(s[2] as int - 0xA0)] + Escape(s[3..])
    else EscapeByte(s[0]) + Escape(s[1..])
  }

  function Quote(s: string): string { "\"" + Escape(s) + "\"" }

  /** White space between the parts of an object: empty for `Marshal`, one member
      per line for `MarshalIndent`. */
  datatype Layout = Layout(open: string, colon: string, close: string)

  const COMPACT := Layout("", "", "")
  const INDENTED := Layout("\n  ", " ", "\n")

  function Encode(v: Json): string
    decreases v
  {
    match v
    case Null => "null"
    case Bool(b) => if b then "true" else "false"
    case Num(lit) => lit
    case Str(s) => Quote(s)
    case Arr(es) => "[" + EncodeElems(es) + "]"
    case Obj(m) => EncodeObject(v, SortedKeys(m.Keys), COMPACT)
  }

  function EncodeElems(es: seq<Json>): string
    decreases es
  {
    if es == [] then ""
    else if |es| == 1 then Encode(es[0])
    else Encode(es[0]) + "," + EncodeElems(es[1..])
  }

  /** The object `v` with its members in the order `ks`. */
  function EncodeObject(v: Json, ks: seq<string>, lay: Layout): string
    requires v.Obj? && forall i :: 0 <= i < |ks| ==> ks[i] in v.fields
    decreases v, |ks|, 1
  {
    if ks == [] then "{}" else "{" + EncodeFields(v, ks, lay) + lay.close + "}"
  }

  function EncodeFields(v: Json, ks: seq<string>, lay: Layout): string
    requires v.Obj? && forall i :: 0 <= i < |ks| ==> ks[i] in v.fields
    decreases v, |ks|, 0
  {
    if ks == [] then ""
    else
      var member := lay.open + Quote(ks[0]) + ":" + lay.colon + Encode(v.fields[ks[0]]);
      if |ks| == 1 then member else member + "," + EncodeFields(v, ks[1..], lay)
  }

  // ---------- reading ----------

  datatype Parse<+T> = Fail | Done(value: T, rest: string)

  predicate JsonSpace(c: char) { c == ' ' || c == '\t' || c == '\n' || c == '\r' }

  predicate Blank(s: string) { forall i :: 0 <= i < |s| ==> JsonSpace(s[i]) }

  function SkipSpace(s: string): (t: string)
    ensures |t| <= |s|
    ensures t == "" <==> Blank(s)
    ensures t != "" ==> !JsonSpace(t[0])
  {
    if s != "" && JsonSpace(s[0]) then SkipSpace(s[1..]) else s
  }

  function HexValue(c: char): (v: Option<nat>)
    ensures v.Some? ==> v.value < 16
  {
    if IsDigit(c) then Some(DigitValue(c))
    else if 'a' <= c <= 'f' then Some(c as int - 'a' as int + 10)
    else if 'A' <= c <= 'F' then Some(c as int - 'A' as int + 10)
    else None
  }

  function FourDigits(a: nat, b: nat, c: nat, d: nat): (u: nat)
    requires a < 16 && b < 16 && c < 16 && d < 16
    ensures u < 0x10000
  {
    4096 * a + 256 * b + 16 * c + d
  }

  /** The code unit of a `\uXXXX` escape at the start of `s`. */
  function CodeUnit(s: string): (u: Option<nat>)
    ensures u.Some? ==> u.value < 0x10000
  {
    if |s| < 6 || s[0] != '\\' || s[1] != 'u' then None
    else
      match (HexValue(s[2]), HexValue(s[3]), HexValue(s[4]), HexValue(s[5]))
      case (Some(a), Some(b), Some(c), Some(d)) => Some(FourDigits(a, b, c, d))
      case _ => None
  }

  function Byte(n: nat): char requires n < 256 { n as char }

  /** UTF-8 bytes of a code point. */
  function Utf8(n: nat): string requires n < 0x110000 {
    if n < 0x80 then [Byte(n)]
    else if n < 0x800 then [Byte(0xC0 + n / 64), Byte(0x80 + n % 64)]
    else if n < 0x10000 then [Byte(0xE0 + n / 4096), Byte(0x80 + n / 64 % 64), Byte(0x80 + n % 64)]
    else [Byte(0xF0 + n / 262144), Byte(0x80 + n / 4096 % 64), Byte(0x80 + n / 64 % 64), Byte(0x80 + n % 64)]
  }

  const REPLACEMENT: nat := 0xFFFD

  /** A `\u` escape: its text and the number of characters it spans. */
  function UnicodeEscape(s: string): (r: Option<(string, nat)>)
    ensures r.Some? ==> 6 <= r.value.1 <= |s|
  {
    match CodeUnit(s)
    case None => None
    case Some(u) =>
      if !(0xD800 <= u < 0xE000) then Some((Utf8(u), 6))
      else
        match CodeUnit(s[6..])
        case Some(low) =>
          if u < 0xDC00 && 0xDC00 <= low < 0xE000 then
            Some((Utf8(0x10000 + (u - 0xD800) * 1024 + (low - 0xDC00)), 12))
          else Some((Utf8(REPLACEMENT), 6))
        case None => Some((Utf8(REPLACEMENT), 6))
  }

  function SimpleEscape(c: char): Option<char> {
    if c == '\"' || c == '\\' || c == '/' then Some(c)
    else if c == 'b' then Some(8 as char)
    else if c == 'f' then Some(12 as char)
    else if c == 'n' then Some('\n')
    else if c == 'r' then Some('\r')
    else if c == 't' then Some('\t')
    else None
  }

  function Prefixed(head: string, p: Parse<string>): Parse<string> {
    match p
    case Done(s, rest) => Done(head + s, rest)
    case Fail => Fail
  }

  /** The rest of a string literal, after its opening quote. */
  function ParseChars(s: string): (r: Parse<string>)
    ensures r.Done? ==> |r.rest| < |s|
  {
    if s == "" || s[0] < ' ' then Fail
    else if s[0] == '\"' then Done("", s[1..])
    else if s[0] != '\\' then Prefixed([s[0]], ParseChars(s[1..]))
    else if |s| < 2 then Fail
    else if s[1] == 'u' then
      match UnicodeEscape(s)
      case Some((text, n)) => Prefixed(text, ParseChars(s[n..]))
      case None => Fail
    else
      match SimpleEscape(s[1])
      case Some(c) => Prefixed([c], ParseChars(s[2..]))
      case None => Fail
  }

  function Literal(s: string, word: string, v: Json): (r: Parse<Json>)
    requires word != ""
    ensures r.Done? ==> |r.rest| < |s| && r.value == v
  {
    if word <= s then Done(v, s[|word|..]) else Fail
  }

  function ParseValue(s: string): (r: Parse<Json>)
    ensures r.Done? ==> |r.rest| < |s| && WellFormed(r.value)
    decreases |s|, 0
  {
    var t := SkipSpace(s);
    if t == "" then Fail
    else if t[0] == '{' then
      var u := SkipSpace(t[1..]);
      if u != "" && u[0] == '}' then Done(Obj(map[]), u[1..])
      else (match ParseMembers(u, map[])
            case Done(m, rest) => Done(Obj(m), rest)
            case Fail => Fail)
    else if t[0] == '[' then
      var u := SkipSpace(t[1..]);
      if u != "" && u[0] == ']' then Done(Arr([]), u[1..])
      else (match ParseElems(u, [])
            case Done(es, rest) => Done(Arr(es), rest)
            case Fail => Fail)
    else if t[0] == '\"' then
      match ParseChars(t[1..])
      case Done(x, rest) => Done(Str(x), rest)
      case Fail => Fail
    else if t[0] == 't' then Literal(t, "true", Bool(true))
    else if t[0] == 'f' then Literal(t, "false", Bool(false))
    else if t[0] == 'n' then Literal(t, "null", Null)
    else
      var n := NumRun(t);
      if ValidNumber(t[..n]) then Done(Num(t[..n]), t[n..]) else Fail
  }

  /** The elements of an array, up to and including its bracket. */
  function ParseElems(s: string, acc: seq<Json>): (r: Parse<seq<Json>>)
    requires forall i :: 0 <= i < |acc| ==> WellFormed(acc[i])
    ensures r.Done? ==> |r.rest| < |s| && forall i :: 0 <= i < |r.value| ==> WellFormed(r.value[i])
    decreases |s|, 1
  {
    match ParseValue(s)
    case Fail => Fail
    case Done(v, rest) =>
      var u := SkipSpace(rest);
      if u == "" then Fail
      else if u[0] == ']' then Done(acc + [v], u[1..])
      else if u[0] == ',' then ParseElems(u[1..], acc + [v])
      else Fail
  }

  /** The members of an object, up to and including its brace; a repeated key keeps its last value. */
  function ParseMembers(s: string, acc: map<string, Json>): (r: Parse<map<string, Json>>)
    requires forall k :: k in acc ==> WellFormed(acc[k])
    ensures r.Done? ==> |r.rest| < |s| && forall k :: k in r.value ==> WellFormed(r.value[k])
    decreases |s|, 1
  {
    var t := SkipSpace(s);
    if t == "" || t[0] != '\"' then Fail
    else
      match ParseChars(t[1..])
      case Fail => Fail
      case Done(k, afterKey) =>
        var c := SkipSpace(afterKey);
        if c == "" || c[0] != ':' then Fail
        else
          match ParseValue(c[1..])
          case Fail => Fail
          case Done(v, rest) =>
            var u := SkipSpace(rest);
            if u == "" then Fail
            else if u[0] == '}' then Done(acc[k := v], u[1..])
            else if u[0] == ',' then ParseMembers(u[1..], acc[k := v])
            else Fail
  }

  /** `json.Unmarshal` into `any`: one value and nothing after it but white space. */
  function Decode(s: string): (r: Option<Json>)
    ensures r.Some? ==> WellFormed(r.value)
  {
    match ParseValue(s)
    case Done(v, rest) => if Blank(rest) then Some(v) else None
    case Fail => None
  }
}
