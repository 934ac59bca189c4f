/** Byte strings.  A `string` here stands for Go's bytes: each `char` is one byte
    of UTF-8, so `|s|` is the length that Go's `len` reports. */
module Text {

  datatype Option<+T> = None | Some(value: T)

  // ---------- the order Go's sort.Strings and `<` use ----------

  predicate Less(a: string, b: string) {
    if a == "" || b == "" then a == "" && b != ""
    else a[0] < b[0] || (a[0] == b[0] && Less(a[1..], b[1..]))
  }

  lemma {:induction false} LessTotal(a: string, b: string)
    ensures a == b || Less(a, b) || Less(b, a)
    ensures !(Less(a, b) && Less(b, a))
    ensures !Less(a, a)
    decreases |a|
  {
    if a != "" {
      LessTotal(a[1..], a[1..]);
    }
    if a != "" && b != "" {
      LessTotal(a[1..], b[1..]);
      if a[0] == b[0] && a[1..] == b[1..] {
        assert a == [a[0]] + a[1..] && b == [b[0]] + b[1..];
      }
    }
  }

  lemma {:induction false} LessTransitive(a: string, b: string, c: string)
    requires Less(a, b) && Less(b, c)
    ensures Less(a, c)
    decreases |a|
  {
    if a != "" && a[0] == b[0] && b[0] == c[0] {
      LessTransitive(a[1..], b[1..], c[1..]);
    }
  }

  /** The strings agree up to position `i`, where `a` has the lower byte. */
  predicate DiffersAt(a: string, b: string, i: nat) { i < |a| && i < |b| && a[..i] == b[..i] && a[i] < b[i] }

  /** `a` is a proper prefix of `b`, or has the lower byte where they first differ. */
  ghost predicate Before(a: string, b: string) {
    (|a| < |b| && b[..|a|] == a) || exists i: nat :: DiffersAt(a, b, i)
  }

  /** The recursive comparison is the byte order. */
  lemma {:induction false} LessIsBefore(a: string, b: string)
    ensures Less(a, b) <==> Before(a, b)
    decreases |a|
  {
    if a != "" && b != "" {
      LessIsBefore(a[1..], b[1..]);
      assert a == [a[0]] + a[1..] && b == [b[0]] + b[1..];
      if a[0] == b[0] {
        BeforeTail(a[0], a[1..], b[1..]);
      } else {
        assert a[0] < b[0] ==> DiffersAt(a, b, 0);
        SameStart(a, b);
      }
    }
  }

  lemma SameStart(a: string, b: string)
    requires a != "" && b != ""
    ensures forall i: nat :: DiffersAt(a, b, i) && i > 0 ==> a[0] == b[0]
    ensures |a| < |b| && b[..|a|] == a ==> a[0] == b[0]
  {
    if |a| < |b| && b[..|a|] == a { assert b[..|a|][0] == b[0]; }
    forall i: nat | DiffersAt(a, b, i) && i > 0 ensures a[0] == b[0] {
      assert a[..i][0] == a[0] && b[..i][0] == b[0];
    }
  }

  lemma BeforeTail(c: char, a: string, b: string)
    ensures Before([c] + a, [c] + b) <==> Before(a, b)
  {
    var x, y := [c] + a, [c] + b;
    assert x[1..] == a && y[1..] == b;
    if |a| < |b| {
      assert y[..|x|] == [c] + b[..|a|];
      if y[..|x|] == x { assert y[..|x|][1..] == x[1..]; }
    }
    forall i: nat | DiffersAt(a, b, i) ensures DiffersAt(x, y, i + 1) {
      assert x[..i + 1] == [c] + a[..i] && y[..i + 1] == [c] + b[..i];
    }
    forall i: nat | DiffersAt(x, y, i) ensures i > 0 && DiffersAt(a, b, i - 1) {
      assert a[..i - 1] == x[..i][1..] && b[..i - 1] == y[..i][1..];
    }
  }

  predicate IsLeast(k: string, ks: set<string>) {
    k in ks && forall x :: x in ks ==> x == k || Less(k, x)
  }

  lemma LeastExists(ks: set<string>)
    requires ks != {}
    ensures exists k :: IsLeast(k, ks)
    decreases |ks|
  {
    var x :| x in ks;
    var rest := ks - {x};
    if rest == {} {
      assert ks == {x};
      assert IsLeast(x, ks);
    } else {
      LeastExists(rest);
      var m :| IsLeast(m, rest);
      LessTotal(x, m);
      if Less(x, m) {
        forall y | y in ks ensures y == x || Less(x, y) {
          if y != x && y != m { LessTransitive(x, m, y); }
        }
        assert IsLeast(x, ks);
      } else {
        assert IsLeast(m, ks);
      }
    }
  }

  function Least(ks: set<string>): (k: string)
    requires ks != {}
    ensures IsLeast(k, ks)
  {
    LeastExists(ks);
    assert forall a, b | IsLeast(a, ks) && IsLeast(b, ks) :: a == b by {
      forall a, b | IsLeast(a, ks) && IsLeast(b, ks) ensures a == b { LessTotal(a, b); }
    }
    var k :| k in ks && IsLeast(k, ks);
    k
  }

  predicate Distinct<T(==)>(s: seq<T>) {
    forall i, j :: 0 <= i < j < |s| ==> s[i] != s[j]
  }

  function LowerByte(c: char): char { if 'A' <= c <= 'Z' then (c as int - 'A' as int + 'a' as int) as char else c }

  ghost predicate Increasing(s: seq<int>) { forall i, j :: 0 <= i < j < |s| ==> s[i] < s[j] }

  ghost predicate Ascending(s: seq<string>) {
    forall i, j :: 0 <= i < j < |s| ==> Before(s[i], s[j])
  }

  /** The keys of a Go map after `sort.Strings`. */
  function SortedKeys(ks: set<string>): (r: seq<string>)
    ensures |r| == |ks|
    ensures forall k :: k in r <==> k in ks
    ensures Distinct(r)
    decreases |ks|
  {
    if ks == {} then []
    else
      var k := Least(ks);
      var rest := SortedKeys(ks - {k});
      assert |ks - {k}| == |ks| - 1;
      assert k !in rest;
      [k] + rest
  }

  /** The keys stand in ascending byte order. */
  lemma {:induction false} SortedKeysAscend(ks: set<string>)
    ensures Ascending(SortedKeys(ks))
    decreases |ks|
  {
    if ks != {} {
      var k := Least(ks);
      var rest := SortedKeys(ks - {k});
      SortedKeysAscend(ks - {k});
      assert SortedKeys(ks) == [k] + rest;
      hide SortedKeys;
      LeastFirst(k, rest);
    }
  }

  lemma LeastFirst(k: string, rest: seq<string>)
    requires Ascending(rest) && forall x :: x in rest ==> Less(k, x)
    ensures Ascending([k] + rest)
  {
    hide Less, Before;
    var r := [k] + rest;
    forall i, j | 0 <= i < j < |r| ensures Before(r[i], r[j]) {
      assert r[j] == rest[j - 1];
      if i == 0 { LessIsBefore(k, r[j]); }
    }
  }

  // ---------- small string helpers ----------

  predicate At(s: string, i: int, sub: string) {
    0 <= i <= |s| - |sub| && s[i..i + |sub|] == sub
  }

  ghost predicate Contains(s: string, sub: string) {
    exists i :: At(s, i, sub)
  }

  // ---------- decimal numerals ----------

  function Digit(d: nat): char requires d < 10 { '0' + d as char }

  predicate IsDigit(c: char) { '0' <= c <= '9' }

  predicate Digits(s: string) { forall i :: 0 <= i < |s| ==> IsDigit(s[i]) }

  function DigitValue(c: char): nat requires IsDigit(c) { c as int - '0' as int }

  /** Decimal rendering of a natural number, as `strconv` writes it. */
  function Natural(n: nat): (s: string)
    ensures s != "" && Digits(s)
    ensures n == 0 || s[0] != '0'
    ensures n < 10 ==> |s| == 1
  {
    if n < 10 then [Digit(n)] else Natural(n / 10) + [Digit(n % 10)]
  }

  function Decimal(n: int): string { if n < 0 then "-" + Natural(-n) else Natural(n) }

  function NaturalValue(s: string): nat
    requires Digits(s)
  {
    if s == "" then 0 else 10 * NaturalValue(s[..|s| - 1]) + DigitValue(s[|s| - 1])
  }

  lemma {:induction false} NaturalRoundTrip(n: nat)
    ensures NaturalValue(Natural(n)) == n
  {
    if n >= 10 {
      NaturalRoundTrip(n / 10);
      var s := Natural(n);
      assert s[..|s| - 1] == Natural(n / 10);
    } else {
      assert Natural(n)[..0] == "";
    }
  }

  /** One more element costs at most one more digit. */
  lemma {:induction false} NaturalGrowsSlowly(n: nat)
    ensures |Natural(n)| <= |Natural(n + 1)| <= |Natural(n)| + 1
  {
    if n >= 10 {
      NaturalGrowsSlowly(n / 10);
      assert (n + 1) / 10 == n / 10 || (n + 1) / 10 == n / 10 + 1;
    }
  }

  /** An integer literal as Go's decoder reads it into an `int`: no fraction, no exponent. */
  function IntValue(lit: string): Option<int> {
    if lit != "" && Digits(lit) then Some(NaturalValue(lit))
    else if |lit| > 1 && lit[0] == '-' && Digits(lit[1..]) then
      Some(-(NaturalValue(lit[1..]) as int))
    else None
  }

  lemma IntValueOfDigits(s: string)
    requires s != "" && Digits(s)
    ensures IntValue(s) == Some(NaturalValue(s))
    ensures IntValue("-" + s) == Some(-(NaturalValue(s) as int))
  {
    var neg := "-" + s;
    assert neg[1..] == s;
    assert !IsDigit(neg[0]);
  }

  /** A numeral is zero exactly when all its digits are. */
  lemma {:induction false} NaturalZero(s: string)
    requires Digits(s)
    ensures NaturalValue(s) == 0 <==> forall i :: 0 <= i < |s| ==> s[i] == '0'
    decreases |s|
  {
    if s != "" {
      var last := |s| - 1;
      NaturalZero(s[..last]);
      assert forall i :: 0 <= i < last ==> s[..last][i] == s[i];
      assert DigitValue(s[last]) == 0 <==> s[last] == '0';
    }
  }

  lemma IntRoundTrip(n: int)
    ensures IntValue(Decimal(n)) == Some(n)
  {
    var m: nat := if n < 0 then -n else n;
    NaturalRoundTrip(m);
    IntValueOfDigits(Natural(m));
  }
}
