/** White space, runes and names, told by code points and characters. */
module TextLaws {
  import opened Text
  import opened Json
  import opened JsonLaws
  import opened Lines
  import opened Names

  // ---------- white space ----------

  /** The code points with the White_Space property of Unicode. */
  predicate SpacePoint(n: nat) {
    9 <= n <= 13 || n == 0x20 || n == 0x85 || n == 0xA0 || n == 0x1680 || 0x2000 <= n <= 0x200A
    || n == 0x2028 || n == 0x2029 || n == 0x202F || n == 0x205F || n == 0x3000
  }

  lemma SpacePointWidth(n: nat, rest: string)
    requires SpacePoint(n)
    ensures SpaceWidth(Utf8(n) + rest) == |Utf8(n)|
  {
  }

  /** A text starts with white space exactly when it starts with the bytes of such a code point. */
  lemma SpaceIs(s: string) returns (n: nat)
    ensures SpaceWidth(s) > 0 ==> SpacePoint(n) && Utf8(n) == s[..SpaceWidth(s)]
    ensures SpaceWidth(s) == 0 ==> forall m: nat :: SpacePoint(m) ==> !(Utf8(m) <= s)
  {
    n := 0x20;
    if SpaceWidth(s) == 1 {
      n := s[0] as int;
    } else if SpaceWidth(s) == 2 {
      n := s[1] as int;
      assert Utf8(n) == s[..2];
    } else if SpaceWidth(s) == 3 {
      n := (s[0] as int - 0xE0) * 0x1000 + (s[1] as int - 0x80) * 0x40 + (s[2] as int - 0x80);
      assert Utf8(n) == s[..3];
    } else {
      NoSpaceAhead(s);
    }
  }

  lemma NoSpaceAhead(s: string)
    requires SpaceWidth(s) == 0
    ensures forall m: nat :: SpacePoint(m) ==> !(Utf8(m) <= s)
  {
    forall m: nat | SpacePoint(m) ensures !(Utf8(m) <= s) {
      PointNotEmpty(m);
      if Utf8(m) <= s {
        assert s == Utf8(m) + s[|Utf8(m)|..];
        SpacePointWidth(m, s[|Utf8(m)|..]);
      }
    }
  }

  lemma PointNotEmpty(n: nat)
    requires n < 0x110000
    ensures Utf8(n) != ""
  {
  }

  lemma {:induction false} LeftTrimmed(s: string)
    ensures var t := TrimLeft(s);
            |t| <= |s| && s[|s| - |t|..] == t && White(s[..|s| - |t|]) && SpaceWidth(t) == 0
    decreases |s|
  {
    var w := SpaceWidth(s);
    if w == 0 {
      NothingIsWhite();
      assert s[..0] == "" && s[0..] == s;
    } else {
      hide SpaceWidth;
      LeftTrimmed(s[w..]);
      var n := |s| - |TrimLeft(s)|;
      WhiteGrows(s, w, n);
      hide White;
      assert s[n..] == s[w..][n - w..];
    }
  }

  lemma WhiteGrows(s: string, w: nat, n: nat)
    requires 0 < w == SpaceWidth(s) && w <= n <= |s| && White(s[w..][..n - w])
    ensures White(s[..n])
  {
    hide SpaceWidth;
    var a := s[..n];
    SpacePrefix(s, a);
    assert a[w..] == s[w..][..n - w];
  }

  lemma SpacePrefix(s: string, a: string)
    requires a <= s && |a| >= SpaceWidth(s)
    ensures SpaceWidth(s) > 0 ==> SpaceWidth(a) == SpaceWidth(s)
  {
  }

  lemma {:induction false} RightTrimmed(s: string)
    ensures var t := TrimRight(s);
            t <= s && White(s[|t|..]) && forall k :: 0 <= k < |t| ==> !White(t[k..] + s[|t|..])
    decreases |s|
  {
    hide White;
    if White(s) {
      assert s[0..] == s;
    } else {
      NothingIsWhite();
      RightTrimmed(s[1..]);
      var t, u := TrimRight(s), TrimRight(s[1..]);
      assert t == [s[0]] + u && s[|t|..] == s[1..][|u|..];
      forall k | 0 <= k < |t| ensures !White(t[k..] + s[|t|..]) {
        if k == 0 {
          assert t[0..] + s[|t|..] == s;
        } else {
          assert t[k..] == u[k - 1..];
        }
      }
    }
  }

  lemma NothingIsWhite()
    ensures White("")
  {
  }

  /** White space is what starts with a code point of white space and goes on with white space, and the empty
      text. */
  lemma WhiteIs(s: string)
    ensures White("") && (forall n: nat, rest :: SpacePoint(n) ==> (White(Utf8(n) + rest) <==> White(rest)))
    ensures s != "" && (forall n: nat :: SpacePoint(n) ==> !(Utf8(n) <= s)) ==> !White(s)
  {
    forall n: nat, rest | SpacePoint(n) ensures White(Utf8(n) + rest) <==> White(rest) {
      SpacePointWidth(n, rest);
      assert (Utf8(n) + rest)[|Utf8(n)|..] == rest;
      assert |Utf8(n)| > 0;
    }
    var n := SpaceIs(s);
    if SpaceWidth(s) > 0 { assert Utf8(n) <= s; }
  }

  /** What is left of a text lies between white space, starts with none, and no part of it belongs to the
      white space behind it. */
  lemma TrimSpaceIs(s: string) returns (a: string, b: string)
    ensures s == a + (TrimSpace(s) + b) && White(a) && White(b)
    ensures TrimSpace(s) != "" ==> SpaceWidth(TrimSpace(s) + b) == 0
    ensures forall k :: 0 <= k < |TrimSpace(s)| ==> !White(TrimSpace(s)[k..] + b)
  {
    hide White, TrimLeft, TrimRight, SpaceWidth;
    var u := TrimLeft(s);
    LeftTrimmed(s);
    RightTrimmed(u);
    a, b := s[..|s| - |u|], u[|TrimRight(u)|..];
    assert TrimRight(u) + b == u && a + u == s;
  }

  // ---------- runes ----------

  /** A code point is one whole rune, whatever follows. */
  lemma PointIsRune(n: nat, rest: string)
    requires n < 0x110000
    ensures RuneCount(Utf8(n) + rest) == 1 + RuneCount(rest)
    ensures WholeRunes(Utf8(n) + rest) <==> WholeRunes(rest)
    ensures RunePrefix(Utf8(n) + rest, 1) == Utf8(n)
  {
    Utf8Is(n);
    hide Utf8;
    var s := Utf8(n) + rest;
    assert s[0] == Utf8(n)[0];
    assert RuneWidth(s) == |Utf8(n)|;
    assert s[RuneWidth(s)..] == rest && s[..RuneWidth(s)] == Utf8(n);
    hide RuneWidth;
    NoRunes(rest, "");
    assert RunePrefix(rest, 0) == RunePrefix(rest, 0) + "";
    assert Utf8(n) + "" == Utf8(n);
  }

  // ---------- names ----------

  /** A project is its name without the white space around it, when that is not empty and holds no slash of
      either kind. */
  lemma ValidProjectIs(project: string)
    ensures ValidProject(project).Some? <==>
              TrimSpace(project) != "" && forall i :: 0 <= i < |TrimSpace(project)| ==> TrimSpace(project)[i] !in "/\\"
    ensures ValidProject(project).Some? ==> ValidProject(project).value == TrimSpace(project)
  {
    hide TrimSpace;
  }

  /** Only the 26 capital letters change, each to its small letter. */
  lemma LowerByteIs(c: char)
    ensures forall d: nat :: d < 26 && c == "ABCDEFGHIJKLMNOPQRSTUVWXYZ"[d] ==>
              LowerByte(c) == "abcdefghijklmnopqrstuvwxyz"[d]
    ensures c !in "ABCDEFGHIJKLMNOPQRSTUVWXYZ" ==> LowerByte(c) == c
  {
    forall d: nat | d < 26 && c == "ABCDEFGHIJKLMNOPQRSTUVWXYZ"[d]
      ensures LowerByte(c) == "abcdefghijklmnopqrstuvwxyz"[d]
    {
      Letter(d);
    }
    if 'A' <= c <= 'Z' { Letter(c as int - 'A' as int); }
  }

  lemma Letter(d: nat)
    requires d < 26
    ensures "ABCDEFGHIJKLMNOPQRSTUVWXYZ"[d] as int == 'A' as int + d
    ensures "abcdefghijklmnopqrstuvwxyz"[d] as int == 'a' as int + d
  {
  }

  /** A name ends in `.md` when that stands at its end. */
  lemma EndsMdIs(name: string)
    ensures EndsMd(name) <==> exists stem: string :: name == stem + ".md"
  {
    if EndsMd(name) { assert name == name[..|name| - 3] + ".md"; }
  }

  predicate SlugText(s: string) { forall i :: 0 <= i < |s| ==> 'a' <= s[i] <= 'z' || '0' <= s[i] <= '9' || s[i] == '-' }

  /** Of two neighbours at most one is a dash. */
  predicate SingleDashes(s: string) { forall i :: 0 <= i < |s| - 1 ==> s[i] != '-' || s[i + 1] != '-' }

  lemma {:induction false} SlugIs(s: string, dash: bool)
    ensures SlugText(Slug(s, dash)) && SingleDashes(Slug(s, dash))
    ensures dash && Slug(s, dash) != "" ==> Slug(s, dash)[0] != '-'
    decreases |s|
  {
    if s != "" {
      var plain := SlugChar(LowerByte(s[0]));
      SlugIs(s[1..], !plain);
    }
  }

  /** Lower-case letters, digits and single dashes between them stay as they are. */
  lemma {:induction false} SlugStays(s: string, dash: bool)
    requires SlugText(s) && SingleDashes(s) && (dash && s != "" ==> s[0] != '-')
    ensures Slug(s, dash) == s
    decreases |s|
  {
    if s != "" {
      SlugStays(s[1..], s[0] == '-');
      assert [s[0]] + s[1..] == s;
    }
  }

  lemma {:induction false} DashesTrimmed(s: string) returns (i: nat)
    ensures var t := TrimDashes(s);
            i + |t| <= |s| && t == s[i..i + |t|] && (t != "" ==> t[0] != '-' && t[|t| - 1] != '-')
            && (forall j :: 0 <= j < i ==> s[j] == '-') && (forall j :: i + |t| <= j < |s| ==> s[j] == '-')
    decreases |s|
  {
    i := 0;
    if s != "" && s[0] == '-' {
      i := DashesTrimmed(s[1..]);
      i := i + 1;
    } else if s != "" && s[|s| - 1] == '-' {
      i := DashesTrimmed(s[..|s| - 1]);
    }
  }

  /** The name of a note's file: at most 48 characters from the title, or `note` when there are none, a
      dash, the first 8 of the id, and the ending. */
  lemma FileNameIs(title: string, id: string) returns (slug: string)
    ensures FileName(title, id) == slug + "-" + id[..if |id| > 8 then 8 else |id|] + ".md"
    ensures 0 < |slug| <= 48 && SlugText(slug) && SingleDashes(slug) && slug[0] != '-'
    ensures var t := TrimSpace(title);
            0 < |t| <= 48 && SlugText(t) && SingleDashes(t) && t[0] != '-' && t[|t| - 1] != '-' ==> slug == t
  {
    hide TrimSpace, Slug, TrimDashes;
    var t := TrimSpace(title);
    var u := TrimDashes(Slug(t, false));
    SlugIs(t, false);
    var i := DashesTrimmed(Slug(t, false));
    slug := if Take(u, 48) == "" then "note" else Take(u, 48);
    if 0 < |t| <= 48 && SlugText(t) && SingleDashes(t) && t[0] != '-' && t[|t| - 1] != '-' {
      SlugStays(t, false);
      assert i == 0 && u == t;
    }
  }
}
