/** The characters a printed document is made of. */
module JsonText {
  import opened Text
  import opened Json
  import opened JsonProofs

  /** No control characters, so in particular no line ends. */
  ghost predicate Plain(s: string) { forall i :: 0 <= i < |s| ==> s[i] >= ' ' }

  lemma PlainEscape1(c: char)
    ensures Plain(EscapeByte(c))
  {
  }

  lemma {:induction false} PlainEscape(s: string)
    ensures Plain(Escape(s))
    decreases |s|
  {
    if s == "" {
    } else if LineSeparator(s) {
      PlainEscape(s[3..]);
    } else {
      PlainEscape1(s[0]);
      PlainEscape(s[1..]);
    }
  }

  lemma PlainQuote(s: string)
    ensures Plain(Quote(s))
  {
    PlainEscape(s);
  }

  /** A document printed on one line holds no control character. */
  lemma {:induction false} PlainEncode(v: Json)
    requires WellFormed(v)
    ensures Plain(Encode(v))
    decreases v
  {
    hide Quote, ValidNumber, EncodeElems, EncodeFields;
    match v
    case Num(lit) => ValidNumberChars(lit);
    case Str(s) => PlainQuote(s);
    case Arr(es) => PlainElems(es);
    case Obj(m) => PlainObject(v, SortedKeys(m.Keys));
    case _ =>
  }

  lemma {:induction false} PlainElems(es: seq<Json>)
    requires forall i :: 0 <= i < |es| ==> WellFormed(es[i])
    ensures Plain(EncodeElems(es))
    decreases es
  {
    if es != [] {
      PlainEncode(es[0]);
      PlainElems(es[1..]);
    }
  }

  lemma {:induction false} PlainObject(v: Json, ks: seq<string>)
    requires v.Obj? && WellFormed(v) && forall i :: 0 <= i < |ks| ==> ks[i] in v.fields
    ensures Plain(EncodeObject(v, ks, COMPACT))
    decreases v, |ks|, 1
  {
    hide EncodeFields;
    PlainFields(v, ks);
  }

  lemma {:induction false} PlainFields(v: Json, ks: seq<string>)
    requires v.Obj? && WellFormed(v) && forall i :: 0 <= i < |ks| ==> ks[i] in v.fields
    ensures Plain(EncodeFields(v, ks, COMPACT))
    decreases v, |ks|, 0
  {
    hide Quote, Encode;
    if ks != [] {
      PlainQuote(ks[0]);
      PlainEncode(v.fields[ks[0]]);
      PlainFields(v, ks[1..]);
    }
  }

  /** Every line end is followed by an indented line or the closing brace. */
  ghost predicate Folded(s: string) {
    forall i :: 0 <= i < |s| && s[i] == '\n' ==> Indent(s, i + 1)
  }

  ghost predicate Indent(s: string, j: int) { 0 <= j < |s| && (s[j] == ' ' || s[j] == '}') }

  lemma FoldedJoin(a: string, b: string)
    requires Folded(a) && Folded(b)
    ensures Folded(a + b)
  {
    var s := a + b;
    forall i | 0 <= i < |s| && s[i] == '\n' ensures Indent(s, i + 1) {
      if i < |a| { assert a[i] == '\n'; assert Indent(a, i + 1); }
      else { assert b[i - |a|] == '\n'; assert Indent(b, i - |a| + 1); }
    }
  }

  lemma PlainIsFolded(s: string)
    requires Plain(s)
    ensures Folded(s)
  {
  }

  lemma {:induction false} FoldedFields(v: Json, ks: seq<string>)
    requires v.Obj? && WellFormed(v) && forall i :: 0 <= i < |ks| ==> ks[i] in v.fields
    ensures Folded(EncodeFields(v, ks, INDENTED))
    decreases |ks|
  {
    hide Quote, Encode, Folded, Plain;
    if ks != [] {
      var q, x := Quote(ks[0]), Encode(v.fields[ks[0]]);
      PlainQuote(ks[0]);
      PlainEncode(v.fields[ks[0]]);
      PlainIsFolded(q);
      PlainIsFolded(x);
      Seams();
      FoldedJoin("\n  ", q);
      FoldedJoin("\n  " + q, ":");
      FoldedJoin("\n  " + q + ":", " ");
      FoldedJoin("\n  " + q + ":" + " ", x);
      var member := "\n  " + q + ":" + " " + x;
      if |ks| > 1 {
        FoldedFields(v, ks[1..]);
        FoldedJoin(member, ",");
        FoldedJoin(member + ",", EncodeFields(v, ks[1..], INDENTED));
      }
    } else {
      Seams();
    }
  }

  lemma Seams()
    ensures Folded("") && Folded("\n  ") && Folded(":") && Folded(" ") && Folded(",") && Folded("{") && Folded("\n}")
  {
  }

  /** An indented object ends in its brace, and each of its line ends is followed by a space or
      that brace. */
  lemma FoldedObject(v: Json, ks: seq<string>)
    requires v.Obj? && WellFormed(v) && ks != [] && forall i :: 0 <= i < |ks| ==> ks[i] in v.fields
    ensures var text := EncodeObject(v, ks, INDENTED); Folded(text) && text != "" && text[|text| - 1] == '}'
  {
    hide EncodeFields, Folded;
    var fields := EncodeFields(v, ks, INDENTED);
    FoldedFields(v, ks);
    Seams();
    FoldedJoin("{", fields);
    FoldedJoin("{" + fields, "\n}");
    assert "{" + fields + "\n" + "}" == "{" + fields + "\n}";
  }
}
