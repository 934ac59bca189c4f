/** A note on disk: front matter in JSON, a separator, the body (internal/memory/notes.go). */
module NoteFile {
  import opened Text
  import opened Json
  import opened JsonProofs
  import opened JsonText
  import opened Lines
  import opened Fields

  datatype Note = Note(
    id: string, title: string, project: string, file: string, scope: string,
    createdAt: int, updatedAt: int, pinned: bool, body: string)

  const SEPARATOR := "\n---\n"
  const MEMBERS := ["id", "title", "project", "file", "scope", "created_at", "updated_at", "pinned"]

  function FrontMatter(n: Note): Json {
    Obj(map["id" := Str(n.id), "title" := Str(n.title), "project" := Str(n.project), "file" := Str(n.file),
            "scope" := Str(n.scope), "created_at" := Num(Decimal(n.createdAt)),
            "updated_at" := Num(Decimal(n.updatedAt)), "pinned" := Bool(n.pinned)])
  }

  /** The line end that closes a body without one. */
  function Ending(body: string): string { if body == "" || body[|body| - 1] != '\n' then "\n" else "" }

  /** `marshalNote` */
  function Marshal(n: Note): string {
    EncodeObject(FrontMatter(n), MEMBERS, INDENTED) + SEPARATOR + n.body + Ending(n.body)
  }

  lemma AtShift(s: string, i: int, sub: string)
    requires s != "" && i > 0
    ensures At(s, i, sub) <==> At(s[1..], i - 1, sub)
  {
    if i <= |s| - |sub| {
      var a, b := s[i..i + |sub|], s[1..][i - 1..i - 1 + |sub|];
      assert forall j :: 0 <= j < |sub| ==> a[j] == b[j];
    }
  }

  /** Where `sub` first occurs. */
  function Find(s: string, sub: string): (r: Option<nat>)
    ensures r.Some? ==> At(s, r.value, sub) && forall i :: 0 <= i < r.value ==> !At(s, i, sub)
    ensures r.None? ==> !Contains(s, sub)
  {
    if |s| < |sub| then None
    else if s[..|sub|] == sub then Some(0)
    else
      assert forall i :: 0 < i ==> (At(s, i, sub) <==> At(s[1..], i - 1, sub)) by {
        forall i | 0 < i ensures At(s, i, sub) <==> At(s[1..], i - 1, sub) { AtShift(s, i, sub); }
      }
      match Find(s[1..], sub)
      case Some(n) => Some(n + 1)
      case None => None
  }

  datatype Parsed = Parsed(note: Note) | NoSeparator | BadFrontMatter | MissingIdOrTitle

  /** `parseNoteFile` */
  function ParseNote(raw: string): Parsed {
    match Find(raw, SEPARATOR)
    case None => NoSeparator
    case Some(i) => FromParts(raw[..i], raw[i + |SEPARATOR|..])
  }

  function FromParts(front: string, rest: string): Parsed {
    match Decode(front)
    case Some(Null) => MissingIdOrTitle
    case Some(Obj(m)) =>
      (match (StrOf(m, "id"), StrOf(m, "title"), StrOf(m, "project"), StrOf(m, "file"), StrOf(m, "scope"))
       case (Some(id), Some(title), Some(project), Some(file), Some(scope)) =>
         (match (IntOf(m, "created_at"), IntOf(m, "updated_at"), BoolOf(m, "pinned"))
          case (Some(created), Some(updated), Some(pinned)) =>
            if id == "" || title == "" then MissingIdOrTitle
            else Parsed(Note(id, title, project, file, scope, created, updated, pinned, TrimNewline(rest)))
          case _ => BadFrontMatter)
       case _ => BadFrontMatter)
    case _ => BadFrontMatter
  }

  /** A note's file is its front matter, the separator, and the body with a line end at its end. */
  lemma MarshalEnds(n: Note) returns (front: string)
    ensures Marshal(n) == front + ("\n---\n" + if EndsInNewline(n.body) then n.body else n.body + "\n")
    ensures Decode(front) == Some(FrontMatter(n))
  {
    hide EncodeObject, Decode, FrontMatter;
    MarshalText(n);
    FrontMatterReads(n);
    front := EncodeObject(FrontMatter(n), MEMBERS, INDENTED);
    assert n.body + "" == n.body;
  }

  /** A text without the separator is no note; in any other the first one ends the front matter, and what is
      behind it, less one final line end, is the body. */
  lemma FirstSeparatorDivides(raw: string)
    ensures ParseNote(raw) == NoSeparator <==> !Contains(raw, "\n---\n")
    ensures forall i :: At(raw, i, "\n---\n") && (forall j :: 0 <= j < i ==> !At(raw, j, "\n---\n")) ==>
              ParseNote(raw) == FromParts(raw[..i], raw[i + 5..])
              && (ParseNote(raw).Parsed? ==> ParseNote(raw).note.body == TrimNewline(raw[i + 5..]))
  {
    hide Find, TrimNewline, Decode, IntOf, StrOf, BoolOf, At;
    forall i | At(raw, i, SEPARATOR) && (forall j :: 0 <= j < i ==> !At(raw, j, SEPARATOR))
      ensures Find(raw, SEPARATOR) == Some(i)
    {
      InText(raw, i, SEPARATOR);
      FindIsFirst(raw, i, SEPARATOR);
    }
  }

  lemma InText(s: string, i: int, sub: string)
    requires At(s, i, sub)
    ensures 0 <= i <= |s| - |sub|
  {
  }

  // ---------- the round trip ----------

  lemma FrontMatterWellFormed(n: Note)
    ensures WellFormed(FrontMatter(n))
    ensures forall i :: 0 <= i < |MEMBERS| ==> MEMBERS[i] in FrontMatter(n).fields
  {
    hide ValidNumber, Decimal;
    DecimalIsNumber(n.createdAt);
    DecimalIsNumber(n.updatedAt);
  }

  lemma FrontMatterReads(n: Note)
    ensures Decode(EncodeObject(FrontMatter(n), MEMBERS, INDENTED)) == Some(FrontMatter(n))
  {
    hide ParseValue, EncodeObject, WellFormed;
    var v := FrontMatter(n);
    FrontMatterWellFormed(n);
    LayoutsAreBlank();
    var text := EncodeObject(v, MEMBERS, INDENTED);
    ObjectRoundTrip(v, MEMBERS, INDENTED, "");
    assert text + "" == text;
    assert Select(v.fields, MEMBERS) == v.fields;
  }

  /** The separator a note is written with is the first one in its text: the front matter holds
      none, whatever the title, and one in the body comes later. */
  lemma FirstSeparator(front: string, rest: string)
    requires Folded(front) && front != "" && front[|front| - 1] != '\n'
    ensures Find(front + (SEPARATOR + rest), SEPARATOR) == Some(|front|)
  {
    hide Find, Folded, At;
    var s := front + (SEPARATOR + rest);
    SeparatorAt(front, rest);
    forall i | 0 <= i < |front| ensures !At(s, i, SEPARATOR) { NoSeparatorInside(front, rest, i); }
    FindIsFirst(s, |front|, SEPARATOR);
  }

  lemma SeparatorAt(front: string, rest: string)
    ensures At(front + (SEPARATOR + rest), |front|, SEPARATOR)
  {
  }

  lemma NoSeparatorInside(front: string, rest: string, i: nat)
    requires Folded(front) && i < |front| && front[|front| - 1] != '\n'
    ensures !At(front + (SEPARATOR + rest), i, SEPARATOR)
  {
    hide At;
    var s := front + (SEPARATOR + rest);
    if front[i] == '\n' {
      assert Indent(front, i + 1);
      assert s[i + 1] == front[i + 1];
      NotAt(s, i, SEPARATOR, 1);
    } else {
      NotAt(s, i, SEPARATOR, 0);
    }
  }

  lemma NotAt(s: string, i: int, sub: string, j: int)
    requires 0 <= j < |sub| && 0 <= i + j < |s| && s[i + j] != sub[j]
    ensures !At(s, i, sub)
  {
    if 0 <= i <= |s| - |sub| { assert s[i..i + |sub|][j] == s[i + j]; }
  }

  lemma FindIsFirst(s: string, k: nat, sub: string)
    requires At(s, k, sub) && forall i :: 0 <= i < k ==> !At(s, i, sub)
    ensures Find(s, sub) == Some(k)
  {
    hide Find, At;
    assert Find(s, sub).Some?;
  }

  predicate EndsInNewline(s: string) { s != "" && s[|s| - 1] == '\n' }

  /** What is written reads back: every field, and the body, which loses exactly its last line end if
      it ends in one and nothing otherwise.  Only a note without id or title is refused. */
  lemma RoundTrip(n: Note)
    requires Int64(n.createdAt) && Int64(n.updatedAt)
    ensures ParseNote(Marshal(n)) == if n.id == "" || n.title == "" then MissingIdOrTitle
                                     else Parsed(n.(body := TrimNewline(n.body)))
    ensures if EndsInNewline(n.body) then TrimNewline(n.body) + "\n" == n.body else TrimNewline(n.body) == n.body
  {
    BodySurvives(n.body);
    hide Find, Decode, EncodeObject, FromParts, WellFormed, Folded, Marshal, TrimNewline, FrontMatter;
    FrontMatterWellFormed(n);
    MarshalText(n);
    var front := EncodeObject(FrontMatter(n), MEMBERS, INDENTED);
    var rest := n.body + Ending(n.body);
    FoldedObject(FrontMatter(n), MEMBERS);
    FirstSeparator(front, rest);
    Cut(front, rest);
    FrontMatterReads(n);
    PartsRead(n, front, rest);
    EndingTrims(n.body);
  }

  lemma EndingTrims(body: string)
    ensures TrimNewline(body + Ending(body)) == TrimNewline(body)
  {
  }

  lemma MarshalText(n: Note)
    ensures FrontMatter(n).Obj? && (forall i :: 0 <= i < |MEMBERS| ==> MEMBERS[i] in FrontMatter(n).fields)
    ensures Marshal(n) == EncodeObject(FrontMatter(n), MEMBERS, INDENTED) + (SEPARATOR + (n.body + Ending(n.body)))
  {
    hide EncodeObject;
    Cat4(EncodeObject(FrontMatter(n), MEMBERS, INDENTED), SEPARATOR, n.body, Ending(n.body));
  }

  lemma Cut(front: string, rest: string)
    ensures var s := front + (SEPARATOR + rest); s[..|front|] == front && s[|front| + |SEPARATOR|..] == rest
  {
  }

  lemma PartsRead(n: Note, front: string, rest: string)
    requires Int64(n.createdAt) && Int64(n.updatedAt)
    requires Decode(front) == Some(FrontMatter(n))
    ensures FromParts(front, rest) == if n.id == "" || n.title == "" then MissingIdOrTitle
                                      else Parsed(n.(body := TrimNewline(rest)))
  {
    hide Decode, TrimNewline, FrontMatter, StrOf, IntOf, BoolOf;
    MembersRead(n);
  }

  lemma MembersRead(n: Note)
    requires Int64(n.createdAt) && Int64(n.updatedAt)
    ensures FrontMatter(n).Obj?
    ensures var m := FrontMatter(n).fields;
            && StrOf(m, "id") == Some(n.id) && StrOf(m, "title") == Some(n.title)
            && StrOf(m, "project") == Some(n.project) && StrOf(m, "file") == Some(n.file)
            && StrOf(m, "scope") == Some(n.scope) && BoolOf(m, "pinned") == Some(n.pinned)
            && IntOf(m, "created_at") == Some(n.createdAt) && IntOf(m, "updated_at") == Some(n.updatedAt)
  {
    hide Decimal, IntOf;
    var m := FrontMatter(n).fields;
    IntOfDecimal(m, "created_at", n.createdAt);
    IntOfDecimal(m, "updated_at", n.updatedAt);
  }

  lemma BodySurvives(body: string)
    ensures if EndsInNewline(body) then TrimNewline(body) + "\n" == body else TrimNewline(body) == body
  {
  }
}
