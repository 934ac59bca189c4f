/** The review queue: one line of JSON per captured note, in one file per project
    (internal/memory/notes.go). */
module Reviews {
  import opened Text
  import opened Json
  import opened JsonProofs
  import opened JsonText
  import opened Lines
  import opened Fields

  datatype Review = Review(id: string, project: string, title: string, text: string, reason: seq<string>,
                           createdAt: int)

  function Strings(xs: seq<string>): seq<Json> { seq(|xs|, i requires 0 <= i < |xs| => Str(xs[i])) }

  function ReviewJson(e: Review): Json {
    Obj(map["id" := Str(e.id), "project" := Str(e.project), "title" := Str(e.title), "text" := Str(e.text),
            "reason" := Arr(Strings(e.reason)), "created_at" := Num(Decimal(e.createdAt))])
  }

  /** The members that are written: an empty text and an empty list of reasons are left out. */
  function Members(e: Review): seq<string> {
    ["id", "project", "title"] + (if e.text == "" then [] else ["text"]) + (if e.reason == [] then [] else ["reason"])
    + ["created_at"]
  }

  lemma MembersPresent(e: Review)
    ensures forall i :: 0 <= i < |Members(e)| ==> Members(e)[i] in ReviewJson(e).fields
    ensures Members(e) != []
  {
  }

  function EncodeReview(e: Review): string {
    MembersPresent(e);
    EncodeObject(ReviewJson(e), Members(e), COMPACT)
  }

  function ReviewLine(e: Review): string { EncodeReview(e) + "\n" }

  /** A list of strings; a null element is the empty string. */
  function StringsOf(es: seq<Json>): Option<seq<string>> {
    if es == [] then Some([])
    else
      match (es[0], StringsOf(es[1..]))
      case (Str(s), Some(rest)) => Some([s] + rest)
      case (Null, Some(rest)) => Some([""] + rest)
      case _ => None
  }

  function ListOf(m: map<string, Json>, k: string): Option<seq<string>> {
    if k !in m || m[k].Null? then Some([])
    else if m[k].Arr? then StringsOf(m[k].elems)
    else None
  }

  function ReviewOf(v: Json): Option<Review> {
    match v
    case Null => Some(Review("", "", "", "", [], 0))
    case Obj(m) =>
      (match (StrOf(m, "id"), StrOf(m, "project"), StrOf(m, "title"), StrOf(m, "text"))
       case (Some(id), Some(project), Some(title), Some(text)) =>
         (match (ListOf(m, "reason"), IntOf(m, "created_at"))
          case (Some(reason), Some(created)) => Some(Review(id, project, title, text, reason, created))
          case _ => None)
       case _ => None)
    case _ => None
  }

  /** What a line of the queue holds; nothing for a blank or an unreadable one. */
  function ParseReview(line: string): Option<Review> {
    if White(line) then None
    else
      match Decode(line)
      case Some(v) => ReviewOf(v)
      case None => None
  }

  function PendingOf(lines: seq<string>): seq<Review> {
    if lines == [] then []
    else (match ParseReview(lines[0]) case Some(e) => [e] case None => []) + PendingOf(lines[1..])
  }

  /** The entries of one queue file, in order. */
  function Pending(text: string): seq<Review> { PendingOf(LinesOf(text)) }

  /** The first entry with the id. */
  function FirstWith(es: seq<Review>, id: string): Option<Review> {
    if es == [] then None else if es[0].id == id then Some(es[0]) else FirstWith(es[1..], id)
  }

  /** The entries that do not have the id. */
  function Without(es: seq<Review>, id: string): seq<Review> {
    if es == [] then [] else (if es[0].id == id then [] else [es[0]]) + Without(es[1..], id)
  }

  predicate Kept(line: string, id: string) {
    !White(line) && !(ParseReview(line).Some? && ParseReview(line).value.id == id)
  }

  function KeptLines(lines: seq<string>, id: string): seq<string> {
    if lines == [] then [] else (if Kept(lines[0], id) then [lines[0]] else []) + KeptLines(lines[1..], id)
  }

  // ---------- the loops ----------

  /** The search of `findReview` in one file. */
  method FindReview(text: string, id: string) returns (found: Option<Review>)
    ensures found == FirstWith(Pending(text), id)
  {
    hide White, Decode, ReviewOf;
    var rest := text;
    while true
      invariant FirstWith(PendingOf(LinesOf(text)), id) == FirstWith(PendingOf(LinesOf(rest)), id)
      decreases |rest|
    {
      var r := ReadLine(rest);
      LinesStep(rest);
      if r.line != "" {
        PendingStep(r.line, LinesOf(r.rest));
        FoundStep(r.line, PendingOf(LinesOf(r.rest)), id);
      }
      if !White(r.line) {
        match Decode(r.line) {
          case Some(v) =>
            var e := ReviewOf(v);
            if e.Some? && e.value.id == id { return e; }
          case None =>
        }
      }
      if r.eof { break; }
      rest := r.rest;
    }
    found := None;
  }

  /** `dropLine` on the text of one file. */
  method DropLine(text: string, id: string) returns (kept: string)
    ensures kept == Joined(KeptLines(LinesOf(text), id))
  {
    hide White, Decode, ReviewOf, ParseReview;
    kept := "";
    var rest := text;
    while true
      invariant Joined(KeptLines(LinesOf(text), id)) == kept + Joined(KeptLines(LinesOf(rest), id))
      decreases |rest|
    {
      var r := ReadLine(rest);
      LinesStep(rest);
      if r.line != "" { JoinStep(kept, r.line, LinesOf(r.rest), id); }
      if !White(r.line) {
        var e := ParseReview(r.line);
        if e.Some? && e.value.id == id {
        } else {
          kept := kept + r.line;
        }
      }
      if r.eof { break; }
      rest := r.rest;
    }
  }

  lemma LinesStep(s: string)
    ensures s != "" ==> LinesOf(s) == [ReadLine(s).line] + LinesOf(ReadLine(s).rest)
    ensures LinesOf("") == [] && Joined([]) == "" && PendingOf([]) == [] && White("")
    ensures s == "" ==> ReadLine(s).eof && ReadLine(s).line == ""
    ensures s != "" ==> |ReadLine(s).rest| < |s|
    ensures forall id :: KeptLines([], id) == [] && FirstWith([], id) == None
  {
  }

  lemma PendingStep(line: string, more: seq<string>)
    ensures PendingOf([line] + more) == (match ParseReview(line) case Some(e) => [e] case None => []) + PendingOf(more)
  {
    hide ParseReview;
    assert ([line] + more)[1..] == more;
  }

  lemma FoundStep(line: string, more: seq<Review>, id: string)
    ensures var e := ParseReview(line);
            FirstWith((match e case Some(x) => [x] case None => []) + more, id)
            == if e.Some? && e.value.id == id then e else FirstWith(more, id)
  {
    hide ParseReview;
    var e := ParseReview(line);
    if e.Some? { assert ([e.value] + more)[1..] == more; } else { assert [] + more == more; }
  }

  lemma JoinStep(kept: string, line: string, more: seq<string>, id: string)
    ensures KeptLines([line] + more, id) == (if Kept(line, id) then [line] else []) + KeptLines(more, id)
    ensures kept + Joined(KeptLines([line] + more, id))
         == (if Kept(line, id) then kept + line else kept) + Joined(KeptLines(more, id))
  {
    hide Kept;
    assert ([line] + more)[1..] == more;
    var tail := KeptLines(more, id);
    if Kept(line, id) {
      assert ([line] + tail)[1..] == tail;
      assert kept + (line + Joined(tail)) == kept + line + Joined(tail);
    } else {
      assert [] + tail == tail;
    }
  }
}
