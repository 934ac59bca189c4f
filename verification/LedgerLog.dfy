/** The ledger's log: one line of JSON per entry, read back after a crash
    (internal/memory/ledger.go). */
module LedgerLog {
  import opened Text
  import opened Json
  import opened Lines
  import opened Fields
  import opened Names

  datatype Entry = Entry(number: int, ts: string, key: string, value: string)

  const KEYS := ["goal", "next", "done", "decisions", "open_questions"]

  predicate ValidKey(key: string) { key in KEYS }

  // ---------- lines ----------

  const MEMBERS := ["seq", "ts", "key", "value"]

  function EntryJson(e: Entry): Json {
    Obj(map["seq" := Num(Decimal(e.number)), "ts" := Str(e.ts), "key" := Str(e.key), "value" := Str(e.value)])
  }

  /** `json.Marshal` of an entry: its members in the order of the struct. */
  function EncodeEntry(e: Entry): string { EncodeObject(EntryJson(e), MEMBERS, COMPACT) }

  /** What `appendLine` writes. */
  function Line(e: Entry): string { EncodeEntry(e) + "\n" }

  function EntryOf(v: Json): Option<Entry> {
    match v
    case Null => Some(Entry(0, "", "", ""))
    case Obj(m) =>
      (match (IntOf(m, "seq"), StrOf(m, "ts"), StrOf(m, "key"), StrOf(m, "value"))
       case (Some(n), Some(ts), Some(key), Some(value)) => Some(Entry(n, ts, key, value))
       case _ => None)
    case _ => None
  }

  function ParseEntry(line: string): Option<Entry> {
    match Decode(line)
    case Some(v) => EntryOf(v)
    case None => None
  }

  // ---------- the log ----------

  /** Blank lines are skipped, an unreadable last line is dropped, an unreadable earlier line is an error. */
  function Parsed(lines: seq<string>): Option<seq<Entry>> {
    if lines == [] then Some([])
    else if White(lines[0]) then Parsed(lines[1..])
    else
      match ParseEntry(lines[0])
      case None => if |lines| == 1 then Some([]) else None
      case Some(e) =>
        match Parsed(lines[1..])
        case Some(es) => Some([e] + es)
        case None => None
  }

  function ReadLog(raw: string): Option<seq<Entry>> { Parsed(Split(TrimNewline(raw), '\n')) }

  function History(files: map<string, string>, p: string): Option<seq<Entry>> {
    if p in files then ReadLog(files[p]) else Some([])
  }

  function LastSeq(es: seq<Entry>): int { if es == [] then 0 else es[|es| - 1].number }

  datatype Outcome = Appended(entry: Entry) | BadProject | BadKey | EmptyValue | Unreadable | WriteFailed

  /** The file after `n` bytes of `line` were added to it. */
  function Extend(files: map<string, string>, p: string, line: string, n: nat): map<string, string> {
    files[p := (if p in files then files[p] else "") + (if n <= |line| then line[..n] else line)]
  }

  /** `fault` is the number of bytes that reached the file when the write failed. */
  function AppendSpec(files: map<string, string>, project: string, key: string, value: string, ts: string,
                      fault: Option<nat>)
    : (map<string, string>, Outcome)
  {
    match ValidProject(project)
    case None => (files, BadProject)
    case Some(p) =>
      if !ValidKey(key) then (files, BadKey)
      else if White(value) then (files, EmptyValue)
      else
        match History(files, p)
        case None => (files, Unreadable)
        case Some(es) =>
          var e := Entry(Wrap64(LastSeq(es) + 1), ts, key, value);
          match fault
          case Some(n) => (Extend(files, p, Line(e), n), WriteFailed)
          case None => (Extend(files, p, Line(e), |Line(e)|), Appended(e))
  }

  // ---------- what `Get` returns ----------

  const MARKER := "...truncated"

  function CapValue(v: string, max: int): string {
    if max <= 0 || RuneCount(v) <= max then v
    else if max <= |MARKER| then RunePrefix(v, max)
    else RunePrefix(v, max - |MARKER|) + MARKER
  }

  /** Later entries win. */
  function Fold(es: seq<Entry>): map<string, Entry> {
    if es == [] then map[] else Fold(es[..|es| - 1])[es[|es| - 1].key := es[|es| - 1]]
  }

  function Capped(m: map<string, Entry>, max: int): map<string, Entry> {
    map k | k in m :: m[k].(value := CapValue(m[k].value, max))
  }

  function Prepended(es: seq<Entry>, rest: Option<seq<Entry>>): Option<seq<Entry>> {
    match rest
    case Some(more) => Some(es + more)
    case None => None
  }

  lemma PrependedEmpty(es: seq<Entry>, rest: Option<seq<Entry>>)
    ensures es == [] ==> Prepended(es, rest) == rest
    ensures rest == Some([]) ==> Prepended(es, rest) == Some(es)
  {
    if rest.Some? { assert [] + rest.value == rest.value; }
    assert es + [] == es;
  }

  lemma PrependedStep(es: seq<Entry>, e: Entry, rest: Option<seq<Entry>>)
    ensures Prepended(es, Prepended([e], rest)) == Prepended(es + [e], rest)
  {
    if rest.Some? { assert es + ([e] + rest.value) == es + [e] + rest.value; }
  }

  lemma ParsedStep(lines: seq<string>)
    requires lines != []
    ensures Parsed(lines) == if White(lines[0]) then Parsed(lines[1..])
                             else if ParseEntry(lines[0]) == None then (if |lines| == 1 then Some([]) else None)
                             else Prepended([ParseEntry(lines[0]).value], Parsed(lines[1..]))
  {
    hide White, ParseEntry;
  }
}
