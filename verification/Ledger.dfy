/** The append-only ledger as an object (internal/memory/ledger.go). */
module Ledger {
  import opened Text
  import opened Lines
  import opened Fields
  import opened Names
  import opened LedgerLog
  import opened LedgerProofs

  class Ledger {
    var files: map<string, string>    // per project

    constructor ()
      ensures files == map[]
    {
      files := map[];
    }

    /** `readAll` */
    method ReadAll(p: string) returns (r: Option<seq<Entry>>)
      ensures r == History(files, p)
    {
      hide White, ParseEntry;
      if p !in files { return Some([]); }
      var lines := Split(TrimNewline(files[p]), '\n');
      var entries: seq<Entry> := [];
      var i := 0;
      assert lines[0..] == lines;
      PrependedEmpty(entries, Parsed(lines));
      while i < |lines|
        invariant 0 <= i <= |lines|
        invariant Parsed(lines) == Prepended(entries, Parsed(lines[i..]))
      {
        ParsedStep(lines[i..]);
        assert lines[i..][1..] == lines[i + 1..];
        var ln := lines[i];
        if !White(ln) {
          var e := ParseEntry(ln);
          if e == None {
            if i != |lines| - 1 { return None; }
            assert lines[i + 1..] == [];
          } else {
            PrependedStep(entries, e.value, Parsed(lines[i + 1..]));
            entries := entries + [e.value];
          }
        }
        i := i + 1;
      }
      assert lines[i..] == [];
      PrependedEmpty(entries, Some([]));
      r := Some(entries);
    }

    /** `Append`: complete, torn or refused, an append to intact files leaves its project's history as it was
        or longer by the new entry, and every other project alone. */
    method Append(project: string, key: string, value: string, ts: string, fault: Option<nat>)
      returns (outcome: Outcome)
      modifies this
      ensures (files, outcome) == AppendSpec(old(files), project, key, value, ts, fault)
      ensures AllIntact(old(files)) ==> SafeAppend(old(files), project, key, value, ts, files, outcome)
    {
      hide White, ReadLog, Line, Intact, SafeAppend;
      if AllIntact(files) { AppendIsSafe(files, project, key, value, ts, fault); }
      var p := ValidProject(project);
      if p == None { return BadProject; }
      if !ValidKey(key) { return BadKey; }
      if White(value) { return EmptyValue; }
      var es := ReadAll(p.value);
      if es == None { return Unreadable; }
      var last := 0;
      if |es.value| > 0 { last := es.value[|es.value| - 1].number; }
      var e := Entry(Wrap64(last + 1), ts, key, value);
      if fault.Some? {
        files := Extend(files, p.value, Line(e), fault.value);
        return WriteFailed;
      }
      files := Extend(files, p.value, Line(e), |Line(e)|);
      outcome := Appended(e);
    }

    /** `Get`: the last entry of every key, its value capped. */
    method Get(project: string, retrChars: int) returns (r: Option<map<string, Entry>>)
      ensures r == match ValidProject(project)
                   case None => None
                   case Some(p) =>
                     match History(files, p)
                     case None => None
                     case Some(es) => Some(Capped(Fold(es), retrChars))
      ensures r.Some? ==> LatestCapped(History(files, ValidProject(project).value).value, retrChars, r.value)
    {
      hide ReadLog, CapValue, LatestCapped, ValidProject, History, Fold;
      NothingFolded();
      var p := ValidProject(project);
      if p == None { return None; }
      var got := ReadAll(p.value);
      if got == None { return None; }
      var es := got.value;
      var out: map<string, Entry> := map[];
      for i := 0 to |es|
        invariant out == Fold(es[..i])
      {
        FoldStep(es, i);
        out := out[es[i].key := es[i]];
      }
      assert es[..|es|] == es;
      ghost var folded := out;
      var todo := out.Keys;
      while todo != {}
        invariant todo <= folded.Keys && out.Keys == folded.Keys
        invariant forall k :: k in folded ==>
          out[k] == if k in todo then folded[k] else folded[k].(value := CapValue(folded[k].value, retrChars))
        decreases |todo|
      {
        var k :| k in todo;
        out := out[k := out[k].(value := CapValue(out[k].value, retrChars))];
        todo := todo - {k};
      }
      assert out == Capped(folded, retrChars);
      CappedIsLatest(es, retrChars);
      r := Some(out);
    }
  }
}
