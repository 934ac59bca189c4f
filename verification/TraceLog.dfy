/** The invocation log and its numbered backups (internal/trace/trace.go).
    File 0 is the live log, file `i` its `i`-th backup; a file is the records in it. */
module TraceLog {
  import opened Text

  type Files = map<nat, seq<string>>

  /** Bytes of a file: every record and its line end. */
  function Size(records: seq<string>): nat {
    if records == [] then 0 else Size(records[..|records| - 1]) + |records[|records| - 1]| + 1
  }

  function FileOf(files: Files, i: nat): seq<string> { if i in files then files[i] else [] }

  predicate Full(files: Files, max: nat) { 0 in files && Size(files[0]) > max }

  /** `rotate`: a live log over the limit becomes backup 1, every backup moves up by one and the
      last is dropped. */
  function Rotated(files: Files, backups: nat, max: nat): Files {
    if !Full(files, max) then files else map i: nat | 1 <= i <= backups && Follows(files, i) :: files[i - 1]
  }

  predicate Follows(files: Files, i: nat) { i >= 1 && i - 1 in files }

  function Appended(files: Files, backups: nat, max: nat, record: string): Files {
    var f := Rotated(files, backups, max);
    f[0 := FileOf(f, 0) + [record]]
  }

  class Log {
    const backups: nat
    const max: nat
    var files: Files

    constructor (backups: nat, max: nat)
      ensures this.backups == backups && this.max == max && files == map[]
    {
      this.backups, this.max, files := backups, max, map[];
    }

    /** `os.Rename`, whose failure on a missing file is ignored. */
    method Rename(a: nat, b: nat)
      requires a != b
      modifies this`files
      ensures files == Renamed(old(files), a, b)
    {
      if a in files { files := (files - {a})[b := files[a]]; }
    }

    method Rotate()
      requires backups >= 1 && forall i :: i in files ==> i <= backups
      modifies this`files
      ensures files == Rotated(old(files), backups, max)
    {
      hide Size, Shifting, Rotated, Renamed, Follows;
      ghost var was := files;
      NothingMoved(was, backups, max);
      if !(0 in files && Size(files[0]) > max) { return; }
      files := files - {backups};
      FirstRemoved(was, backups);
      var i := backups - 1;
      while i >= 1
        invariant 0 <= i < backups && Shifting(was, files, backups, i)
      {
        MovedUp(was, files, backups, i);
        Rename(i, i + 1);
        i := i - 1;
      }
      LastMoved(was, files, backups, max);
      Rename(0, 1);
    }

    /** `Append` */
    method Append(record: string)
      requires backups >= 1 && forall i :: i in files ==> i <= backups
      modifies this`files
      ensures files == Appended(old(files), backups, max, record)
    {
      Rotate();
      files := files[0 := FileOf(files, 0) + [record]];
    }
  }

  // ---------- the renaming loop ----------

  function Renamed(files: Files, a: nat, b: nat): Files {
    if a in files then (files - {a})[b := files[a]] else files
  }

  /** The files above `i + 1` have moved up, `i + 1` is free, the others are where they were. */
  ghost predicate Shifting(was: Files, files: Files, backups: nat, i: nat) {
    && i + 1 !in files && (forall j :: j in files ==> j <= backups)
    && (forall j: nat :: j <= i ==> (j in files <==> j in was) && (j in files ==> files[j] == was[j]))
    && (forall j: nat :: i + 2 <= j <= backups ==>
         (j in files <==> Follows(was, j)) && (j in files ==> files[j] == was[j - 1]))
  }

  lemma NothingMoved(was: Files, backups: nat, max: nat)
    ensures !Full(was, max) ==> Rotated(was, backups, max) == was
  {
  }

  lemma FirstRemoved(was: Files, backups: nat)
    requires backups >= 1 && forall i :: i in was ==> i <= backups
    ensures Shifting(was, was - {backups}, backups, backups - 1)
  {
  }

  lemma MovedUp(was: Files, files: Files, backups: nat, i: nat)
    requires 1 <= i < backups && Shifting(was, files, backups, i)
    ensures Shifting(was, Renamed(files, i, i + 1), backups, i - 1)
  {
    var t := Renamed(files, i, i + 1);
    forall j: nat | i + 1 <= j <= backups ensures (j in t <==> Follows(was, j)) && (j in t ==> t[j] == was[j - 1]) {
      if j == i + 1 { assert i in files <==> i in was; }
    }
  }

  lemma LastMoved(was: Files, files: Files, backups: nat, max: nat)
    requires backups >= 1 && Full(was, max) && Shifting(was, files, backups, 0)
    ensures Renamed(files, 0, 1) == Rotated(was, backups, max)
  {
    hide Size;
    var t := Renamed(files, 0, 1);
    forall j: nat ensures j in t <==> 1 <= j <= backups && Follows(was, j) {
      if j == 0 { assert j !in t; }
    }
  }

  // ---------- any run of appends ----------

  function Run(backups: nat, max: nat, records: seq<string>): Files {
    if records == [] then map[]
    else Appended(Run(backups, max, records[..|records| - 1]), backups, max, records[|records| - 1])
  }

  /** The records from file `k` down to the live log. */
  function From(files: Files, k: nat): seq<string> {
    if k == 0 then FileOf(files, 0) else FileOf(files, k) + From(files, k - 1)
  }

  /** The files without gaps, every backup over the limit. */
  ghost predicate Stacked(files: Files, backups: nat, max: nat) {
    && (forall i :: i in files ==> i <= backups)
    && (forall i: nat :: 1 <= i && i in files ==> Size(files[i]) > max)
    && (forall i, j: nat :: 1 <= i <= j && j in files ==> i in files)
  }

  lemma {:induction false} FromShifts(files: Files, backups: nat, max: nat, k: nat)
    requires Full(files, max) && k < backups
    ensures From(Rotated(files, backups, max), k + 1) == From(files, k)
    decreases k
  {
    hide Size, Full;
    var f := Rotated(files, backups, max);
    RotatedAt(files, backups, max, k);
    if k > 0 {
      FromShifts(files, backups, max, k - 1);
    } else {
      assert From(f, 1) == FileOf(f, 1) + FileOf(f, 0);
      RotatedLive(files, backups, max);
    }
  }

  lemma RotatedAt(files: Files, backups: nat, max: nat, k: nat)
    requires Full(files, max) && k < backups
    ensures FileOf(Rotated(files, backups, max), k + 1) == FileOf(files, k)
    ensures k + 1 in Rotated(files, backups, max) <==> k in files
  {
    hide Size, Full;
  }

  lemma RotatedLive(files: Files, backups: nat, max: nat)
    requires Full(files, max)
    ensures FileOf(Rotated(files, backups, max), 0) == []
  {
    hide Size, Full;
  }

  /** Rotation drops the last backup and nothing else. */
  lemma RotationDrops(files: Files, backups: nat, max: nat)
    requires backups >= 1
    ensures var f := Rotated(files, backups, max);
            From(files, backups) == (if Full(files, max) then FileOf(files, backups) else []) + From(f, backups)
  {
    hide Size, Full;
    if Full(files, max) { FromShifts(files, backups, max, backups - 1); }
  }

  lemma {:induction false} FromAppends(files: Files, k: nat, record: string)
    ensures From(files[0 := FileOf(files, 0) + [record]], k) == From(files, k) + [record]
  {
    if k > 0 {
      FromAppends(files, k - 1, record);
      assert FileOf(files[0 := FileOf(files, 0) + [record]], k) == FileOf(files, k);
    }
  }

  lemma StackedRotates(files: Files, backups: nat, max: nat)
    requires Stacked(files, backups, max)
    ensures Stacked(Rotated(files, backups, max), backups, max)
    ensures Full(files, max) && backups >= 1 ==> 1 in Rotated(files, backups, max)
    ensures Full(files, max) && backups in files && backups >= 1 ==> backups in Rotated(files, backups, max)
    ensures !Full(files, max) ==> Rotated(files, backups, max) == files
  {
    hide Size;
    if Full(files, max) && backups in files && backups > 1 {
      RotatedAt(files, backups, max, backups - 1);
    }
  }

  lemma StackedAppends(files: Files, backups: nat, max: nat, record: string)
    requires Stacked(files, backups, max)
    ensures Stacked(files[0 := FileOf(files, 0) + [record]], backups, max)
  {
    hide Size;
  }

  lemma {:induction false} SuffixStep(backups: nat, max: nat, records: seq<string>) returns (dropped: nat)
    requires backups >= 1
    ensures Stacked(Run(backups, max, records), backups, max)
    ensures dropped <= |records| && From(Run(backups, max, records), backups) == records[dropped..]
    ensures dropped > 0 ==> backups in Run(backups, max, records)
    decreases |records|
  {
    hide Size, Full, Rotated, From, Stacked;
    dropped := 0;
    if records == [] {
      NothingThere(backups);
      NothingStacked(backups, max);
    } else {
      hide Appended;
      var last := |records| - 1;
      var init, r := records[..last], records[last];
      var d := SuffixStep(backups, max, init);
      dropped := OneAppend(Run(backups, max, init), backups, max, init, d, r);
      assert records == init + [r];
    }
  }

  lemma OneAppend(files: Files, backups: nat, max: nat, init: seq<string>, d: nat, r: string) returns (dropped: nat)
    requires backups >= 1 && Stacked(files, backups, max) && d <= |init| && From(files, backups) == init[d..]
    requires d > 0 ==> backups in files
    ensures var t := Appended(files, backups, max, r);
            && Stacked(t, backups, max)
            && dropped <= |init| && From(t, backups) == (init + [r])[dropped..]
            && (dropped > 0 ==> backups in t)
  {
    hide Size, Full, Rotated, From, Stacked;
    var f := Rotated(files, backups, max);
    StackedRotates(files, backups, max);
    StackedAppends(f, backups, max, r);
    RotationDrops(files, backups, max);
    FromAppends(f, backups, r);
    var gone := if Full(files, max) then FileOf(files, backups) else [];
    dropped := d + |gone|;
    TailOf(init, d, gone, From(f, backups));
    assert (init + [r])[dropped..] == init[dropped..] + [r];
  }

  lemma TailOf(all: seq<string>, d: nat, gone: seq<string>, rest: seq<string>)
    requires d <= |all| && all[d..] == gone + rest
    ensures d + |gone| <= |all| && all[d + |gone|..] == rest
  {
    assert |all| - d == |gone| + |rest|;
    assert all[d..][|gone|..] == rest;
    assert all[d..][|gone|..] == all[d + |gone|..];
  }

  lemma NothingStacked(backups: nat, max: nat)
    ensures Stacked(map[], backups, max)
  {
  }

  lemma FullBackups(files: Files, backups: nat, max: nat)
    requires Stacked(files, backups, max) && backups in files
    ensures forall i: nat :: 1 <= i <= backups ==> i in files && Size(files[i]) > max
  {
    hide Size;
  }

  lemma {:induction false} NewestIsLive(backups: nat, max: nat, records: seq<string>)
    requires records != []
    ensures Newest(FileOf(Run(backups, max, records), 0), records[|records| - 1])
  {
    hide Rotated;
  }

  predicate Newest(live: seq<string>, record: string) { live != [] && live[|live| - 1] == record }

  /** What a run of appends leaves, oldest backup to live log, is all the records from some point on:
      each whole, none missing, none out of order, the newest always there.  Once something was
      dropped, every backup is there and over the size limit. */
  lemma RunIsSuffix(backups: nat, max: nat, records: seq<string>) returns (dropped: nat)
    requires backups >= 1
    ensures dropped <= |records| && From(Run(backups, max, records), backups) == records[dropped..]
    ensures dropped > 0 ==> forall i: nat :: 1 <= i <= backups ==>
              i in Run(backups, max, records) && Size(Run(backups, max, records)[i]) > max
    ensures records != [] ==> Newest(FileOf(Run(backups, max, records), 0), records[|records| - 1])
  {
    if records != [] { NewestIsLive(backups, max, records); }
    hide Size, From, Run, Stacked;
    dropped := SuffixStep(backups, max, records);
    if dropped > 0 { FullBackups(Run(backups, max, records), backups, max); }
  }

  // ---------- sizes ----------

  /** The bytes of a file. */
  function Bytes(records: seq<string>): string {
    if records == [] then "" else records[0] + "\n" + Bytes(records[1..])
  }

  lemma {:induction false} BytesLast(records: seq<string>)
    requires records != []
    ensures Bytes(records) == Bytes(records[..|records| - 1]) + (records[|records| - 1] + "\n")
  {
    if |records| > 1 {
      BytesLast(records[1..]);
      assert records[1..][..|records| - 2] == records[..|records| - 1][1..];
      Regroup(records[0] + "\n", Bytes(records[1..|records| - 1]), records[|records| - 1] + "\n");
      assert records[1..][..|records| - 2] == records[1..|records| - 1];
    } else {
      assert records[1..] == [] && records[..0] == [];
      assert records[0] + "\n" + "" == "" + (records[0] + "\n");
    }
  }

  lemma Regroup(a: string, b: string, c: string)
    ensures a + (b + c) == a + b + c
  {
  }

  lemma {:induction false} SizeIs(records: seq<string>)
    ensures Size(records) == |Bytes(records)|
    decreases |records|
  {
    if records != [] {
      SizeIs(records[..|records| - 1]);
      BytesLast(records);
    }
  }

  /** No file is over the limit without its newest record. */
  ghost predicate Bounded(files: Files, max: nat) {
    forall i :: i in files ==> files[i] != [] && Size(files[i][..|files[i]| - 1]) <= max
  }

  /** After any run of appends the live log and every backup would be within the limit without their newest
      record: a rotation never comes late. */
  lemma {:induction false} SizesAreBounded(backups: nat, max: nat, records: seq<string>)
    requires backups >= 1
    ensures Bounded(Run(backups, max, records), max)
    decreases |records|
  {
    if records != [] {
      var last := |records| - 1;
      var files, r := Run(backups, max, records[..last]), records[last];
      SizesAreBounded(backups, max, records[..last]);
      AppendBounded(files, backups, max, r);
    }
  }

  lemma AppendBounded(files: Files, backups: nat, max: nat, r: string)
    requires backups >= 1 && Bounded(files, max)
    ensures Bounded(Appended(files, backups, max, r), max)
  {
    NothingSized();
    RotatedBounded(files, backups, max);
    var f := Rotated(files, backups, max);
    hide Size, Rotated;
    var live := FileOf(f, 0) + [r];
    assert live[..|live| - 1] == FileOf(f, 0);
  }

  lemma RotatedBounded(files: Files, backups: nat, max: nat)
    requires Bounded(files, max)
    ensures Bounded(Rotated(files, backups, max), max) && !Full(Rotated(files, backups, max), max)
  {
    hide Size;
  }

  lemma NothingSized()
    ensures Size([]) == 0
  {
  }

  lemma {:induction false} NothingThere(k: nat)
    ensures From(map[], k) == []
  {
    if k > 0 { NothingThere(k - 1); }
  }
}
