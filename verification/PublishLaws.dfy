/** What publishing a binary keeps, loses and restores, whichever of its operations fail. */
module PublishLaws {
  import opened Text
  import opened PublishSteps

  // ---------- the old binary ----------

  /** The bytes are at the target or retained beside it. */
  predicate Kept(files: Files, bytes: string) {
    (Target in files && files[Target] == bytes) || (Prev in files && files[Prev] == bytes)
  }

  /** From the operation `from` on, up to the operation `to`, the bytes are kept. */
  ghost predicate KeptFrom(log: seq<Files>, from: nat, to: int, bytes: string) {
    forall i :: from <= i < to && i < |log| ==> Kept(log[i], bytes)
  }

  lemma KeptJoin(log: seq<Files>, from: nat, mid: nat, to: int, bytes: string)
    requires KeptFrom(log, from, mid, bytes) && KeptFrom(log, mid, to, bytes)
    ensures KeptFrom(log, from, to, bytes)
  {
  }

  lemma KeptPrefix(a: seq<Files>, b: seq<Files>, from: nat, bytes: string)
    requires a <= b
    ensures KeptFrom(a, from, |a|, bytes) <==> KeptFrom(b, from, |a|, bytes)
  {
  }

  /** The target is there, its metadata cannot be read, and the rename that replaces it works. */
  predicate StatLies(h: Host, n: nat) { !h.fails(n) && h.fails(n + 1) && !h.fails(n + 2) && h.overwrites }

  lemma SwapKeeps(h: Host, fs: Fs, bytes: string)
    requires Target in fs.files && fs.files[Target] == bytes && Staged in fs.files
    ensures var (t, ok) := SwapSpec(h, fs);
            var lost := StatLies(h, |fs.log|) && fs.files[Staged] != bytes;
            && fs.log <= t.log
            && (KeptFrom(t.log, |fs.log|, |t.log|, bytes) <==> !lost)
            && (!lost ==> Kept(t.files, bytes) && (Prev in t.files ==> t.files[Prev] == bytes || !ok))
            && (lost ==> ok)
            && (ok ==> Target in t.files && t.files[Target] == fs.files[Staged] && Staged !in t.files)
            && t.log != [] && t.log[|t.log| - 1] == t.files && |t.log| > |fs.log|
  {
    var n := |fs.log|;
    assert KeptFrom(fs.log, n, n, bytes);
    hide KeptFrom;
    var (f1, cleared) := RemoveSpec(h, fs, Prev);
    KeptStep(fs, f1, n, bytes);
    if !cleared.RemoveFailed? {
      var (f2, present) := StatSpec(h, f1, Target);
      KeptStep(f1, f2, n, bytes);
      var (f3, retained) := if present then RenameSpec(h, f2, Target, Prev) else (f2, true);
      if present { KeptStep(f2, f3, n, bytes); }
      if retained { KeptStep(f3, RenameSpec(h, f3, Staged, Target).0, n, bytes); }
    }
  }

  lemma KeptStep(fs: Fs, t: Fs, from: nat, bytes: string)
    requires from <= |fs.log| && t.log == fs.log + [t.files]
    ensures KeptFrom(t.log, from, |t.log|, bytes) <==> KeptFrom(fs.log, from, |fs.log|, bytes) && Kept(t.files, bytes)
  {
    hide Kept;
    assert forall i :: 0 <= i < |fs.log| ==> t.log[i] == fs.log[i];
    assert t.log[|fs.log|] == t.files;
    if KeptFrom(t.log, from, |t.log|, bytes) {
      forall i | from <= i < |fs.log| ensures Kept(fs.log[i], bytes) { assert Kept(t.log[i], bytes); }
    }
  }

  lemma RollbackKeeps(h: Host, fs: Fs, bytes: string)
    requires Kept(fs.files, bytes) && (Prev in fs.files ==> fs.files[Prev] == bytes)
    ensures var t := RollbackSpec(h, fs).0;
            fs.log <= t.log && KeptFrom(t.log, |fs.log|, |t.log|, bytes) && Kept(t.files, bytes)
  {
  }

  /** The candidate is extracted, made executable and reports the pin. */
  predicate Accepted(h: Host, n: nat, pin: string, entry: string) {
    !h.fails(n) && !h.fails(n + 1) && (if h.fails(n + 2) then "" else h.version(Staged, entry)) == pin
  }

  /** Up to the swap only the staged file changes. */
  lemma BeforeSwap(h: Host, fs: Fs, pin: string, entry: string, torn: string)
    ensures var n := |fs.log|;
            var f1 := ExtractSpec(h, fs, entry, torn).0;
            var f2 := ChmodSpec(h, f1).0;
            var f3 := ProbeSpec(h, f2, Staged).0;
            var staged := fs.files[Staged := entry];
            Accepted(h, n, pin, entry) ==> f3 == Fs(staged, fs.log + [staged, staged, staged])
                                           && PublishSpec(h, fs, pin, entry, torn) == AfterSwap(h, SwapSpec(h, f3), pin)
  {
    var n := |fs.log|;
    if Accepted(h, n, pin, entry) {
      var staged := fs.files[Staged := entry];
      var f1 := Fs(staged, fs.log + [staged]);
      var f2 := Fs(staged, fs.log + [staged, staged]);
      var f3 := Fs(staged, fs.log + [staged, staged, staged]);
      assert f1.log + [staged] == f2.log && f2.log + [staged] == f3.log;
      assert ExtractSpec(h, fs, entry, torn) == (f1, true);
      assert ChmodSpec(h, f1) == (f2, true);
      assert ProbeSpec(h, f2, Staged) == (f3, pin);
      hide SwapSpec, RollbackSpec, RemoveSpec;
    }
  }

  /** A candidate that is not accepted never reaches the target. */
  lemma RejectedEarly(h: Host, fs: Fs, pin: string, entry: string, torn: string, bytes: string)
    requires Kept(fs.files, bytes) && !Accepted(h, |fs.log|, pin, entry)
    ensures var (t, v) := PublishSpec(h, fs, pin, entry, torn);
            v.Refused? && fs.log <= t.log && KeptFrom(t.log, |fs.log|, |t.log|, bytes)
            && t.files - {Staged} == fs.files - {Staged}
  {
    hide SwapSpec, RollbackSpec, AfterSwap, RemoveSpec, Kept, KeptFrom;
    var f1 := ExtractSpec(h, fs, entry, torn).0;
    StagedOnly(fs, fs, f1, bytes);
    if h.fails(|fs.log|) {
      RemoveStaged(h, fs, f1, bytes);
    } else {
      var f2 := ChmodSpec(h, f1).0;
      StagedOnly(fs, f1, f2, bytes);
      if h.fails(|fs.log| + 1) {
        RemoveStaged(h, fs, f2, bytes);
      } else {
        var f3 := ProbeSpec(h, f2, Staged).0;
        StagedOnly(fs, f2, f3, bytes);
        RemoveStaged(h, fs, f3, bytes);
      }
    }
  }

  /** Since `fs` only the staged file was touched. */
  ghost predicate OnlyStaged(fs: Fs, f: Fs, bytes: string) {
    && fs.log <= f.log && KeptFrom(f.log, |fs.log|, |f.log|, bytes)
    && f.files - {Staged} == fs.files - {Staged}
  }

  lemma StagedOnly(fs: Fs, f: Fs, g: Fs, bytes: string)
    requires Kept(fs.files, bytes) && (f == fs || OnlyStaged(fs, f, bytes))
    requires g.log == f.log + [g.files] && g.files - {Staged} == f.files - {Staged}
    ensures OnlyStaged(fs, g, bytes) && Kept(g.files, bytes)
  {
    KeptAside(fs.files, g.files, bytes);
    hide Kept;
    KeptStep(f, g, |fs.log|, bytes);
  }

  lemma KeptAside(a: Files, b: Files, bytes: string)
    requires a - {Staged} == b - {Staged}
    ensures Kept(a, bytes) == Kept(b, bytes)
  {
    assert forall f :: f != Staged ==> (f in a <==> f in a - {Staged}) && (f in b <==> f in b - {Staged});
    assert forall f :: f != Staged && f in a ==> a[f] == (a - {Staged})[f];
    assert forall f :: f != Staged && f in b ==> b[f] == (b - {Staged})[f];
  }

  lemma RemoveStaged(h: Host, fs: Fs, f: Fs, bytes: string)
    requires Kept(fs.files, bytes) && OnlyStaged(fs, f, bytes)
    ensures OnlyStaged(fs, RemoveSpec(h, f, Staged).0, bytes)
  {
    hide Kept, KeptFrom;
    var g := RemoveSpec(h, f, Staged).0;
    assert g.files - {Staged} == f.files - {Staged};
    hide RemoveSpec, OnlyStaged;
    StagedOnly(fs, f, g, bytes);
  }

  lemma AfterSwapKeeps(h: Host, f3: Fs, pin: string, bytes: string)
    requires Target in f3.files && f3.files[Target] == bytes && Staged in f3.files
    ensures var (t, v) := AfterSwap(h, SwapSpec(h, f3), pin);
            var lost := StatLies(h, |f3.log|) && f3.files[Staged] != bytes;
            && f3.log <= t.log
            && (KeptFrom(t.log, |f3.log|, |t.log| - (if v.Installed? then 1 else 0), bytes) <==> !lost)
  {
    hide SwapSpec, RollbackSpec, KeptFrom;
    var (f4, swapped) := SwapSpec(h, f3);
    SwapKeeps(h, f3, bytes);
    var lost := StatLies(h, |f3.log|) && f3.files[Staged] != bytes;
    var t := AfterSwap(h, SwapSpec(h, f3), pin).0;
    if !swapped {
      CloseKeeps(h, f4, Staged, f3, bytes, lost);
    } else {
      var (f5, published) := ProbeSpec(h, f4, Target);
      ProbeKeeps(f3, f4, f5, bytes, lost);
      if published == pin {
        LastStep(f3, f5, t, bytes, lost);
      } else if lost {
        RollbackExtends(h, f5);
        LostStays(f3, f5, t, bytes);
      } else {
        RollbackKeeps(h, f5, bytes);
        KeptOn(f3, f5, t, bytes);
      }
    }
  }

  lemma CloseKeeps(h: Host, f4: Fs, f: Path, f3: Fs, bytes: string, lost: bool)
    requires f == Staged && f3.log <= f4.log && f4.log != [] && !lost && Kept(f4.files, bytes)
    requires KeptFrom(f4.log, |f3.log|, |f4.log|, bytes) <==> !lost
    ensures var t := RemoveSpec(h, f4, f).0;
            f3.log <= t.log && (KeptFrom(t.log, |f3.log|, |t.log|, bytes) <==> !lost)
  {
  }

  lemma ProbeKeeps(f3: Fs, f4: Fs, f5: Fs, bytes: string, lost: bool)
    requires f3.log <= f4.log && f5.files == f4.files && f5.log == f4.log + [f4.files]
    requires KeptFrom(f4.log, |f3.log|, |f4.log|, bytes) <==> !lost
    requires !lost ==> Kept(f4.files, bytes)
    ensures f3.log <= f5.log && (KeptFrom(f5.log, |f3.log|, |f5.log|, bytes) <==> !lost)
  {
    if lost {
      var i :| |f3.log| <= i < |f4.log| && !Kept(f4.log[i], bytes);
      assert f5.log[i] == f4.log[i];
    }
  }

  lemma LastStep(f3: Fs, f5: Fs, t: Fs, bytes: string, lost: bool)
    requires f3.log <= f5.log <= t.log && |t.log| == |f5.log| + 1
    requires KeptFrom(f5.log, |f3.log|, |f5.log|, bytes) <==> !lost
    ensures KeptFrom(t.log, |f3.log|, |t.log| - 1, bytes) <==> !lost
  {
    KeptPrefix(f5.log, t.log, |f3.log|, bytes);
  }

  lemma LostStays(f3: Fs, f5: Fs, t: Fs, bytes: string)
    requires f3.log <= f5.log <= t.log && !KeptFrom(f5.log, |f3.log|, |f5.log|, bytes)
    ensures !KeptFrom(t.log, |f3.log|, |t.log|, bytes)
  {
    var i :| |f3.log| <= i < |f5.log| && !Kept(f5.log[i], bytes);
    assert t.log[i] == f5.log[i];
  }

  lemma KeptOn(f3: Fs, f5: Fs, t: Fs, bytes: string)
    requires f3.log <= f5.log <= t.log
    requires KeptFrom(f5.log, |f3.log|, |f5.log|, bytes) && KeptFrom(t.log, |f5.log|, |t.log|, bytes)
    ensures KeptFrom(t.log, |f3.log|, |t.log|, bytes)
  {
    KeptPrefix(f5.log, t.log, |f3.log|, bytes);
    KeptJoin(t.log, |f3.log|, |f5.log|, |t.log|, bytes);
  }

  lemma RollbackExtends(h: Host, fs: Fs)
    ensures fs.log <= RollbackSpec(h, fs).0.log
  {
  }

  /** The publish of `entry` replaces the binary `bytes` without retaining it. */
  predicate Overwrites(h: Host, n: nat, pin: string, entry: string, bytes: string) {
    Accepted(h, n, pin, entry) && StatLies(h, n + 3) && entry != bytes
  }

  /** Whichever operations fail: after every operation, until the published file has reported the
      pin, the old bytes are at the target or beside it, unless the target's metadata could not be
      read and the rename over it worked. */
  lemma OldBytesKept(h: Host, fs: Fs, pin: string, entry: string, torn: string, bytes: string)
    requires Target in fs.files && fs.files[Target] == bytes
    ensures var (t, v) := PublishSpec(h, fs, pin, entry, torn);
            fs.log <= t.log
            && (KeptFrom(t.log, |fs.log|, |t.log| - (if v.Installed? then 1 else 0), bytes)
                <==> !Overwrites(h, |fs.log|, pin, entry, bytes))
  {
    hide SwapSpec, RollbackSpec, PublishSpec, AfterSwap, KeptFrom, ExtractSpec, ChmodSpec, ProbeSpec;
    var n := |fs.log|;
    if Accepted(h, n, pin, entry) {
      BeforeSwap(h, fs, pin, entry, torn);
      var staged := fs.files[Staged := entry];
      var f3 := Fs(staged, fs.log + [staged, staged, staged]);
      AfterSwapKeeps(h, f3, pin, bytes);
      var (t, v) := AfterSwap(h, SwapSpec(h, f3), pin);
      StagedKeeps(fs, staged, t, bytes, |t.log| - (if v.Installed? then 1 else 0));
    } else {
      RejectedEarly(h, fs, pin, entry, torn, bytes);
    }
  }

  lemma StagedKeeps(fs: Fs, staged: Files, t: Fs, bytes: string, to: int)
    requires Kept(staged, bytes) && fs.log + [staged, staged, staged] <= t.log
    ensures KeptFrom(t.log, |fs.log|, to, bytes) <==> KeptFrom(t.log, |fs.log| + 3, to, bytes)
  {
    var n := |fs.log|;
    var f := fs.log + [staged, staged, staged];
    assert t.log[n] == f[n] && t.log[n + 1] == f[n + 1] && t.log[n + 2] == f[n + 2];
    if KeptFrom(t.log, n + 3, to, bytes) {
      forall i | n <= i < to && i < |t.log| ensures Kept(t.log[i], bytes) {}
    }
  }

  // ---------- a successful install ----------

  predicate TargetIs(files: Files, bytes: string) { Target in files && files[Target] == bytes }

  lemma SwapPublishes(h: Host, fs: Fs)
    requires Staged in fs.files
    ensures var (t, ok) := SwapSpec(h, fs); ok ==> TargetIs(t.files, fs.files[Staged]) && Staged !in t.files
  {
  }

  /** A successful publish leaves the staged bytes at the target and nothing beside it but, at worst,
      the retained binary; also when there was no target before. */
  lemma SuccessPublishes(h: Host, fs: Fs, pin: string, entry: string, torn: string)
    ensures var (t, v) := PublishSpec(h, fs, pin, entry, torn);
            v.Installed? ==> Accepted(h, |fs.log|, pin, entry) && TargetIs(t.files, entry) && Staged !in t.files
  {
    hide SwapSpec, RollbackSpec, PublishSpec, ExtractSpec, ChmodSpec, ProbeSpec, AfterSwap;
    if Accepted(h, |fs.log|, pin, entry) {
      BeforeSwap(h, fs, pin, entry, torn);
      var staged := fs.files[Staged := entry];
      var f3 := Fs(staged, fs.log + [staged, staged, staged]);
      SwapPublishes(h, f3);
      AfterSwapSteps(h, SwapSpec(h, f3), pin);
    } else {
      NotAccepted(h, fs, pin, entry, torn);
    }
  }

  // ---------- a failed install ----------

  /** The rollback whose first operation is `k` puts the retained binary back. */
  predicate RollbackWorks(h: Host, k: nat) {
    !h.fails(k) && ((!h.fails(k + 1) && h.overwrites) || (!h.fails(k + 2) && !h.fails(k + 3)))
  }

  /** The rollback whose first operation is `k` clears the target and cannot fill it. */
  predicate RollbackDrops(h: Host, k: nat) {
    !h.fails(k) && (h.fails(k + 1) || !h.overwrites) && !h.fails(k + 2) && h.fails(k + 3)
  }

  /** Exactly when a rollback leaves the retained bytes at the target, and exactly when it reports no
      failure: also when it could not see what was retained, and did nothing. */
  lemma RollbackExact(h: Host, fs: Fs, bytes: string)
    requires Prev in fs.files && fs.files[Prev] == bytes && Target in fs.files
    ensures var (t, ok) := RollbackSpec(h, fs);
            var k := |fs.log|;
            && (TargetIs(t.files, bytes) <==>
                 if fs.files[Target] == bytes then !RollbackDrops(h, k) else RollbackWorks(h, k))
            && (ok <==> h.fails(k) || RollbackWorks(h, k))
            && (h.fails(k) ==> t.files == fs.files)
  {
  }

  /** How a swap ends, by the operations that fail. */
  lemma SwapExact(h: Host, fs: Fs, bytes: string)
    requires TargetIs(fs.files, bytes) && Staged in fs.files
    ensures var (t, ok) := SwapSpec(h, fs);
            var m := |fs.log|;
            if h.fails(m) then !ok && TargetIs(t.files, bytes)
            else if h.fails(m + 1) then
              if h.fails(m + 2) || !h.overwrites then !ok && TargetIs(t.files, bytes)
              else ok && |t.log| == m + 3 && TargetIs(t.files, fs.files[Staged]) && Prev !in t.files
            else if h.fails(m + 2) then !ok && TargetIs(t.files, bytes)
            else if h.fails(m + 3) then !ok && Target !in t.files
            else ok && |t.log| == m + 4 && TargetIs(t.files, fs.files[Staged])
                 && Prev in t.files && t.files[Prev] == bytes
  {
  }

  /** After a publish that did not install, the old binary is at the target exactly in these cases,
      `same` saying that the new bytes are the old ones: the candidate was not accepted, or the swap
      stopped before the target moved, or the rollback worked. */
  predicate Restores(h: Host, n: nat, pin: string, entry: string, same: bool) {
    || !Accepted(h, n, pin, entry)
    || h.fails(n + 3)
    || if h.fails(n + 4) then h.fails(n + 5) || !h.overwrites || same
       else h.fails(n + 5) || (!h.fails(n + 6) && if same then !RollbackDrops(h, n + 8) else RollbackWorks(h, n + 8))
  }

  /** Exactly when a failed publish leaves the old binary at the target. */
  lemma FailureRestores(h: Host, fs: Fs, pin: string, entry: string, torn: string, bytes: string)
    requires TargetIs(fs.files, bytes)
    ensures var (t, v) := PublishSpec(h, fs, pin, entry, torn);
            !v.Installed? ==> (TargetIs(t.files, bytes) <==> Restores(h, |fs.log|, pin, entry, entry == bytes))
    ensures var (t, v) := PublishSpec(h, fs, pin, entry, torn);
            v == Rejected(true) ==>
              (!TargetIs(t.files, bytes) <==> entry != bytes && (h.fails(|fs.log| + 4) || h.fails(|fs.log| + 8)))
  {
    hide SwapSpec, RollbackSpec, PublishSpec, AfterSwap, ExtractSpec, ChmodSpec, RollbackWorks, RollbackDrops;
    if Accepted(h, |fs.log|, pin, entry) {
      BeforeSwap(h, fs, pin, entry, torn);
      var staged := fs.files[Staged := entry];
      AfterSwapRestores(h, Fs(staged, fs.log + [staged, staged, staged]), pin, bytes);
    } else {
      NotAccepted(h, fs, pin, entry, torn);
    }
  }

  lemma NotAccepted(h: Host, fs: Fs, pin: string, entry: string, torn: string)
    requires !Accepted(h, |fs.log|, pin, entry)
    ensures var (t, v) := PublishSpec(h, fs, pin, entry, torn); v.Refused? && t.files - {Staged} == fs.files - {Staged}
    ensures forall bytes :: TargetIs(fs.files, bytes) ==> TargetIs(PublishSpec(h, fs, pin, entry, torn).0.files, bytes)
  {
    hide SwapSpec, RollbackSpec, AfterSwap;
  }

  lemma AfterSwapRestores(h: Host, f3: Fs, pin: string, bytes: string)
    requires TargetIs(f3.files, bytes) && Staged in f3.files
    ensures var (t, v) := AfterSwap(h, SwapSpec(h, f3), pin);
            var m, same := |f3.log|, f3.files[Staged] == bytes;
            && (!v.Installed? ==>
                 (TargetIs(t.files, bytes) <==>
                   h.fails(m)
                   || if h.fails(m + 1) then h.fails(m + 2) || !h.overwrites || same
                      else h.fails(m + 2) ||
                           (!h.fails(m + 3) &&
                             if same then !RollbackDrops(h, m + 5) else RollbackWorks(h, m + 5))))
            && (v == Rejected(true) ==> (!TargetIs(t.files, bytes) <==> !same && (h.fails(m + 1) || h.fails(m + 5))))
  {
    hide SwapSpec, RollbackSpec, AfterSwap;
    SwapExact(h, f3, bytes);
    var (f4, swapped) := SwapSpec(h, f3);
    AfterSwapSteps(h, (f4, swapped), pin);
    if swapped {
      var f5 := Did(f4, f4.files);
      if Prev in f4.files { RollbackExact(h, f5, bytes); } else { NothingRetained(h, f5); }
    }
  }

  lemma AfterSwapSteps(h: Host, swap: (Fs, bool), pin: string)
    ensures var (t, v) := AfterSwap(h, swap, pin);
            var f5 := Did(swap.0, swap.0.files);
            if !swap.1 then v.Refused? && t.files - {Staged} == swap.0.files - {Staged}
                            && (Target in t.files <==> Target in swap.0.files)
                            && (Target in t.files ==> t.files[Target] == swap.0.files[Target])
            else if v.Installed? then
              forall f :: f != Prev ==>
                (f in t.files <==> f in f5.files) && (f in t.files ==> t.files[f] == f5.files[f])
            else t == RollbackSpec(h, f5).0 && v == Rejected(RollbackSpec(h, f5).1)
  {
    hide RollbackSpec;
  }

  /** The old binary can be lost: its metadata cannot be read, so it is not retained; the rename
      over it works; and the new one does not report its pin, so the install fails as well. */
  lemma OldBytesCanBeLost() returns (h: Host, fs: Fs)
    ensures fs.files == map[Target := "old"]
    ensures var (t, v) := PublishSpec(h, fs, "2", "new", "");
            !v.Installed? && !TargetIs(t.files, "old") && !Kept(t.files, "old")
  {
    h := Host(i => i == 4, true, (p: Path, bytes: string) => if p == Staged then "2" else "1");
    fs := Fs(map[Target := "old"], []);
    var f1 := Did(fs, map[Target := "old", Staged := "new"]);
    var f4 := Did(Did(Did(Did(f1, f1.files), f1.files), f1.files), f1.files);
    assert |f4.log| == 5;
    BeforeSwap(h, fs, "2", "new", "");
    var f3 := Did(Did(f1, f1.files), f1.files);
    assert f3 == Fs(f1.files, fs.log + [f1.files, f1.files, f1.files]);
    assert RemoveSpec(h, f3, Prev) == (Did(f3, f1.files), NotExist);
    assert StatSpec(h, Did(f3, f1.files), Target) == (f4, false);
    assert f4.files - {Staged} == map[Target := "old"];
    assert (f4.files - {Staged})[Target := "new"] == map[Target := "new"];
    assert RenameSpec(h, f4, Staged, Target) == (Did(f4, map[Target := "new"]), true);
    hide RollbackSpec, RemoveSpec, RenameSpec, StatSpec;
    var f5 := Did(Did(f4, map[Target := "new"]), map[Target := "new"]);
    assert SwapSpec(h, f3) == (Did(f4, map[Target := "new"]), true);
    NothingRetained(h, f5);
  }

  lemma NothingRetained(h: Host, fs: Fs)
    requires Prev !in fs.files
    ensures RollbackSpec(h, fs).0.files == fs.files && RollbackSpec(h, fs).1
  {
  }

  /** A rollback can fail in silence: the new binary does not report its pin, the retained one cannot be
      seen, every rename would work, and the rejected binary stays without a report of it. */
  lemma RejectedCanStay() returns (h: Host, fs: Fs)
    ensures fs.files == map[Target := "old"] && h.overwrites && (forall i :: h.fails(i) <==> i == 8)
    ensures var (t, v) := PublishSpec(h, fs, "2", "new", "");
            v == Rejected(true) && t.files == map[Target := "new", Prev := "old"]
  {
    h := Host(i => i == 8, true, (p: Path, bytes: string) => if p == Staged then "2" else "1");
    fs := Fs(map[Target := "old"], []);
    BeforeSwap(h, fs, "2", "new", "");
    var staged := fs.files[Staged := "new"];
    var f3 := Fs(staged, fs.log + [staged, staged, staged]);
    hide SwapSpec, RollbackSpec, PublishSpec, AfterSwap, ExtractSpec, ChmodSpec;
    SwapExact(h, f3, "old");
    var f4 := SwapSpec(h, f3).0;
    SwapPublishes(h, f3);
    AfterSwapSteps(h, SwapSpec(h, f3), "2");
    RejectedHere(h, f4, "2");
    var f5 := Did(f4, f4.files);
    RollbackExact(h, f5, "old");
    forall p: Path ensures p in f4.files <==> p == Target || p == Prev { assert p.Target? || p.Prev? || p.Staged?; }
    assert f4.files == map[Target := "new", Prev := "old"];
  }

  lemma RejectedHere(h: Host, f4: Fs, pin: string)
    requires Target in f4.files && h.version(Target, f4.files[Target]) != pin && pin != ""
    ensures !AfterSwap(h, (f4, true), pin).1.Installed?
  {
    hide RollbackSpec;
  }

  // ---------- the retry ----------

  lemma SwapWithoutTarget(h: Host, fs: Fs, bytes: string)
    requires Target !in fs.files && Prev in fs.files && fs.files[Prev] == bytes
    requires Staged in fs.files && fs.files[Staged] != bytes
    ensures var (t, ok) := SwapSpec(h, fs);
            && (Kept(t.files, bytes) <==> h.fails(|fs.log|)) && (ok ==> !h.fails(|fs.log|))
            && (Target in t.files <==> ok)
            && (!h.fails(|fs.log|) ==> Prev !in t.files)
  {
  }

  /** A second rename that fails leaves the retained copy as the only one. */
  lemma FailedRenameStrands(h: Host, fs: Fs, pin: string, entry: string, torn: string, bytes: string)
    requires TargetIs(fs.files, bytes) && Accepted(h, |fs.log|, pin, entry)
    requires var n := |fs.log|; !h.fails(n + 3) && !h.fails(n + 4) && !h.fails(n + 5) && h.fails(n + 6)
    ensures var (t, v) := PublishSpec(h, fs, pin, entry, torn);
            v.Refused? && Target !in t.files && Prev in t.files && t.files[Prev] == bytes
  {
    BeforeSwap(h, fs, pin, entry, torn);
    var staged := fs.files[Staged := entry];
    var f3 := Fs(staged, fs.log + [staged, staged, staged]);
    hide PublishSpec, ExtractSpec, ChmodSpec, ProbeSpec;
    StrandedSwap(h, f3, bytes);
    var (f4, swapped) := SwapSpec(h, f3);
    hide SwapSpec, RollbackSpec;
    assert AfterSwap(h, (f4, swapped), pin) == (RemoveSpec(h, f4, Staged).0, Refused);
  }

  lemma StrandedSwap(h: Host, fs: Fs, bytes: string)
    requires TargetIs(fs.files, bytes) && Staged in fs.files
    requires var m := |fs.log|; !h.fails(m) && !h.fails(m + 1) && !h.fails(m + 2) && h.fails(m + 3)
    ensures var (t, ok) := SwapSpec(h, fs); !ok && Target !in t.files && Prev in t.files && t.files[Prev] == bytes
  {
  }

  /** The retry clears that copy before it publishes: with no target, the old bytes are kept exactly when
      the candidate is not accepted or the copy cannot be removed. */
  lemma OnlyCopyKept(h: Host, fs: Fs, pin: string, entry: string, torn: string, bytes: string)
    requires Target !in fs.files && Prev in fs.files && fs.files[Prev] == bytes && entry != bytes
    ensures var t := PublishSpec(h, fs, pin, entry, torn).0;
            Kept(t.files, bytes) <==> !Accepted(h, |fs.log|, pin, entry) || h.fails(|fs.log| + 3)
  {
    var t := PublishSpec(h, fs, pin, entry, torn).0;
    if Accepted(h, |fs.log|, pin, entry) {
      BeforeSwap(h, fs, pin, entry, torn);
      var staged := fs.files[Staged := entry];
      var f3 := Fs(staged, fs.log + [staged, staged, staged]);
      hide PublishSpec, ExtractSpec, ChmodSpec, ProbeSpec;
      SwapWithoutTarget(h, f3, bytes);
      SwapPublishes(h, f3);
      hide SwapSpec;
      var (f4, swapped) := SwapSpec(h, f3);
      if swapped {
        var f5 := Did(f4, f4.files);
        NothingRetained(h, f5);
        AfterSwapSteps(h, (f4, swapped), pin);
      } else {
        AfterSwapRefused(h, f4, pin);
      }
    } else {
      RejectedEarly(h, fs, pin, entry, torn, bytes);
    }
  }

  lemma AfterSwapRefused(h: Host, f4: Fs, pin: string)
    ensures AfterSwap(h, (f4, false), pin).0.files - {Staged} == f4.files - {Staged}
    ensures forall bytes :: Kept(AfterSwap(h, (f4, false), pin).0.files, bytes) <==> Kept(f4.files, bytes)
  {
    hide RollbackSpec, SwapSpec;
    var t := AfterSwap(h, (f4, false), pin).0;
    assert forall f :: f != Staged ==>
             (f in t.files <==> f in f4.files) && (f in t.files ==> t.files[f] == f4.files[f]);
  }

  // ---------- when a publish installs ----------

  /** The published binary reports the pin to operation `k`, the probe. */
  predicate Reports(h: Host, k: nat, pin: string, entry: string) {
    (if h.fails(k) then "" else h.version(Target, entry)) == pin
  }

  /** The swap that starts with operation `m` goes through: the old backup can be cleared, and then the old
      binary is retained and the new one renamed to the target, or, where no old one is seen, only the
      latter. */
  predicate SwapGoes(h: Host, m: nat, present: bool) {
    && !h.fails(m)
    && if present && !h.fails(m + 1) then !h.fails(m + 2) && !h.fails(m + 3)
       else !h.fails(m + 2) && (!present || h.overwrites)
  }

  /** The number of operations of that swap. */
  function SwapLength(h: Host, m: nat, present: bool): nat { if present && !h.fails(m + 1) then 4 else 3 }

  lemma SwapGoesThrough(h: Host, fs: Fs)
    requires Staged in fs.files
    ensures var (t, ok) := SwapSpec(h, fs);
            var present := Target in fs.files;
            && (ok <==> SwapGoes(h, |fs.log|, present))
            && (ok ==> |t.log| == |fs.log| + SwapLength(h, |fs.log|, present))
            && (ok ==> TargetIs(t.files, fs.files[Staged]) && Staged !in t.files)
  {
  }

  lemma AfterSwapInstalls(h: Host, f4: Fs, pin: string, entry: string)
    requires TargetIs(f4.files, entry)
    ensures var (t, v) := AfterSwap(h, (f4, true), pin);
            && (v.Installed? <==> Reports(h, |f4.log|, pin, entry)) && !v.Refused?
            && (v.Installed? ==> t.files == if h.fails(|f4.log| + 1) then f4.files else f4.files - {Prev})
  {
    hide RollbackSpec;
  }

  /** Exactly when a publish installs, is refused or is rejected: the candidate is accepted, the swap goes
      through, and the published binary reports the pin. */
  lemma InstalledExactly(h: Host, fs: Fs, pin: string, entry: string, torn: string)
    ensures var (t, v) := PublishSpec(h, fs, pin, entry, torn);
            var n, present := |fs.log|, Target in fs.files;
            var swapped := Accepted(h, n, pin, entry) && SwapGoes(h, n + 3, present);
            var reports := Reports(h, n + 3 + SwapLength(h, n + 3, present), pin, entry);
            && (v.Installed? <==> swapped && reports) && (v.Rejected? <==> swapped && !reports)
            && (v.Refused? <==> !swapped)
  {
    hide SwapSpec, RollbackSpec, PublishSpec, AfterSwap, ExtractSpec, ChmodSpec, Reports, SwapGoes, SwapLength;
    if Accepted(h, |fs.log|, pin, entry) {
      BeforeSwap(h, fs, pin, entry, torn);
      var staged := fs.files[Staged := entry];
      var f3 := Fs(staged, fs.log + [staged, staged, staged]);
      SwapGoesThrough(h, f3);
      var (f4, swapped) := SwapSpec(h, f3);
      if swapped { AfterSwapInstalls(h, f4, pin, entry); } else { AfterSwapSteps(h, (f4, swapped), pin); }
    } else {
      NotAccepted(h, fs, pin, entry, torn);
    }
  }

  /** What a publish comes to, for any failing operations: it installs exactly when the candidate is accepted,
      the swap goes through and the published binary reports the pin, and then the staged binary is at the
      target; the old binary is kept after every operation unless `Overwrites`, and is at the target after a
      publish that did not install exactly when `Restores`. */
  ghost predicate Published(h: Host, fs: Fs, t: Fs, v: Verdict, pin: string, entry: string) {
    var n, present := |fs.log|, Target in fs.files;
    && (v.Installed? <==> Accepted(h, n, pin, entry) && SwapGoes(h, n + 3, present)
                          && Reports(h, n + 3 + SwapLength(h, n + 3, present), pin, entry))
    && (v.Installed? ==> TargetIs(t.files, entry) && Staged !in t.files)
    && (present ==>
          var bytes := fs.files[Target];
          && (KeptFrom(t.log, n, |t.log| - (if v.Installed? then 1 else 0), bytes)
              <==> !Overwrites(h, n, pin, entry, bytes))
          && (!v.Installed? ==> (TargetIs(t.files, bytes) <==> Restores(h, n, pin, entry, entry == bytes))))
  }

  lemma PublishIsPublished(h: Host, fs: Fs, pin: string, entry: string, torn: string)
    ensures var (t, v) := PublishSpec(h, fs, pin, entry, torn); Published(h, fs, t, v, pin, entry)
  {
    hide PublishSpec, KeptFrom, Overwrites, Restores, Accepted, SwapGoes, SwapLength, Reports;
    SuccessPublishes(h, fs, pin, entry, torn);
    InstalledExactly(h, fs, pin, entry, torn);
    if Target in fs.files {
      OldBytesKept(h, fs, pin, entry, torn, fs.files[Target]);
      FailureRestores(h, fs, pin, entry, torn, fs.files[Target]);
    }
  }

  /** With nothing failing, and both probes reporting the pin, the new binary is installed and nothing is
      left beside it. */
  lemma NothingFailsInstalls(h: Host, fs: Fs, pin: string, entry: string, torn: string)
    requires (forall i :: !h.fails(i)) && h.overwrites
    requires h.version(Staged, entry) == pin && h.version(Target, entry) == pin
    ensures var (t, v) := PublishSpec(h, fs, pin, entry, torn);
            v.Installed? && t.files == map[Target := entry]
  {
    InstalledExactly(h, fs, pin, entry, torn);
    BeforeSwap(h, fs, pin, entry, torn);
    var staged := fs.files[Staged := entry];
    var f3 := Fs(staged, fs.log + [staged, staged, staged]);
    hide PublishSpec, ExtractSpec, ChmodSpec, RollbackSpec;
    SwapGoesThrough(h, f3);
    var f4 := SwapSpec(h, f3).0;
    AfterSwapInstalls(h, f4, pin, entry);
    hide SwapSpec, AfterSwap;
    var t := PublishSpec(h, fs, pin, entry, torn).0;
    forall p: Path ensures p in t.files <==> p == Target { assert p.Target? || p.Prev? || p.Staged?; }
  }

  // ---------- the gate ----------

  /** An archive whose digest is the manifest's is published, any other changes nothing; a successful
      install, a first one too, leaves at the target the binary of an archive that has that digest. */
  lemma InstallIsGated(h: Host, fs: Fs, pin: string, want: Option<string>, archive: Option<string>,
                       digest: string -> string, entry: string -> string, torn: string)
    ensures var (t, v) := InstallSpec(h, fs, pin, want, archive, digest, entry, torn);
            && (archive.Some? && want == Some(digest(archive.value)) ==>
                  (t, v) == PublishSpec(h, fs, pin, entry(archive.value), torn))
            && (archive.None? || want != Some(digest(archive.value)) ==> t == fs && v.Refused?)
            && (v.Installed? ==>
                 archive.Some? && want == Some(digest(archive.value)) && TargetIs(t.files, entry(archive.value)))
  {
    hide PublishSpec;
    if archive.Some? { SuccessPublishes(h, fs, pin, entry(archive.value), torn); }
  }
}
