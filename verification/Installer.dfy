/** The directory of a managed binary and the operations that publish into it
    (internal/installer/installer.go). */
module Installer {
  import opened Text
  import opened PublishSteps
  import opened PublishLaws

  /** The directory of the target, changed step by step. */
  class Disk {
    const h: Host
    var files: Files
    var log: seq<Files>

    ghost function Now(): Fs
      reads this
    {
      Fs(files, log)
    }

    constructor (h: Host, files: Files)
      ensures this.h == h && Now() == Fs(files, [])
    {
      this.h, this.files, this.log := h, files, [];
    }

    method Remove(f: Path) returns (r: Removal)
      modifies this
      ensures (Now(), r) == RemoveSpec(h, old(Now()), f)
    {
      if h.fails(|log|) {
        r := RemoveFailed;
      } else if f !in files {
        r := NotExist;
      } else {
        files := files - {f};
        r := Removed;
      }
      log := log + [files];
    }

    method Stat(f: Path) returns (present: bool)
      modifies this
      ensures (Now(), present) == StatSpec(h, old(Now()), f)
    {
      present := !h.fails(|log|) && f in files;
      log := log + [files];
    }

    method Rename(a: Path, b: Path) returns (ok: bool)
      modifies this
      ensures (Now(), ok) == RenameSpec(h, old(Now()), a, b)
    {
      ok := !h.fails(|log|) && a in files && (b !in files || h.overwrites);
      if ok { files := (files - {a})[b := files[a]]; }
      log := log + [files];
    }

    method Extract(entry: string, torn: string) returns (ok: bool)
      modifies this
      ensures (Now(), ok) == ExtractSpec(h, old(Now()), entry, torn)
    {
      ok := !h.fails(|log|);
      files := files[Staged := if ok then entry else torn];
      log := log + [files];
    }

    method Chmod() returns (ok: bool)
      modifies this
      ensures (Now(), ok) == ChmodSpec(h, old(Now()))
    {
      ok := !h.fails(|log|);
      log := log + [files];
    }

    method DetectVersion(f: Path) returns (version: string)
      modifies this
      ensures (Now(), version) == ProbeSpec(h, old(Now()), f)
    {
      version := if h.fails(|log|) || f !in files then "" else h.version(f, files[f]);
      log := log + [files];
    }

    /** `swap`: after every operation the old binary is at the target or beside it, unless its metadata
        could not be read and the rename over it worked; success puts the staged one at the target. */
    method Swap() returns (ok: bool)
      modifies this
      ensures (Now(), ok) == SwapSpec(h, old(Now()))
      ensures old(Target in files && Staged in files) ==>
                (KeptFrom(log, |old(log)|, |log|, old(files)[Target])
                 <==> !(StatLies(h, |old(log)|) && old(files)[Staged] != old(files)[Target]))
      ensures Staged in old(files) && ok ==> TargetIs(files, old(files)[Staged]) && Staged !in files
    {
      if Staged in files {
        SwapPublishes(h, Now());
        if Target in files { SwapKeeps(h, Now(), files[Target]); }
      }
      hide KeptFrom;
      var cleared := Remove(Prev);
      if cleared.RemoveFailed? { return false; }
      var present := Stat(Target);
      if present {
        var retained := Rename(Target, Prev);
        if !retained { return false; }
      }
      ok := Rename(Staged, Target);
    }

    /** `rollback`: the retained binary is never lost; it is back at the target exactly when it could be
        seen and one of the two ways to rename it worked; and no failure is reported when it could not
        be seen. */
    method Rollback() returns (ok: bool)
      modifies this
      ensures (Now(), ok) == RollbackSpec(h, old(Now()))
      ensures Prev in old(files) ==> KeptFrom(log, |old(log)|, |log|, old(files)[Prev]) && Kept(files, old(files)[Prev])
      ensures Prev in old(files) && Target in old(files) && old(files)[Target] != old(files)[Prev] ==>
                (TargetIs(files, old(files)[Prev]) <==> RollbackWorks(h, |old(log)|))
                && (ok <==> h.fails(|old(log)|) || RollbackWorks(h, |old(log)|))
    {
      if Prev in files {
        RollbackKeeps(h, Now(), files[Prev]);
        if Target in files { RollbackExact(h, Now(), files[Prev]); }
      }
      hide KeptFrom, RollbackWorks, RollbackDrops;
      var present := Stat(Prev);
      if !present { return true; }
      ok := Rename(Prev, Target);
      if !ok {
        var removed := Remove(Target);
        if removed.Removed? { ok := Rename(Prev, Target); }
      }
    }

    /** `publish`: see `Published` for what it does with the target and the old binary. */
    method Publish(pin: string, entry: string, torn: string) returns (verdict: Verdict)
      modifies this
      ensures (Now(), verdict) == PublishSpec(h, old(Now()), pin, entry, torn)
      ensures Published(h, old(Now()), Now(), verdict, pin, entry)
    {
      hide SwapSpec, RollbackSpec, RemoveSpec, ProbeSpec, ExtractSpec, ChmodSpec, KeptFrom, Published, TargetIs;
      PublishIsPublished(h, Now(), pin, entry, torn);
      var extracted := Extract(entry, torn);
      if !extracted {
        var _ := Remove(Staged);
        return Refused;
      }
      var executable := Chmod();
      if !executable {
        var _ := Remove(Staged);
        return Refused;
      }
      var candidate := DetectVersion(Staged);
      if candidate != pin {
        var _ := Remove(Staged);
        return Refused;
      }
      var swapped := Swap();
      if !swapped {
        var _ := Remove(Staged);
        return Refused;
      }
      var published := DetectVersion(Target);
      if published != pin {
        var restored := Rollback();
        return Rejected(restored);
      }
      var _ := Remove(Prev);
      verdict := Installed;
    }

    /** `Install`, from the manifest's digest and the downloaded archive on. */
    method Install(pin: string, want: Option<string>, archive: Option<string>, digest: string -> string,
                   entry: string -> string, torn: string) returns (verdict: Verdict)
      modifies this
      ensures (Now(), verdict) == InstallSpec(h, old(Now()), pin, want, archive, digest, entry, torn)
      ensures archive.None? || want != Some(digest(archive.value)) ==> Now() == old(Now()) && verdict.Refused?
      ensures archive.Some? && want == Some(digest(archive.value)) ==>
                (Now(), verdict) == PublishSpec(h, old(Now()), pin, entry(archive.value), torn)
      ensures verdict.Installed? ==>
                archive.Some? && want == Some(digest(archive.value)) && TargetIs(files, entry(archive.value))
    {
      if want == None || archive == None { return Refused; }
      var sum := digest(archive.value);
      if sum != want.value { return Refused; }
      verdict := Publish(pin, entry(archive.value), torn);
    }
  }
}
