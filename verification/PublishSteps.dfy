/** Publishing a downloaded binary, operation by operation: staged beside the target, swapped in by
    two renames, rolled back when it does not report its pin (internal/installer/installer.go).

    Any file operation may fail; the log holds the files after each one. */
module PublishSteps {
  import opened Text

  datatype Path = Target | Prev | Staged

  type Files = map<Path, string>

  /** `fails(i)`: the `i`-th operation fails.  `overwrites`: a rename may replace an existing file.
      `version`: what a binary at a path reports about itself. */
  datatype Host = Host(fails: nat -> bool, overwrites: bool, version: (Path, string) -> string)

  datatype Fs = Fs(files: Files, log: seq<Files>)

  datatype Removal = Removed | NotExist | RemoveFailed

  function Failing(h: Host, fs: Fs): bool { h.fails(|fs.log|) }

  function Did(fs: Fs, files: Files): Fs { Fs(files, fs.log + [files]) }

  // ---------- single operations ----------

  function RemoveSpec(h: Host, fs: Fs, f: Path): (Fs, Removal) {
    if Failing(h, fs) then (Did(fs, fs.files), RemoveFailed)
    else if f !in fs.files then (Did(fs, fs.files), NotExist)
    else (Did(fs, fs.files - {f}), Removed)
  }

  function StatSpec(h: Host, fs: Fs, f: Path): (Fs, bool) { (Did(fs, fs.files), !Failing(h, fs) && f in fs.files) }

  function RenameSpec(h: Host, fs: Fs, a: Path, b: Path): (Fs, bool) {
    if Failing(h, fs) || a !in fs.files || (b in fs.files && !h.overwrites) then (Did(fs, fs.files), false)
    else (Did(fs, (fs.files - {a})[b := fs.files[a]]), true)
  }

  /** `extractBinary`: what a failed extraction leaves behind is `torn`. */
  function ExtractSpec(h: Host, fs: Fs, entry: string, torn: string): (Fs, bool) {
    if Failing(h, fs) then (Did(fs, fs.files[Staged := torn]), false) else (Did(fs, fs.files[Staged := entry]), true)
  }

  function ChmodSpec(h: Host, fs: Fs): (Fs, bool) { (Did(fs, fs.files), !Failing(h, fs)) }

  /** `DetectVersion`: empty when the probe fails or there is nothing to run. */
  function ProbeSpec(h: Host, fs: Fs, f: Path): (Fs, string) {
    (Did(fs, fs.files), if Failing(h, fs) || f !in fs.files then "" else h.version(f, fs.files[f]))
  }

  // ---------- the swap ----------

  function SwapSpec(h: Host, fs: Fs): (Fs, bool) {
    var (f1, cleared) := RemoveSpec(h, fs, Prev);
    if cleared.RemoveFailed? then (f1, false)
    else
      var (f2, present) := StatSpec(h, f1, Target);
      var (f3, retained) := if present then RenameSpec(h, f2, Target, Prev) else (f2, true);
      if !retained then (f3, false) else RenameSpec(h, f3, Staged, Target)
  }

  function RollbackSpec(h: Host, fs: Fs): (Fs, bool) {
    var (f1, present) := StatSpec(h, fs, Prev);
    if !present then (f1, true)
    else
      var (f2, restored) := RenameSpec(h, f1, Prev, Target);
      if restored then (f2, true)
      else
        var (f3, removed) := RemoveSpec(h, f2, Target);
        if removed.Removed? then RenameSpec(h, f3, Prev, Target) else (f3, false)
  }

  /** How a publish ends: with the new binary in place, refused before or during the swap, or rejected
      after it, where `restored` says that the rollback reported no failure. */
  datatype Verdict = Installed | Refused | Rejected(restored: bool)

  /** `publish` */
  function PublishSpec(h: Host, fs: Fs, pin: string, entry: string, torn: string): (Fs, Verdict) {
    var (f1, extracted) := ExtractSpec(h, fs, entry, torn);
    if !extracted then (RemoveSpec(h, f1, Staged).0, Refused)
    else
      var (f2, executable) := ChmodSpec(h, f1);
      if !executable then (RemoveSpec(h, f2, Staged).0, Refused)
      else
        var (f3, candidate) := ProbeSpec(h, f2, Staged);
        if candidate != pin then (RemoveSpec(h, f3, Staged).0, Refused) else AfterSwap(h, SwapSpec(h, f3), pin)
  }

  /** `publish` from the end of the swap on. */
  function AfterSwap(h: Host, swap: (Fs, bool), pin: string): (Fs, Verdict) {
    var (f4, swapped) := swap;
    if !swapped then (RemoveSpec(h, f4, Staged).0, Refused)
    else
      var (f5, published) := ProbeSpec(h, f4, Target);
      if published != pin then (RollbackSpec(h, f5).0, Rejected(RollbackSpec(h, f5).1))
      else (RemoveSpec(h, f5, Prev).0, Installed)
  }

  /** The gate of `Install`: nothing is published unless the archive has the digest that the manifest
      asks for.  `entry` is the binary that an archive holds. */
  function InstallSpec(h: Host, fs: Fs, pin: string, want: Option<string>, archive: Option<string>,
                       digest: string -> string, entry: string -> string, torn: string): (Fs, Verdict)
  {
    if want.None? || archive.None? || digest(archive.value) != want.value then (fs, Refused)
    else PublishSpec(h, fs, pin, entry(archive.value), torn)
  }
}
