/** Names of projects and of note files (internal/memory/notes.go). */
module Names {
  import opened Text
  import opened Lines

  /** `validProject`: the trimmed name, or nothing for an empty one or one with a separator. */
  function ValidProject(project: string): Option<string> {
    var p := TrimSpace(project);
    if p == "" || '/' in p || '\\' in p then None else Some(p)
  }

  /** A name the walk over the projects can list: that of one directory below the root.  A valid
      project may be the root itself or the directory above it. */
  predicate Visible(dir: string) { dir != "" && dir != "." && dir != ".." && '/' !in dir }

  predicate SlugChar(c: char) { 'a' <= c <= 'z' || IsDigit(c) }

  /** Runs of other characters become one dash; `dash` says that the text so far ends in one. */
  function Slug(s: string, dash: bool): string {
    if s == "" then ""
    else if SlugChar(LowerByte(s[0])) then [LowerByte(s[0])] + Slug(s[1..], false)
    else (if dash then "" else "-") + Slug(s[1..], true)
  }

  function TrimDashes(s: string): string
    decreases |s|
  {
    if s != "" && s[0] == '-' then TrimDashes(s[1..])
    else if s != "" && s[|s| - 1] == '-' then TrimDashes(s[..|s| - 1])
    else s
  }

  function Take(s: string, n: nat): string { if |s| > n then s[..n] else s }

  /** `noteFileName` */
  function FileName(title: string, id: string): string {
    var slug := Take(TrimDashes(Slug(TrimSpace(title), false)), 48);
    (if slug == "" then "note" else slug) + "-" + Take(id, 8) + ".md"
  }

  predicate EndsMd(name: string) { |name| >= 3 && name[|name| - 3..] == ".md" }
}
