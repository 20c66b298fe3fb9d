/** Dependency manifests and the path rules applied while loading them: the
    directory part of a manifest's path (`loadDeps`), the legacy array form,
    and the prefixing of relative file paths (`loadDepsObject`). */
module Manifests {
  import opened Values
  import opened Registry

  // ---------------------------------------------------------------------
  // String splitting and joining on '/'
  // ---------------------------------------------------------------------

  /** `s.split("/")`: the pieces between slashes, always at least one. */
  function Split(s: string): (r: seq<string>)
    ensures |r| >= 1
  {
    if s == [] then [""]
    else
      var parts := Split(s[..|s| - 1]);
      var c := s[|s| - 1];
      if c == '/' then parts + [""]
      else parts[..|parts| - 1] + [parts[|parts| - 1] + [c]]
  }

  /** `parts.join("/")`. */
  function Join(parts: seq<string>): string {
    if parts == [] then ""
    else if |parts| == 1 then parts[0]
    else Join(parts[..|parts| - 1]) + "/" + parts[|parts| - 1]
  }

  /** The directory prefix `loadDeps` computes for a manifest path: everything
      up to and including the last slash, or `./` for a bare file name. */
  function RelativeDir(path: string): string {
    if '/' in path then Join(Split(path)[..|Split(path)| - 1]) + "/" else "./"
  }

  /** Appending a character that is not a slash extends the last piece. */
  lemma JoinExtendLast(parts: seq<string>, c: char)
    requires |parts| >= 1
    ensures Join(parts[..|parts| - 1] + [parts[|parts| - 1] + [c]]) == Join(parts) + [c]
  {
    var init := parts[..|parts| - 1];
    assert (init + [parts[|parts| - 1] + [c]])[..|init|] == init;
  }

  /** Splitting and joining again gives the string back. */
  lemma {:induction false} JoinSplit(s: string)
    ensures Join(Split(s)) == s
  {
    if s != [] {
      var init := s[..|s| - 1];
      var c := s[|s| - 1];
      JoinSplit(init);
      var parts := Split(init);
      if c == '/' {
        assert (parts + [""])[..|parts|] == parts;
        assert s == init + "/";
      } else {
        JoinExtendLast(parts, c);
        assert s == init + [c];
      }
    }
  }

  /** A string without slashes is a single piece. */
  lemma {:induction false} SplitNoSlash(s: string)
    requires '/' !in s
    ensures Split(s) == [s]
  {
    if s != [] {
      var init := s[..|s| - 1];
      assert forall ch :: ch in init ==> ch in s;
      SplitNoSlash(init);
      assert s == init + [s[|s| - 1]];
    }
  }

  /** A final slash-free segment `b` after a slash is exactly the last piece. */
  lemma {:induction false} SplitLastSegment(a: string, b: string)
    requires '/' !in b
    ensures Split(a + "/" + b) == Split(a) + [b]
    decreases |b|
  {
    if b == [] {
      assert a + "/" + b == a + "/";
      assert (a + "/")[..|a|] == a;
    } else {
      var b' := b[..|b| - 1];
      var c := b[|b| - 1];
      assert forall ch :: ch in b' ==> ch in b;
      SplitLastSegment(a, b');
      var s := a + "/" + b;
      assert s[..|s| - 1] == a + "/" + b';
      assert s[|s| - 1] == c && c != '/';
      assert (Split(a) + [b'])[..|Split(a)|] == Split(a);
      assert b' + [c] == b;
    }
  }

  /** The directory of `a/b` with `b` free of slashes is `a/`; a path
      without slashes lies in `./`. */
  lemma RelativeDirIsPrefix(a: string, b: string)
    requires '/' !in b
    ensures RelativeDir(a + "/" + b) == a + "/"
  {
    var s := a + "/" + b;
    assert s[|a|] == '/';
    SplitLastSegment(a, b);
    assert (Split(a) + [b])[..|Split(a)|] == Split(a);
    JoinSplit(a);
  }

  lemma RelativeDirBare(path: string)
    requires '/' !in path
    ensures RelativeDir(path) == "./"
  {
  }

  // ---------------------------------------------------------------------
  // File paths inside a manifest
  // ---------------------------------------------------------------------

  /** A path `loadDepsObject` leaves alone: it contains `:` (a URL with a
      scheme) or starts with `/`. */
  predicate IsAbsolute(file: string) {
    ':' in file || (|file| > 0 && file[0] == '/')
  }

  /** The prefix-if-relative rule. */
  function Resolve(file: string, absolutePath: string): string {
    if IsAbsolute(file) then file else absolutePath + file
  }

  /** Under an absolute base every resolved path is absolute, so resolving
      twice is resolving once; and an absolute path is never touched. */
  lemma ResolveIdempotent(file: string, absolutePath: string)
    requires IsAbsolute(absolutePath)
    ensures IsAbsolute(Resolve(file, absolutePath))
    ensures Resolve(Resolve(file, absolutePath), absolutePath) == Resolve(file, absolutePath)
  {
    if !IsAbsolute(file) {
      var r := absolutePath + file;
      if ':' in absolutePath {
        var i :| 0 <= i < |absolutePath| && absolutePath[i] == ':';
        assert r[i] == ':';
      } else {
        assert r[0] == '/';
      }
    }
  }

  /** A relative path keeps its text after the base. */
  lemma ResolveRelative(file: string, absolutePath: string)
    requires !IsAbsolute(file)
    ensures Resolve(file, absolutePath) == absolutePath + file
    ensures Resolve(file, absolutePath)[|absolutePath|..] == file
  {
  }

  // ---------------------------------------------------------------------
  // Manifests
  // ---------------------------------------------------------------------

  /** Parsed manifest data: the current object form with a version, the rows
      `[file, provided, required, size, type]` and the optional nested
      manifests, or the legacy bare array of rows. */
  datatype Manifest =
    | Current(version: int, packages: seq<Entry>, dependencies: Option<seq<string>>)
    | Legacy(rows: seq<Entry>)

  /** The conversion of a legacy array into version 0 of the object form. */
  function Upgrade(m: Manifest): (r: Manifest)
    ensures r.Current?
    ensures m.Legacy? ==> r == Current(0, m.rows, None)
    ensures m.Current? ==> r == m
  {
    match m
    case Legacy(rows) => Current(0, rows, None)
    case Current(_, _, _) => m
  }

  /** The upgrade is a normal form: upgrading twice is upgrading once, the
      rows are kept in order, and a legacy array loads exactly as the
      version-0 object with the same rows and no nested manifests. */
  lemma UpgradeCanonical(m: Manifest, absolutePath: string)
    ensures Upgrade(Upgrade(m)) == Upgrade(m)
    ensures Upgrade(m).packages == (if m.Legacy? then m.rows else m.packages)
    ensures m.Legacy? ==>
              Resolved(Upgrade(m), absolutePath) == Resolved(Current(0, m.rows, None), absolutePath)
  {
  }

  /** A row with its file resolved against the base; nothing else in the
      row changes. */
  function ResolveRow(e: Entry, absolutePath: string): Entry {
    e.(file := Resolve(e.file, absolutePath))
  }

  /** Every row's file resolved against the base. */
  function ResolveAll(rows: seq<Entry>, absolutePath: string): (r: seq<Entry>)
    ensures |r| == |rows|
  {
    if rows == [] then []
    else [ResolveRow(rows[0], absolutePath)] + ResolveAll(rows[1..], absolutePath)
  }

  /** Row k of the resolved rows is row k with its file resolved. */
  lemma {:induction false} ResolveAllAt(rows: seq<Entry>, absolutePath: string, k: nat)
    requires k < |rows|
    ensures ResolveAll(rows, absolutePath)[k] == ResolveRow(rows[k], absolutePath)
  {
    if k > 0 {
      ResolveAllAt(rows[1..], absolutePath, k - 1);
    }
  }

  /** Rows resolved one by one, in any order, are the resolved rows. */
  lemma ResolveAllEach(rows: seq<Entry>, absolutePath: string, out: seq<Entry>)
    requires |out| == |rows|
    requires forall k :: 0 <= k < |rows| ==> out[k] == ResolveRow(rows[k], absolutePath)
    ensures out == ResolveAll(rows, absolutePath)
  {
    forall k | 0 <= k < |rows|
      ensures out[k] == ResolveAll(rows, absolutePath)[k]
    {
      ResolveAllAt(rows, absolutePath, k);
    }
  }

  /** The upgraded manifest with its paths resolved. */
  function Resolved(m: Manifest, absolutePath: string): Manifest
    requires m.Current?
  {
    m.(packages := ResolveAll(m.packages, absolutePath))
  }

  /** Registering the rows of a manifest, the last row first. */
  function RegisterRows(r: Reg, rows: seq<Entry>): Reg {
    if rows == [] then r else AddDep(RegisterRows(r, rows[1..]), rows[0])
  }

  /** Loading a manifest registers every name any row provides, and keeps
      every name that was registered before. */
  lemma {:induction false} RegisterRowsGrows(r: Reg, rows: seq<Entry>, p: string)
    ensures p in r.packs ==> p in RegisterRows(r, rows).packs
    ensures (exists k :: 0 <= k < |rows| && p in rows[k].provided) ==> p in RegisterRows(r, rows).packs
  {
    if rows != [] {
      RegisterRowsGrows(r, rows[1..], p);
      AddDepEffect(RegisterRows(r, rows[1..]), rows[0], p);
      if exists k :: 0 <= k < |rows| && p in rows[k].provided {
        var k :| 0 <= k < |rows| && p in rows[k].provided;
        if k > 0 {
          assert rows[1..][k - 1] == rows[k];
        }
      }
    }
  }

  /** Loading a manifest never clobbers a package that has left STATE_NONE. */
  lemma {:induction false} RegisterRowsKeepsStarted(r: Reg, rows: seq<Entry>, p: string)
    requires p in r.packs && r.packs[p].state != Unseen
    ensures p in RegisterRows(r, rows).packs && RegisterRows(r, rows).packs[p] == r.packs[p]
  {
    if rows != [] {
      RegisterRowsKeepsStarted(r, rows[1..], p);
      AddDepKeepsStarted(RegisterRows(r, rows[1..]), rows[0], p);
    }
  }
}
