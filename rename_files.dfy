/** `rename_files.py`: every file whose name is `YYYY-MM-DD_rest` is renamed to
    `YYYY-MM-DD-rest` in its own directory; the walk records the renamed paths
    and the files whose rename raised. The match is
    `re.match(r'^(\d{4}-\d{2}-\d{2})_(.*)$', f)`: `.` stops at a newline and
    `$` also matches just before a final newline, which the new name drops. */
module RenameFiles {
  import opened Text
  import opened Walk

  /** `\d{4}-\d{2}-\d{2}`, the first group. */
  predicate DateStem(s: string)
  {
    |s| == 10 && AllDigits(s[..4]) && s[4] == '-' && AllDigits(s[5..7]) && s[7] == '-' && AllDigits(s[8..10])
  }

  /** What `(.*)$` leaves for the second group after the underscore: the rest
      of the name, less one final newline. */
  function Rest(f: string): string
    requires |f| >= 11 && f[10] == '_'
  {
    if f[|f| - 1] == '\n' then f[11..|f| - 1] else f[11..]
  }

  /** The new name `f'{m.group(1)}-{m.group(2)}'`, or None when the pattern
      does not match. The new name is the old one with the underscore at index
      10 turned into a dash and, if the old one ended with a newline, without
      that newline. */
  function RenameTarget(f: string): (r: Option<string>)
    ensures r.Some? ==>
      var n := r.value;
      && |f| >= 11 && f[10] == '_'
      && (f[|f| - 1] == '\n' ==> |n| == |f| - 1)
      && (f[|f| - 1] != '\n' ==> |n| == |f|)
      && |n| >= 11 && n[10] == '-'
      && forall k :: 0 <= k < |n| && k != 10 ==> n[k] == f[k]
  {
    if |f| >= 11 && DateStem(f[..10]) && f[10] == '_' && '\n' !in Rest(f) then
      Some(f[..10] + "-" + Rest(f))
    else None
  }

  /** The pattern, read the way the regular expression is written: the date,
      an underscore, a rest without newlines, and at most one final newline. */
  predicate PatternMatch(f: string, date: string, rest: string)
  {
    DateStem(date) && '\n' !in rest && (f == date + "_" + rest || f == date + "_" + rest + "\n")
  }

  /** A name is renamed exactly when the pattern matches it, and its new name
      joins the two groups with a dash. */
  lemma RenameTargetMeaning(f: string)
    ensures RenameTarget(f).Some? <==> exists date, rest :: PatternMatch(f, date, rest)
    ensures forall date, rest :: PatternMatch(f, date, rest) ==> RenameTarget(f) == Some(date + "-" + rest)
  {
    if RenameTarget(f).Some? {
      var date, rest := f[..10], Rest(f);
      if f[|f| - 1] == '\n' {
        assert f == date + "_" + rest + "\n";
      } else {
        assert f == date + "_" + rest;
      }
      assert PatternMatch(f, date, rest);
    }
    forall date, rest | PatternMatch(f, date, rest)
      ensures RenameTarget(f) == Some(date + "-" + rest)
    {
      assert f[..10] == date && f[10] == '_';
      if f == date + "_" + rest + "\n" {
        assert f[11..|f| - 1] == rest;
      } else {
        assert f[11..] == rest;
        if rest != [] {
          assert f[|f| - 1] == rest[|rest| - 1];
        }
      }
      assert Rest(f) == rest;
    }
  }

  /** The inverse: putting the underscore back gives the old name, up to the
      final newline the pattern drops. */
  function Restore(n: string): string
    requires |n| >= 11
  {
    n[..10] + "_" + n[11..]
  }

  lemma RestoreUndoesRename(f: string)
    requires RenameTarget(f).Some?
    ensures f[|f| - 1] != '\n' ==> Restore(RenameTarget(f).value) == f
    ensures f[|f| - 1] == '\n' ==> Restore(RenameTarget(f).value) + "\n" == f
  {
    var n := RenameTarget(f).value;
    assert n[..10] == f[..10] && n[11..] == Rest(f);
    if f[|f| - 1] == '\n' {
      assert f == f[..10] + "_" + Rest(f) + "\n";
    } else {
      assert f == f[..10] + "_" + Rest(f);
    }
  }

  /** A second run renames nothing: a new name has a dash where the pattern
      wants an underscore. */
  lemma RenameIdempotent(f: string)
    requires RenameTarget(f).Some?
    ensures RenameTarget(RenameTarget(f).value).None?
  {
  }

  /** A name and the same name with a final newline get the same new name. */
  lemma FinalNewlineDropped(f: string)
    requires f == [] || f[|f| - 1] != '\n'
    ensures RenameTarget(f + "\n") == RenameTarget(f)
  {
    var g := f + "\n";
    if |g| >= 11 && g[10] == '_' {
      assert g[..10] == f[..10];
      assert g[11..|g| - 1] == f[11..];
    }
  }

  /** The path handed to `os.rename`. */
  function OldPath(e: Entry): string
  {
    PathJoin(e.dirpath, e.name)
  }

  /** The path the file is renamed to. */
  function NewPath(e: Entry): string
    requires RenameTarget(e.name).Some?
  {
    PathJoin(e.dirpath, RenameTarget(e.name).value)
  }

  /** A renamed file stays in its directory: both paths are the directory
      followed by the name, since a name that starts with a digit is never
      absolute. */
  lemma DirectoryPreserved(e: Entry)
    requires RenameTarget(e.name).Some?
    ensures OldPath(e) == DirPrefix(e.dirpath) + e.name
    ensures NewPath(e) == DirPrefix(e.dirpath) + RenameTarget(e.name).value
  {
    assert e.name[0] == e.name[..4][0];
  }

  /** The four lists the walk appends to. */
  datatype RenameLedgers = RenameLedgers(
    oldFilepaths: seq<string>, newFilepaths: seq<string>,
    failedDirpaths: seq<string>, failedFiles: seq<string>)

  /** One visited file: skipped when the pattern does not match, otherwise
      recorded as renamed when `os.rename` succeeds (`renames` says whether it
      does) and as failed when it raises. */
  function Record(led: RenameLedgers, e: Entry, renames: (string, string) -> bool): RenameLedgers
  {
    match RenameTarget(e.name)
    case None => led
    case Some(n) =>
      if renames(OldPath(e), PathJoin(e.dirpath, n)) then
        led.(oldFilepaths := led.oldFilepaths + [OldPath(e)], newFilepaths := led.newFilepaths + [PathJoin(e.dirpath, n)])
      else
        led.(failedDirpaths := led.failedDirpaths + [e.dirpath], failedFiles := led.failedFiles + [e.name])
  }

  /** The ledgers after visiting the given files in order. */
  function Tally(entries: seq<Entry>, renames: (string, string) -> bool): (led: RenameLedgers)
    ensures |led.oldFilepaths| == |led.newFilepaths|
    ensures |led.failedDirpaths| == |led.failedFiles|
  {
    if entries == [] then RenameLedgers([], [], [], [])
    else Record(Tally(entries[..|entries| - 1], renames), entries[|entries| - 1], renames)
  }

  /** The files the pattern matches. */
  function Matching(entries: seq<Entry>): seq<Entry>
  {
    if entries == [] then []
    else
      var e := entries[|entries| - 1];
      Matching(entries[..|entries| - 1]) + (if RenameTarget(e.name).Some? then [e] else [])
  }

  /** The files renamed without error. */
  function Renamed(entries: seq<Entry>, renames: (string, string) -> bool): (r: seq<Entry>)
    ensures forall k :: 0 <= k < |r| ==> RenameTarget(r[k].name).Some? && renames(OldPath(r[k]), NewPath(r[k]))
  {
    if entries == [] then []
    else
      var e := entries[|entries| - 1];
      Renamed(entries[..|entries| - 1], renames)
        + (if RenameTarget(e.name).Some? && renames(OldPath(e), NewPath(e)) then [e] else [])
  }

  /** The files whose rename raised. */
  function Failed(entries: seq<Entry>, renames: (string, string) -> bool): (r: seq<Entry>)
    ensures forall k :: 0 <= k < |r| ==> RenameTarget(r[k].name).Some? && !renames(OldPath(r[k]), NewPath(r[k]))
  {
    if entries == [] then []
    else
      var e := entries[|entries| - 1];
      Failed(entries[..|entries| - 1], renames)
        + (if RenameTarget(e.name).Some? && !renames(OldPath(e), NewPath(e)) then [e] else [])
  }

  /** The ledgers hold exactly the renamed files, each as its old and new path
      at the same position, and exactly the failed ones, each as its directory
      and name; every matching file is in one of the two and no other file is
      in either. */
  lemma {:induction false} TallyAccounts(entries: seq<Entry>, renames: (string, string) -> bool)
    ensures var led := Tally(entries, renames);
      var r := Renamed(entries, renames);
      var x := Failed(entries, renames);
      && |led.oldFilepaths| == |r|
      && (forall k :: 0 <= k < |r| ==> led.oldFilepaths[k] == OldPath(r[k]) && led.newFilepaths[k] == NewPath(r[k]))
      && |led.failedFiles| == |x|
      && (forall k :: 0 <= k < |x| ==> led.failedDirpaths[k] == x[k].dirpath && led.failedFiles[k] == x[k].name)
      && |r| + |x| == |Matching(entries)|
  {
    if entries != [] {
      TallyAccounts(entries[..|entries| - 1], renames);
    }
  }

  lemma TallyNext(seen: seq<Entry>, e: Entry, renames: (string, string) -> bool)
    ensures Tally(seen + [e], renames) == Record(Tally(seen, renames), e, renames)
  {
    assert (seen + [e])[..|seen|] == seen;
  }

  /** The `__main__` walk, appending to the four lists in place. */
  method RenameWalk(walk: seq<WalkDir>, renames: (string, string) -> bool) returns (led: RenameLedgers)
    ensures led == Tally(Entries(walk), renames)
  {
    var oldFilepaths, newFilepaths := [], [];
    var failedDirpaths, failedFiles := [], [];
    ghost var seen := [];
    for i := 0 to |walk|
      invariant seen == Entries(walk[..i])
      invariant RenameLedgers(oldFilepaths, newFilepaths, failedDirpaths, failedFiles) == Tally(seen, renames)
    {
      var dirpath, files := walk[i].dirpath, walk[i].files;
      assert seen + DirEntries(walk[i])[..0] == seen;
      for j := 0 to |files|
        invariant seen == Entries(walk[..i]) + DirEntries(walk[i])[..j]
        invariant RenameLedgers(oldFilepaths, newFilepaths, failedDirpaths, failedFiles) == Tally(seen, renames)
      {
        var f := files[j];
        VisitStep(walk, i, j);
        TallyNext(seen, Entry(dirpath, f), renames);
        seen := seen + [Entry(dirpath, f)];
        var m := RenameTarget(f);
        if m.None? {
          continue;
        }
        var filepath := PathJoin(dirpath, f);
        var filepathRenamed := PathJoin(dirpath, m.value);
        if renames(filepath, filepathRenamed) {
          oldFilepaths := oldFilepaths + [filepath];
          newFilepaths := newFilepaths + [filepathRenamed];
        } else {
          failedDirpaths := failedDirpaths + [dirpath];
          failedFiles := failedFiles + [f];
        }
      }
      DirDone(walk, i);
    }
    assert walk[..|walk|] == walk;
    led := RenameLedgers(oldFilepaths, newFilepaths, failedDirpaths, failedFiles);
  }
}
