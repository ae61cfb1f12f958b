/** The main loop of `update_metadata_by_filename.py`: for every file of the
    walk, skip names without a listed extension, guess a date from the name,
    read the metadata text, compare, and when they disagree save the old
    metadata and write the new date, keeping the report lists as it goes.
    exiftool's text dump and the file size are given as functions of the file
    path; the two side effects the loop causes (the `_metadata.txt` copy and
    the exiftool write) are recorded in order as `Effect`s. */
module UpdateByFilename {
  import opened Text
  import opened Walk
  import opened FilenameDate
  import opened MetadataDate
  import opened Reconcile

  /** The alternatives of `.*\.(jpg|JPG|jpeg|JPEG|png|PNG|mp4|MP4|m4v|M4V)$`. */
  const Extensions: seq<string> := ["jpg", "JPG", "jpeg", "JPEG", "png", "PNG", "mp4", "MP4", "m4v", "M4V"]

  /** The part of f the pattern must cover: `$` also matches before one final
      newline. */
  function MatchBody(f: string): string
  {
    if |f| > 0 && f[|f| - 1] == '\n' then f[..|f| - 1] else f
  }

  /** A way of reading f as the pattern does: `.*` takes a stem without a
      newline, then come a dot and one of the listed extensions, and at most
      one final newline. */
  predicate ListedSpelling(f: string, stem: string, e: string)
  {
    e in Extensions && '\n' !in stem && (f == stem + "." + e || f == stem + "." + e + "\n")
  }

  /** `re.match(r'.*\.(jpg|...|M4V)$', f) is not None`: no newline before the
      end (`.` does not match one), and a dot and a listed extension, in one
      of the two spellings listed, at the end. */
  function IsListedMedia(f: string): (b: bool)
    ensures b <==> exists stem, e :: ListedSpelling(f, stem, e)
  {
    ListedIff(f);
    var body := MatchBody(f);
    '\n' !in body && exists e :: e in Extensions && EndsWith(body, "." + e)
  }

  /** The listed extensions are letters only. */
  lemma ExtensionLetters()
    ensures forall e :: e in Extensions ==> |e| >= 3 && '\n' !in e
  {
    forall e | e in Extensions
      ensures |e| >= 3 && '\n' !in e
    {
      assert "jpg" == ['j', 'p', 'g'] && "JPG" == ['J', 'P', 'G'];
      assert "jpeg" == ['j', 'p', 'e', 'g'] && "JPEG" == ['J', 'P', 'E', 'G'];
      assert "png" == ['p', 'n', 'g'] && "PNG" == ['P', 'N', 'G'];
      assert "mp4" == ['m', 'p', '4'] && "MP4" == ['M', 'P', '4'];
      assert "m4v" == ['m', '4', 'v'] && "M4V" == ['M', '4', 'V'];
    }
  }

  /** The matcher accepts f exactly when f has a listed spelling. */
  lemma ListedIff(f: string)
    ensures ('\n' !in MatchBody(f) && exists e :: e in Extensions && EndsWith(MatchBody(f), "." + e))
      <==> exists stem, e :: ListedSpelling(f, stem, e)
  {
    var body := MatchBody(f);
    if '\n' !in body && exists e :: e in Extensions && EndsWith(body, "." + e) {
      var e :| e in Extensions && EndsWith(body, "." + e);
      MatchedSpelling(f, e);
    }
    if exists stem, e :: ListedSpelling(f, stem, e) {
      var stem, e :| ListedSpelling(f, stem, e);
      SpellingMatched(f, stem, e);
    }
  }

  lemma MatchedSpelling(f: string, e: string)
    requires e in Extensions && '\n' !in MatchBody(f) && EndsWith(MatchBody(f), "." + e)
    ensures ListedSpelling(f, MatchBody(f)[..|MatchBody(f)| - |e| - 1], e)
  {
    var body := MatchBody(f);
    var stem := body[..|body| - |e| - 1];
    assert body == stem + "." + e;
    forall k | 0 <= k < |stem|
      ensures stem[k] != '\n'
    {
      assert stem[k] == body[k];
    }
  }

  lemma SpellingMatched(f: string, stem: string, e: string)
    requires ListedSpelling(f, stem, e)
    ensures '\n' !in MatchBody(f) && EndsWith(MatchBody(f), "." + e)
  {
    var core := stem + "." + e;
    BodyOfSpelling(f, stem, e);
    assert core[|core| - |e| - 1..] == "." + e;
    forall k | 0 <= k < |core|
      ensures core[k] != '\n'
    {
      if k < |stem| {
        assert core[k] == stem[k];
      } else if k > |stem| {
        assert core[k] == e[k - |stem| - 1];
      }
    }
  }

  /** The pattern's `$` leaves exactly the stem, the dot and the extension. */
  lemma BodyOfSpelling(f: string, stem: string, e: string)
    requires ListedSpelling(f, stem, e)
    ensures MatchBody(f) == stem + "." + e
    ensures '\n' !in e
  {
    ExtensionLetters();
    var core := stem + "." + e;
    assert core[|core| - 1] == e[|e| - 1] != '\n';
    if f == core + "\n" {
      assert f[..|f| - 1] == core;
    }
  }

  /** `get_metadata(filepath)`: a two-line header, then exiftool's dump, which
      starts right after a newline, so that each of its lines is a line of the
      text the date search scans. */
  function MetadataText(filepath: string, size: nat, dump: string): (t: string)
    ensures |t| > |dump| && t[|t| - |dump|..] == dump && t[|t| - |dump| - 1] == '\n'
  {
    "metadata for " + filepath + "\nfile size = " + Decimal(size) + "\n" + dump
  }

  /** For a path without a newline, the lines of the text are the path line,
      the size line, and then exactly the lines of the dump. */
  lemma MetadataLines(filepath: string, size: nat, dump: string)
    requires '\n' !in filepath
    ensures SplitOn(MetadataText(filepath, size, dump), '\n')
      == ["metadata for " + filepath, "file size = " + Decimal(size)] + SplitOn(dump, '\n')
  {
    var h1, h2 := "metadata for " + filepath, "file size = " + Decimal(size);
    assert '\n' !in h1 by {
      forall k | 0 <= k < |h1|
        ensures h1[k] != '\n'
      {
        if k >= 13 {
          assert h1[k] == filepath[k - 13];
        }
      }
    }
    assert '\n' !in h2 by {
      var d := Decimal(size);
      forall k | 0 <= k < |h2|
        ensures h2[k] != '\n'
      {
        if k >= 12 {
          assert h2[k] == d[k - 12];
        }
      }
    }
    var rest := h2 + ['\n'] + dump;
    assert MetadataText(filepath, size, dump) == h1 + ['\n'] + rest;
    FirstSeparator(h1, '\n', rest);
    FirstSeparator(h2, '\n', dump);
    assert SplitOn(h1 + ['\n'] + rest, '\n') == [h1] + SplitOn(rest, '\n');
    assert SplitOn(rest, '\n') == [h2] + SplitOn(dump, '\n');
  }

  /** What the loop does outside its lists: `save_metadata` writes a copy of
      the old metadata, `change_metadata` runs exiftool to set the file's
      `DateTimeOriginal` to a timestamp (the string it formats for that is
      `Reconcile.TagValue`). */
  datatype Effect = SaveMetadata(path: string, text: string) | ChangeMetadata(filepath: string, ts: Timestamp)

  /** Which list a file ends up in (none, when the dates agree). */
  datatype Outcome = Ignored | Unchanged | Updated(oldDate: Ymd, newDate: seq<nat>) | Failed

  datatype Step = Step(outcome: Outcome, effects: seq<Effect>)

  /** One pass of the inner loop body, once its inputs are known: whether the
      name is listed, what `guess_date` made of it, the metadata text and the
      date found in it. The `try` catches the AssertionError of `guess_date`,
      the TypeError of subscripting a missing metadata date and the
      NotImplementedError of `change_metadata`; the metadata copy saved before
      that last one stays. */
  function Handle(filepath: string, listed: bool, guess: Guess, text: string, found: Option<Ymd>): (st: Step)
    ensures st.outcome.Ignored? <==> !listed
    ensures st.outcome.Ignored? || st.outcome.Unchanged? ==> st.effects == []
    ensures st.outcome.Unchanged? <==> listed && guess.Guessed? && Decide(guess.date, found) == Keep
    ensures st.outcome.Updated? <==>
      listed && guess.Guessed? && Decide(guess.date, found) == Rewrite && Materialize(guess.date).Materialized?
    ensures st.outcome.Updated? ==>
      && guess == Guessed(st.outcome.newDate) && found == Some(st.outcome.oldDate)
      && st.effects == [SaveMetadata(filepath + "_metadata.txt", text),
                        ChangeMetadata(filepath, Materialize(st.outcome.newDate).ts)]
    ensures st.outcome.Failed? ==>
      st.effects == [] || st.effects == [SaveMetadata(filepath + "_metadata.txt", text)]
    ensures st.outcome.Failed? && st.effects == [] <==>
      listed && (guess.OutOfRange? || Decide(guess.date, found) == SubscriptError)
  {
    if !listed then Step(Ignored, [])
    else match guess
      case OutOfRange => Step(Failed, [])
      case Guessed(date) =>
        match Decide(date, found)
        case SubscriptError => Step(Failed, [])
        case Keep => Step(Unchanged, [])
        case Rewrite =>
          var save := SaveMetadata(filepath + "_metadata.txt", text);
          match Materialize(date)
          case NotImplemented => Step(Failed, [save])
          case Materialized(ts) =>
            if found.Some? then Step(Updated(found.value, date), [save, ChangeMetadata(filepath, ts)])
            else assert false; Step(Failed, [save])
  }

  /** The loop body for file f of directory dirpath. A file goes to the
      ignored list exactly when its name lacks a listed extension; nothing is
      written when the dates agree; a disagreement saves the old metadata
      first and then writes the tag value of the materialised name date,
      recording the old and new dates; a failure of `guess_date` or a missing
      metadata date writes nothing. */
  function ProcessFile(dirpath: string, f: string, sizeOf: string -> nat, dumpOf: string -> string): (st: Step)
    ensures st.outcome == Ignored <==> !IsListedMedia(f)
    ensures st.outcome.Ignored? || st.outcome.Unchanged? ==> st.effects == []
    ensures st.outcome.Unchanged? <==>
      IsListedMedia(f) && GuessDate(f).Guessed?
      && Decide(GuessDate(f).date, DateFromMetadata(OldMetadata(dirpath, f, sizeOf, dumpOf))) == Keep
    ensures st.outcome.Updated? ==>
      && IsListedMedia(f) && GuessDate(f) == Guessed(st.outcome.newDate)
      && DateFromMetadata(OldMetadata(dirpath, f, sizeOf, dumpOf)) == Some(st.outcome.oldDate)
      && Decide(st.outcome.newDate, Some(st.outcome.oldDate)) == Rewrite
      && Materialize(st.outcome.newDate).Materialized?
      && st.effects == [SaveMetadata(PathJoin(dirpath, f) + "_metadata.txt", OldMetadata(dirpath, f, sizeOf, dumpOf)),
                        ChangeMetadata(PathJoin(dirpath, f), Materialize(st.outcome.newDate).ts)]
    ensures st.outcome.Failed? && st.effects == [] <==>
      IsListedMedia(f) && (GuessDate(f) == OutOfRange
        || Decide(GuessDate(f).date, DateFromMetadata(OldMetadata(dirpath, f, sizeOf, dumpOf))) == SubscriptError)
  {
    var text := OldMetadata(dirpath, f, sizeOf, dumpOf);
    Handle(PathJoin(dirpath, f), IsListedMedia(f), GuessDate(f), text, DateFromMetadata(text))
  }

  /** The metadata text the loop reads for file f of dirpath. */
  function OldMetadata(dirpath: string, f: string, sizeOf: string -> nat, dumpOf: string -> string): string
  {
    var filepath := PathJoin(dirpath, f);
    MetadataText(filepath, sizeOf(filepath), dumpOf(filepath))
  }

  /** A listed file whose name does not start with four digits gets the empty
      tuple, which never agrees: its old metadata is saved, then
      `change_metadata` raises and the file is reported as failed. */
  lemma UndatedNameFails(dirpath: string, f: string, sizeOf: string -> nat, dumpOf: string -> string)
    requires IsListedMedia(f) && !DigitsAt(f, 0, 4)
    ensures ProcessFile(dirpath, f, sizeOf, dumpOf)
      == Step(Failed, [SaveMetadata(PathJoin(dirpath, f) + "_metadata.txt", OldMetadata(dirpath, f, sizeOf, dumpOf))])
  {
    assert GuessDate(f) == Guessed([]);
  }

  /** The six report lists and the effects, in order. */
  datatype Ledgers = Ledgers(
    updatedFilepaths: seq<string>, updatedOld: seq<Ymd>, updatedNew: seq<seq<nat>>,
    failedDirpaths: seq<string>, failedFiles: seq<string>,
    ignoredFilepaths: seq<string>,
    effects: seq<Effect>)

  const NoLedgers := Ledgers([], [], [], [], [], [], [])

  /** The appends one file causes. */
  function Record(led: Ledgers, e: Entry, st: Step): Ledgers
  {
    var filepath := PathJoin(e.dirpath, e.name);
    var led' := led.(effects := led.effects + st.effects);
    match st.outcome
    case Ignored => led'.(ignoredFilepaths := led.ignoredFilepaths + [filepath])
    case Unchanged => led'
    case Updated(oldDate, newDate) =>
      led'.(updatedFilepaths := led.updatedFilepaths + [filepath],
            updatedOld := led.updatedOld + [oldDate], updatedNew := led.updatedNew + [newDate])
    case Failed => led'.(failedDirpaths := led.failedDirpaths + [e.dirpath], failedFiles := led.failedFiles + [e.name])
  }

  /** The loop body as a function of the visited entry. */
  function FileStep(sizeOf: string -> nat, dumpOf: string -> string): Entry -> Step
  {
    (e: Entry) => ProcessFile(e.dirpath, e.name, sizeOf, dumpOf)
  }

  /** The lists after visiting the given files, in order, each file handled by
      `step`. The three `updated_` lists grow together, and so do the two
      `failed_` lists. */
  function Tally(entries: seq<Entry>, step: Entry -> Step): (led: Ledgers)
    ensures |led.updatedFilepaths| == |led.updatedOld| == |led.updatedNew|
    ensures |led.failedDirpaths| == |led.failedFiles|
  {
    if entries == [] then NoLedgers
    else
      var e := entries[|entries| - 1];
      Record(Tally(entries[..|entries| - 1], step), e, step(e))
  }

  /** Number of files left alone. */
  function UnchangedCount(entries: seq<Entry>, step: Entry -> Step): nat
  {
    if entries == [] then 0
    else
      var e := entries[|entries| - 1];
      UnchangedCount(entries[..|entries| - 1], step) + (if step(e).outcome.Unchanged? then 1 else 0)
  }

  /** The files the loop ignores, in order. */
  function IgnoredEntries(entries: seq<Entry>, step: Entry -> Step): (r: seq<Entry>)
    ensures forall k :: 0 <= k < |r| ==> step(r[k]).outcome.Ignored?
  {
    if entries == [] then []
    else
      var e := entries[|entries| - 1];
      IgnoredEntries(entries[..|entries| - 1], step) + (if step(e).outcome.Ignored? then [e] else [])
  }

  /** The files the loop updates, in order. */
  function UpdatedEntries(entries: seq<Entry>, step: Entry -> Step): (r: seq<Entry>)
    ensures forall k :: 0 <= k < |r| ==> step(r[k]).outcome.Updated?
  {
    if entries == [] then []
    else
      var e := entries[|entries| - 1];
      UpdatedEntries(entries[..|entries| - 1], step) + (if step(e).outcome.Updated? then [e] else [])
  }

  /** The files whose `try` raised, in order. */
  function FailedEntries(entries: seq<Entry>, step: Entry -> Step): (r: seq<Entry>)
    ensures forall k :: 0 <= k < |r| ==> step(r[k]).outcome.Failed?
  {
    if entries == [] then []
    else
      var e := entries[|entries| - 1];
      FailedEntries(entries[..|entries| - 1], step) + (if step(e).outcome.Failed? then [e] else [])
  }

  /** The lists hold exactly the ignored files, as paths; the updated files,
      as paths with their old and new dates; and the failed files, as
      directory and name. Every visited file is counted once: updated,
      failed, ignored or left alone. */
  lemma {:induction false} TallyAccounts(entries: seq<Entry>, step: Entry -> Step)
    ensures var led := Tally(entries, step);
      var ig := IgnoredEntries(entries, step);
      var up := UpdatedEntries(entries, step);
      var fa := FailedEntries(entries, step);
      && |led.ignoredFilepaths| == |ig|
      && (forall k :: 0 <= k < |ig| ==> led.ignoredFilepaths[k] == PathJoin(ig[k].dirpath, ig[k].name))
      && |led.updatedFilepaths| == |up|
      && (forall k :: 0 <= k < |up| ==>
            && led.updatedFilepaths[k] == PathJoin(up[k].dirpath, up[k].name)
            && led.updatedOld[k] == step(up[k]).outcome.oldDate
            && led.updatedNew[k] == step(up[k]).outcome.newDate)
      && |led.failedFiles| == |fa|
      && (forall k :: 0 <= k < |fa| ==> led.failedDirpaths[k] == fa[k].dirpath && led.failedFiles[k] == fa[k].name)
      && |up| + |fa| + |ig| + UnchangedCount(entries, step) == |entries|
  {
    if entries != [] {
      TallyAccounts(entries[..|entries| - 1], step);
    }
  }

  /** The files exiftool was asked to change, in order. */
  function ChangedFiles(effects: seq<Effect>): seq<string>
  {
    if effects == [] then []
    else
      var last := effects[|effects| - 1];
      ChangedFiles(effects[..|effects| - 1]) + (if last.ChangeMetadata? then [last.filepath] else [])
  }

  lemma {:induction false} ChangedFilesAppend(a: seq<Effect>, b: seq<Effect>)
    ensures ChangedFiles(a + b) == ChangedFiles(a) + ChangedFiles(b)
    decreases |b|
  {
    if b == [] {
      assert a + b == a;
    } else {
      var c := a + b;
      assert c[..|c| - 1] == a + b[..|b| - 1];
      assert c[|c| - 1] == b[|b| - 1];
      ChangedFilesAppend(a, b[..|b| - 1]);
    }
  }

  /** Every exiftool write comes right after the metadata copy of the same
      file. */
  predicate SavedBeforeChanged(effects: seq<Effect>)
  {
    forall k :: 0 <= k < |effects| && effects[k].ChangeMetadata? ==>
      k > 0 && effects[k - 1].SaveMetadata? && effects[k - 1].path == effects[k].filepath + "_metadata.txt"
  }

  /** The effects one file may cause: none when it is ignored or left alone,
      the copy and then the write when it is updated, at most the copy when it
      fails. */
  predicate EffectsShape(e: Entry, st: Step)
  {
    var filepath := PathJoin(e.dirpath, e.name);
    match st.outcome
    case Updated(_, _) =>
      && |st.effects| == 2
      && st.effects[0].SaveMetadata? && st.effects[0].path == filepath + "_metadata.txt"
      && st.effects[1].ChangeMetadata? && st.effects[1].filepath == filepath
    case Failed => st.effects == [] || (|st.effects| == 1 && st.effects[0].SaveMetadata?)
    case _ => st.effects == []
  }

  /** One file's effects keep the order of writes and copies. */
  lemma StepEffects(before: seq<Effect>, e: Entry, st: Step)
    requires EffectsShape(e, st) && SavedBeforeChanged(before)
    ensures ChangedFiles(before + st.effects)
      == ChangedFiles(before) + (if st.outcome.Updated? then [PathJoin(e.dirpath, e.name)] else [])
    ensures SavedBeforeChanged(before + st.effects)
  {
    ChangedFilesAppend(before, st.effects);
    var eff := st.effects;
    if |eff| == 2 {
      assert eff[..1][..0] == [] && eff[..1][0] == eff[0];
      assert ChangedFiles(eff[..1]) == [];
      assert eff[..|eff| - 1] == eff[..1];
    } else if |eff| == 1 {
      assert eff[..0] == [];
    }
    var after := before + st.effects;
    forall k | 0 <= k < |after| && after[k].ChangeMetadata?
      ensures k > 0 && after[k - 1].SaveMetadata? && after[k - 1].path == after[k].filepath + "_metadata.txt"
    {
      if k >= |before| {
        assert k == |before| + 1;
      }
    }
  }

  /** Over any files whose steps have that shape: exiftool writes exactly the
      files on the updated list, in the same order, and never before their old
      metadata was saved. */
  lemma {:induction false} TallyEffects(entries: seq<Entry>, step: Entry -> Step)
    requires forall k :: 0 <= k < |entries| ==> EffectsShape(entries[k], step(entries[k]))
    ensures ChangedFiles(Tally(entries, step).effects) == Tally(entries, step).updatedFilepaths
    ensures SavedBeforeChanged(Tally(entries, step).effects)
  {
    if entries != [] {
      var prefix, e := entries[..|entries| - 1], entries[|entries| - 1];
      assert forall k :: 0 <= k < |prefix| ==> prefix[k] == entries[k];
      TallyEffects(prefix, step);
      StepEffects(Tally(prefix, step).effects, e, step(e));
    }
  }

  /** The walk of the script: every exiftool write follows the copy of the
      same file's metadata, and the files written are the updated list. */
  lemma WalkEffects(walk: seq<WalkDir>, sizeOf: string -> nat, dumpOf: string -> string)
    ensures var led := Tally(Entries(walk), FileStep(sizeOf, dumpOf));
      ChangedFiles(led.effects) == led.updatedFilepaths && SavedBeforeChanged(led.effects)
  {
    var entries := Entries(walk);
    assert forall k :: 0 <= k < |entries| ==> EffectsShape(entries[k], FileStep(sizeOf, dumpOf)(entries[k]));
    TallyEffects(entries, FileStep(sizeOf, dumpOf));
  }

  /** The body of the `try` for one listed or unlisted file: the steps of the
      script in order, stopping where it raises or continues. */
  method VisitFile(dirpath: string, f: string, sizeOf: string -> nat, dumpOf: string -> string) returns (st: Step)
    ensures st == ProcessFile(dirpath, f, sizeOf, dumpOf)
  {
    var filepath := PathJoin(dirpath, f);
    if !IsListedMedia(f) {
      return Step(Ignored, []);
    }
    var guess := GuessDate(f);
    if guess.OutOfRange? {
      return Step(Failed, []);
    }
    var oldMetadata := MetadataText(filepath, sizeOf(filepath), dumpOf(filepath));
    var metadataDate := DateFromMetadata(oldMetadata);
    st := CompareAndWrite(filepath, guess.date, oldMetadata, metadataDate);
  }

  /** The rest of the `try` once the name date and the metadata date are
      known: compare them, and when they disagree save the old metadata and
      write the name date. */
  method CompareAndWrite(filepath: string, date: seq<nat>, oldMetadata: string, metadataDate: Option<Ymd>)
    returns (st: Step)
    ensures st == Handle(filepath, true, Guessed(date), oldMetadata, metadataDate)
  {
    var decision := Decide(date, metadataDate);
    if decision == SubscriptError {
      return Step(Failed, []);
    } else if decision == Keep {
      return Step(Unchanged, []);
    }
    var effects := [SaveMetadata(filepath + "_metadata.txt", oldMetadata)];
    var newDate := Materialize(date);
    if newDate.NotImplemented? {
      return Step(Failed, effects);
    }
    effects := effects + [ChangeMetadata(filepath, newDate.ts)];
    st := Step(Updated(metadataDate.value, date), effects);
  }

  lemma TallyNext(seen: seq<Entry>, e: Entry, step: Entry -> Step)
    ensures Tally(seen + [e], step) == Record(Tally(seen, step), e, step(e))
  {
    assert (seen + [e])[..|seen|] == seen;
  }

  /** The `__main__` loop over `os.walk('.')`, appending to the six lists in
      place; the files of the walk are visited in the order `Entries` lists
      them. */
  method UpdateWalk(walk: seq<WalkDir>, sizeOf: string -> nat, dumpOf: string -> string) returns (led: Ledgers)
    ensures led == Tally(Entries(walk), FileStep(sizeOf, dumpOf))
  {
    var updatedFilepaths, updatedOld, updatedNew := [], [], [];
    var failedDirpaths, failedFiles := [], [];
    var ignoredFilepaths := [];
    var effects := [];
    ghost var seen := [];
    for i := 0 to |walk|
      invariant seen == Entries(walk[..i])
      invariant Ledgers(updatedFilepaths, updatedOld, updatedNew, failedDirpaths, failedFiles, ignoredFilepaths, effects)
                == Tally(seen, FileStep(sizeOf, dumpOf))
    {
      var dirpath, files := walk[i].dirpath, walk[i].files;
      assert seen + DirEntries(walk[i])[..0] == seen;
      for j := 0 to |files|
        invariant seen == Entries(walk[..i]) + DirEntries(walk[i])[..j]
        invariant Ledgers(updatedFilepaths, updatedOld, updatedNew, failedDirpaths, failedFiles, ignoredFilepaths, effects)
                  == Tally(seen, FileStep(sizeOf, dumpOf))
      {
        var f := files[j];
        VisitStep(walk, i, j);
        TallyNext(seen, Entry(dirpath, f), FileStep(sizeOf, dumpOf));
        seen := seen + [Entry(dirpath, f)];
        var filepath := PathJoin(dirpath, f);
        var st := VisitFile(dirpath, f, sizeOf, dumpOf);
        assert FileStep(sizeOf, dumpOf)(Entry(dirpath, f)) == st;
        effects := effects + st.effects;
        match st.outcome {
          case Ignored =>
            ignoredFilepaths := ignoredFilepaths + [filepath];
          case Unchanged =>
          case Updated(oldDate, newDate) =>
            updatedFilepaths := updatedFilepaths + [filepath];
            updatedOld := updatedOld + [oldDate];
            updatedNew := updatedNew + [newDate];
          case Failed =>
            failedDirpaths := failedDirpaths + [dirpath];
            failedFiles := failedFiles + [f];
        }
      }
      DirDone(walk, i);
    }
    assert walk[..|walk|] == walk;
    led := Ledgers(updatedFilepaths, updatedOld, updatedNew, failedDirpaths, failedFiles, ignoredFilepaths, effects);
  }

  /** `.mov` files are not among the listed extensions, whatever the case of
      the extension. */
  lemma MovIsNotListed(f: string)
    requires EndsWith(MatchBody(f), ".mov") || EndsWith(MatchBody(f), ".MOV")
    ensures !IsListedMedia(f)
  {
    var b := MatchBody(f);
    assert b[|b| - 2] == b[|b| - 4..][2];
    forall e | e in Extensions
      ensures !EndsWith(b, "." + e)
    {
      var t := "." + e;
      if |t| <= |b| {
        assert b[|b| - |t|..][|t| - 2] == b[|b| - 2];
        assert b[|b| - |t|..][|t| - 2] != t[|t| - 2];
      }
    }
  }

  /** A name of the script's own timestamp convention is listed. */
  lemma ListedTimestampName()
    ensures IsListedMedia("2021-03-19-195432.jpg")
  {
    var f := "2021-03-19-195432.jpg";
    assert MatchBody(f) == f;
    assert f[|f| - 4..] == "." + "jpg";
  }

  /** The alternatives spell each extension in lower and in upper case only:
      an upper-case `.JPG` is listed, a mixed-case `.Jpg` is not, although
      `is_jpg` accepts both. */
  lemma ListedCaseSensitive()
    ensures IsListedMedia("IMG_0001.JPG")
    ensures !IsListedMedia("IMG_0001.Jpg")
  {
    var f := "IMG_0001.JPG";
    assert MatchBody(f) == f;
    assert f[|f| - 4..] == "." + "JPG";
    var g := "IMG_0001.Jpg";
    assert MatchBody(g) == g;
    forall e | e in Extensions
      ensures !EndsWith(g, "." + e)
    {
      var t := "." + e;
      if |t| <= |g| {
        assert g[|g| - |t|..][|t| - 1] == g[|g| - 1] == 'g';
        assert g[|g| - |t|..][|t| - 2] == g[|g| - 2] == 'p';
        assert g[|g| - |t|..][|t| - 3] == g[|g| - 3] == 'J';
      }
    }
  }
}
