# Media-Scripts date logic, modelled in Dafny

The Media-Scripts repository is a set of Python scripts. They infer a capture date for photos and videos and correct the date stored in each file's metadata. This project models their decision logic and proves properties of it:

- **`guess_date`** reads a date tuple from a file name. A cascade of seven prefix patterns yields arity 6, 4, 3, 2 or 0. The patterns come with range checks and with zero coercion of the month or the day.
- **`get_date_from_metadata`** searches exiftool's text dump for three headings, in order of preference.
- **Date materialisation** (`change_metadata`) and the comparison of the main loop decide whether a file's metadata is rewritten.
- **The main loop of `update_metadata_by_filename.py`** keeps six report lists.
- **The `ExifTool` class** talks to one stay-open exiftool process. Commands are joined by newlines, and the script reads until the `{ready}\n` sentinel.
- **The extension classifiers** `is_jpg` .. `is_m4v` and the tag-fallback selectors `get_jpg_date` .. `get_m4v_date`.
- **`rename_files.py`** turns `YYYY-MM-DD_rest` into `YYYY-MM-DD-rest`.
- **`get_media_metadata.py`** collects the distinct tag-name tuples of each media kind.

Regular expressions are written out as matchers over `seq<char>`. The metadata-date pattern, the rename pattern and the listed-extension pattern also have a declarative statement of what they accept, and a lemma or contract connects each matcher to it. The seven `guess_date` patterns are written directly as matchers on fixed positions and digit runs.

The walks are imperative methods over an `os.walk` that is given as data: a sequence of directories with their file names. Each method is proved equal to a fold over the visited files, and the report-list properties are proved about that fold.

What comes from outside the scripts is passed in as parameters:

- exiftool's output, given as a sequence of chunks, or as a function from path to text dump;
- file sizes;
- whether `os.rename` succeeds;
- the tag names exiftool reports.

Modules: `Text` (digits, decimal formatting, lower-casing, join/split, `os.path.join`), `Walk`, `FilenameDate`, `MetadataDate`, `Reconcile`, `UpdateByFilename`, `ExifToolSession`, `MediaKinds`, `RenameFiles`, `MediaSurvey`.

Two details of the code shape what the model accepts:

- Under the year-month-day rules (update_metadata_by_filename.py:68-95) only a zero day is coerced to 1. The month is checked as read, so `"2021-00-05 photo.jpg"` fails the month check and raises (`FilenameDate.RejectedExamples`). A zero month becomes 1 only under the year-month rules (update_metadata_by_filename.py:98-121).
- The extension pattern at update_metadata_by_filename.py:261-263 lists jpg, jpeg, png, mp4 and m4v, each in lower and in upper case, and no mov. `.mov` files are therefore ignored (`UpdateByFilename.MovIsNotListed`).

## Model

| member | source | states |
|---|---|---|
| FilenameDate.GuessDate | update_metadata_by_filename.py:41-139 | every non-empty result passes the range checks: 1700 < year < 2025, month in [1,12], day in [1,31], hour ≤ 23, minute and second ≤ 59, arity in {2,3,4,6}; the empty tuple comes back exactly when the name does not start with four digits |
| FilenameDate.RunEnd | update_metadata_by_filename.py:69 | the end of the maximal run of digits (or non-digits) from i: every character before it is of the kind, and the character at it, if any, is not |
| FilenameDate.RulePriority | update_metadata_by_filename.py:50-137 | a name of the six-field shape never yields a shorter tuple; each arity comes from its rule only when every earlier rule failed to match; every field is read from its fixed position, with a zero day read as 1 under the year-month-day rules and a zero month read as 1 under the year-month rules; the order field is last and is the digit run after the separator, or 0 when there is none; conversely, when the first matching rule's fields pass its checks, the result is exactly the tuple of those fields |
| FilenameDate.YearOutOfRangeRaises | update_metadata_by_filename.py:58 | a year outside (1700, 2025) in the first four digits makes the heuristic raise, whatever rule matches |
| FilenameDate.NoFallThrough | update_metadata_by_filename.py:50-65 | a six-field name whose hour fails its check raises, even though the second rule alone would accept it |
| FilenameDate.ZeroCoercion | update_metadata_by_filename.py:58-63 | the six-field rule coerces no zero; a zero month under a year-month-day rule raises; a zero day becomes 1 under the year-month-day rules; a zero month becomes 1 under the year-month rules |
| FilenameDate.DigitRunEnd | update_metadata_by_filename.py:69 | a maximal digit run ends where the run end function says |
| FilenameDate.TimestampNameRoundTrip | update_metadata_by_filename.py:50-65 | a valid six-field date written as `YYYY-MM-DD-HHMMSS` followed by anything is read back as that date |
| FilenameDate.TimestampFields | update_metadata_by_filename.py:52-57 | the six groups are read from their fixed positions in a name made of digit strings |
| FilenameDate.DayOrderNameRoundTrip | update_metadata_by_filename.py:68-80 | `YYYY-MM-DD N…` with a valid date and a digit run N is read back as (year, month, day, N) |
| FilenameDate.DayOrderGuess | update_metadata_by_filename.py:68-80 | a date part, a separator that is neither a digit nor `-`, and a digit run give back the year, month, day and order when the date passes the checks |
| FilenameDate.DayGuess | update_metadata_by_filename.py:83-95 | a date part followed by no digit at all (a dash included) gives back the year, month and day with order 0 when the date passes the checks |
| FilenameDate.YmOrderGuess | update_metadata_by_filename.py:98-109 | a year-month prefix, a separator that is neither a digit nor `-`, and a digit run give back the year, the month (a zero month read as 1) and the order when they pass the checks |
| FilenameDate.YearOrderNameRoundTrip | update_metadata_by_filename.py:124-129 | `YYYY N…` with a year in range is read back as (year, N) |
| FilenameDate.DocumentedExample | update_metadata_by_filename.py:43 | `'2021-03-19-195432.jpg'` gives (2021, 3, 19, 19, 54, 32) |
| FilenameDate.AcceptedExamples | update_metadata_by_filename.py:68-137 | `2021-03-19_001.jpg` gives (2021, 3, 19, 1), `2021-03-19.jpg` gives (2021, 3, 19, 0), `1998-02 90.jpg` gives (1998, 2, 90), `2021-03.jpg` gives (2021, 3, 0) and `2021.jpg` gives (2021, 0) |
| FilenameDate.RejectedExamples | update_metadata_by_filename.py:68-80 | `"2021-00-05 photo.jpg"` and `"1699-01-01.jpg"` both raise |
| FilenameDate.SeparatedDate | update_metadata_by_filename.py:83-95 | a year-month-day prefix followed by a non-digit matches the third rule, and not the first unless the separator is `-` |
| MetadataDate.NonWordEnd | update_metadata_by_filename.py:171 | the end of the maximal run of `\W` characters from i |
| MetadataDate.DateStart | update_metadata_by_filename.py:172 | where a match's date begins; the date pattern holds there |
| MetadataDate.MatchAtMeaning | update_metadata_by_filename.py:171-174 | the matcher at line start i accepts exactly when the pattern `^heading\W+:\W+YYYY:MM:DD .+` matches there, and the pattern leaves the date only one place to start |
| MetadataDate.SearchFrom | update_metadata_by_filename.py:171-189 | `re.search`: the result is the leftmost position at or after i where the pattern matches, or None when it matches nowhere |
| MetadataDate.SearchMeaning | update_metadata_by_filename.py:191-196 | a search finds a date exactly when some line carries the heading with a date, and then gives the date of the first such line |
| MetadataDate.DateFromMetadata | update_metadata_by_filename.py:164-196 | Date/Time Original wins over Create Date, which wins over File Modification Date/Time; None only when no line carries any of the three |
| Reconcile.Materialize | update_metadata_by_filename.py:206-219 | a timestamp exists exactly for arities 2, 3, 4 and 6; any other arity raises NotImplementedError |
| Reconcile.MaterializeMeaning | update_metadata_by_filename.py:205-225 | arity 2 gives January 1st, arity 3 the 1st of the month; arities 2 to 4 give hour 0, minute·60 + second equal to the order, and second < 60; six fields pass verbatim; the tuple can be read back from the timestamp |
| Reconcile.PackedMinuteRange | update_metadata_by_filename.py:222-225 | the packed minute is a valid minute exactly when the order is below 3600 |
| Reconcile.WrittenTagValueLacksSeparator | update_metadata_by_filename.py:231-232 | when every field fits its width, the value written is 18 characters long, with a digit at index 10 where the date/time separator belongs; it differs from the EXIF layout only by that missing space |
| Reconcile.WrittenTagValueExample | update_metadata_by_filename.py:203-232 | `(1998, 2, 90)` becomes 1998-02-01 00:01:30 and is written as `1998:02:0100:01:30` |
| Reconcile.ExifTagValueRoundTrip | update_metadata_by_filename.py:231-232 | with the space the EXIF layout asks for, and when every field fits its width, the value has that layout and parses back to the timestamp |
| Reconcile.Decide | update_metadata_by_filename.py:276-297 | the write is skipped exactly when the dates agree on the year (arity 2), year and month (arity 3), or year, month and day (arity ≥ 4); a tuple of at least two fields with no metadata date raises TypeError; the empty tuple is always rewritten |
| Reconcile.PrefixAgreement | update_metadata_by_filename.py:276-297 | the leading fields of the name date equal those of the metadata date exactly when they agree one by one |
| Reconcile.TagValue | update_metadata_by_filename.py:231-232 | the string handed to exiftool is at least 18 characters long and contains no space |
| UpdateByFilename.MetadataText | update_metadata_by_filename.py:142-152 | the text `get_metadata` returns ends with exiftool's dump, which starts right after a newline |
| UpdateByFilename.MetadataLines | update_metadata_by_filename.py:151 | for a path without a newline, the text's lines are the path line, the size line, and then exactly the lines of the dump, so the date search sees every dump line as a line of its own |
| UpdateByFilename.IsListedMedia | update_metadata_by_filename.py:261-263 | a name is listed exactly when it is a newline-free stem, a dot and one of the ten listed extension spellings, optionally followed by one final newline (where `$` also matches) |
| UpdateByFilename.ListedIff | update_metadata_by_filename.py:261-263 | the end-anchored matcher accepts exactly the listed spellings |
| UpdateByFilename.Handle | update_metadata_by_filename.py:264-303 | ignored exactly when not listed; left alone exactly when the decision is to keep; updated exactly when the decision is to rewrite and the date materialises, and then the old metadata is saved before the write of that timestamp; a failure saves at most the copy, and saves nothing exactly when the range check or the metadata subscript raised |
| UpdateByFilename.ProcessFile | update_metadata_by_filename.py:259-303 | a file is ignored exactly when its name is not listed; it is left alone exactly when the decision is to keep; when updated, its old metadata was saved, then the materialised name date was written, and the old and new dates are recorded; a range failure or a missing metadata date fails the file with no effect |
| UpdateByFilename.UndatedNameFails | update_metadata_by_filename.py:276-298 | a listed file whose name has no leading year gets its metadata saved, then `change_metadata` raises and the file fails |
| UpdateByFilename.Tally | update_metadata_by_filename.py:295-303 | the three updated lists stay equal in length, and so do the two failed lists |
| UpdateByFilename.IgnoredEntries | update_metadata_by_filename.py:264-268 | every file listed was ignored by the loop |
| UpdateByFilename.UpdatedEntries | update_metadata_by_filename.py:288-295 | every file listed was updated by the loop |
| UpdateByFilename.FailedEntries | update_metadata_by_filename.py:298-303 | every file listed raised inside the `try` |
| UpdateByFilename.TallyAccounts | update_metadata_by_filename.py:257-303 | the ignored list is the paths of the ignored files; the three updated lists are the paths, old dates and new dates of the updated files; the two failed lists are the directories and names of the failed files; all in visiting order, and every visited file lands in exactly one group or is left alone |
| UpdateByFilename.StepEffects | update_metadata_by_filename.py:288-295 | appending one file's effects keeps every write right after its copy and adds the file to the written list exactly when it was updated |
| UpdateByFilename.TallyEffects | update_metadata_by_filename.py:257-303 | over files whose steps have that shape, exiftool writes exactly the updated files, in order, and never before their metadata copy |
| UpdateByFilename.WalkEffects | update_metadata_by_filename.py:257-303 | the same for the script's own walk |
| UpdateByFilename.VisitFile | update_metadata_by_filename.py:270-303 | the imperative `try` body computes the step the specification assigns to the file |
| UpdateByFilename.CompareAndWrite | update_metadata_by_filename.py:276-297 | the comparison and the write, once both dates are known, compute the step the specification assigns |
| UpdateByFilename.UpdateWalk | update_metadata_by_filename.py:257-303 | the nested loops leave the lists equal to the fold over the files of the walk, in visiting order |
| UpdateByFilename.MovIsNotListed | update_metadata_by_filename.py:261-263 | a `.mov` or `.MOV` file is never listed |
| UpdateByFilename.ListedTimestampName | update_metadata_by_filename.py:261-263 | `2021-03-19-195432.jpg` is listed |
| UpdateByFilename.ListedCaseSensitive | update_metadata_by_filename.py:261-263 | `IMG_0001.JPG` is listed and `IMG_0001.Jpg` is not: the alternatives spell each extension in lower or in upper case only |
| ExifToolSession.ReplyEndFrom | exiftool.py:36-37 | the first number of chunks, at least k, whose concatenation ends with the sentinel; None when no prefix does |
| ExifToolSession.ReadUntilSentinel | exiftool.py:34-38 | the reply plus the sentinel is exactly what was read; no shorter prefix of the reads ended with the sentinel; with no sentinel the loop does not return |
| ExifToolSession.WriteArgs | exiftool.py:58-59 | one argument per tag, then the file name last |
| ExifToolSession.WriteArgRoundTrip | exiftool.py:58 | `-k=v` is read back as k and v when k has no `=` |
| ExifToolSession.WriteArgsCarryTags | exiftool.py:58-59 | each tag of the dictionary reaches exiftool at its own position, in iteration order |
| ExifToolSession.Command | exiftool.py:31-32 | read line by line, a command whose arguments have no newline is the arguments, then `-execute`, then nothing |
| ExifToolSession.ExecuteLines | exiftool.py:31-32 | the same for the joined text, for any arguments |
| ExifToolSession.ReadArgs | exiftool.py:40-44 | the flags `-G`, `-j` and `-n`, then the file names in order |
| ExifToolSession.ReadTimeArgs | exiftool.py:46-50 | the same three options and `-time:all`, then the file names in order |
| ExifToolSession.ShutdownLines | exiftool.py:27 | teardown writes the lines `-stay_open` and `False` |
| ExifToolSession.ExifTool.constructor | exiftool.py:11-12 | a session records its executable, `/usr/local/bin/exiftool` unless another is given, and has written nothing |
| ExifToolSession.ExifTool.Enter | exiftool.py:14-24 | starts the executable with `-stay_open True -@ -` |
| ExifToolSession.ExifTool.Exit | exiftool.py:26-28 | appends exactly `-stay_open\nFalse\n` to standard input |
| ExifToolSession.ExifTool.Execute | exiftool.py:30-38 | appends the command to standard input; returns the output up to the sentinel and consumes those chunks |
| ExifToolSession.ExifTool.ReadMetadata | exiftool.py:40-44 | sends `-G -j -n` before the file names; returns the output up to the sentinel and consumes those chunks |
| ExifToolSession.ExifTool.ReadTimeMetadata | exiftool.py:46-50 | sends `-G -j -n -time:all` before the file names; returns the output up to the sentinel and consumes those chunks |
| ExifToolSession.ExifTool.WriteMetadata | exiftool.py:52-59 | sends the `-k=v` arguments, then the file name, and consumes the chunks of exiftool's reply |
| MediaKinds.LastIndex | exiftool.py:63 | `rfind`: the last index of the character, or -1 exactly when it is absent |
| MediaKinds.SplitExt | exiftool.py:63 | root plus extension is the name; the extension is empty or a dot followed by neither dots nor slashes; it is non-empty exactly when the last path component has a dot preceded by some non-dot character |
| MediaKinds.ExtensionCondition | exiftool.py:63 | the index test of `splitext` says the same as that declarative condition |
| MediaKinds.ExtOfSimpleName | exiftool.py:63 | a stem without dots followed by `.suffix` has `.suffix` as its extension |
| MediaKinds.HiddenNameHasNoExt | exiftool.py:63 | `.suffix` alone is a hidden name without extension |
| MediaKinds.IsJpg | exiftool.py:62-67 | accepts exactly the names whose extension is `.jpg` or `.jpeg` up to ASCII case |
| MediaKinds.IsPng | exiftool.py:70-75 | accepts exactly the names whose extension is `.png` up to ASCII case |
| MediaKinds.IsMov | exiftool.py:78-83 | accepts exactly the names whose extension is `.mov` up to ASCII case |
| MediaKinds.IsMp4 | exiftool.py:86-91 | accepts exactly the names whose extension is `.mp4` up to ASCII case |
| MediaKinds.IsM4v | exiftool.py:94-99 | accepts exactly the names whose extension is `.m4v` up to ASCII case |
| MediaKinds.Kind | get_media_metadata.py:40-52 | the `is_*` chain: a file is of a kind exactly when that kind's classifier accepts it, and of no kind when none does, so the order of the chain does not matter |
| MediaKinds.UpperCaseJpg | exiftool.py:62-67 | `IMG_0001.JPG` is a JPEG |
| MediaKinds.MixedCaseJpeg | exiftool.py:62-67 | `scan.Jpeg` is a JPEG |
| MediaKinds.HiddenJpgIsNotJpg | exiftool.py:62-67 | `.jpg` is not a JPEG |
| MediaKinds.FirstPresent | exiftool.py:109-148 | the value of the first listed tag the record has, or None exactly when it has none of them |
| MediaKinds.JpgDateString | exiftool.py:109-116 | DateTimeOriginal, else CreateDate, else FileModifyDate; with FileModifyDate present a string is found |
| MediaKinds.PngDateString | exiftool.py:119-124 | DateTimeOriginal, else FileModifyDate; with FileModifyDate present a string is found |
| MediaKinds.MovDateString | exiftool.py:127-132 | QuickTime CreationDate, else FileModifyDate; with FileModifyDate present a string is found |
| MediaKinds.Mp4DateString | exiftool.py:135-140 | QuickTime CreateDate, else FileModifyDate; with FileModifyDate present a string is found |
| MediaKinds.M4vDateString | exiftool.py:143-148 | QuickTime ContentCreateDate, else FileModifyDate; with FileModifyDate present a string is found |
| RenameFiles.RenameTargetMeaning | rename_files.py:38-45 | a name is renamed exactly when `^(\d{4}-\d{2}-\d{2})_(.*)$` matches it, and the new name is the two groups joined by `-` |
| RenameFiles.RenameTarget | rename_files.py:38-45 | a renamed name has `_` at index 10; the new name has the old name's length (one less after a dropped final newline) and differs from it only at index 10, where `_` became `-` |
| RenameFiles.RestoreUndoesRename | rename_files.py:45 | putting the underscore back recovers the old name |
| RenameFiles.RenameIdempotent | rename_files.py:39-45 | a renamed name does not match again |
| RenameFiles.FinalNewlineDropped | rename_files.py:39 | a name with an extra final newline gets the same new name |
| RenameFiles.DirectoryPreserved | rename_files.py:43-46 | both paths are the directory followed by the name |
| RenameFiles.Tally | rename_files.py:48-55 | the old and new path lists stay equal in length, and so do the two failed lists |
| RenameFiles.Renamed | rename_files.py:44-50 | every file listed matches and its rename succeeded |
| RenameFiles.Failed | rename_files.py:44-55 | every file listed matches and its rename raised |
| RenameFiles.TallyAccounts | rename_files.py:35-55 | the lists hold exactly the renamed files, as their old and new paths, and the failed ones, as directory and name; each matching file is in one of the two groups and no other file is in either |
| RenameFiles.RenameWalk | rename_files.py:35-55 | the nested loops leave the lists equal to the fold over the files of the walk |
| MediaSurvey.AddExampleTags | get_media_metadata.py:18-21 | the tuple is in the set afterwards; a known tuple changes nothing; a new one is added and its file appended |
| MediaSurvey.AddExample | get_media_metadata.py:18-21 | the same on values: an unknown kind changes nothing; a known tuple changes nothing; a new one is added to its kind's set, which grows by one, and its file is appended; other kinds' sets are untouched |
| MediaSurvey.Visit | get_media_metadata.py:40-52 | a file's tag names go into the set of its kind only; other kinds, and reads that raised, change nothing |
| MediaSurvey.Survey | get_media_metadata.py:31-52 | starting from empty collections, the example list is as long as the five sets together |
| MediaSurvey.VisitFile | get_media_metadata.py:40-55 | the `try` body and the `is_*` chain update the objects as the fold says |
| MediaSurvey.SurveyTags | get_media_metadata.py:31-55 | the loops leave the sets and the list equal to the fold over the files of the walk |
| Text.PathJoin | update_metadata_by_filename.py:259 | `os.path.join`: an absolute second part is the result; otherwise the result starts with the directory and ends with the name, with exactly one slash between them unless the directory is empty or already ends in one, in which case no slash is added |
| Text.Lower | exiftool.py:64 | the result equals the input up to ASCII case and has no upper-case letter |
| Text.LowerMatches | exiftool.py:64-65 | for a lower-case target, lower-casing gives the target exactly when the input equals it up to ASCII case |
| Text.PaddedRoundTrip | update_metadata_by_filename.py:231-232 | a number written zero-padded to a width it fits reads back as that number |
| Text.SplitJoin | exiftool.py:32 | splitting newline-free parts joined by newlines gives the parts back |

## Findings

| source | as written | input that shows it | evidently intended | confidence | as-written member | corrected member |
|---|---|---|---|---|---|---|
| update_metadata_by_filename.py:231-232 | the two f-strings are concatenated with no separator, giving `YYYY:MM:DDHH:MM:SS` | the name `1998-02 90.jpg` (date `(1998, 2, 90)`) is written as `1998:02:0100:01:30` | `YYYY:MM:DD HH:MM:SS`, the EXIF date/time layout | not executed | Reconcile.WrittenTagValueLacksSeparator | Reconcile.ExifTagValueRoundTrip |

The rest of the model records the write as the timestamp itself (`UpdateByFilename.Effect.ChangeMetadata`). It does not record the string formed from it.

## Left out

- Process and pipe I/O is not modelled: `subprocess.Popen`, `os.read`, stdin writes and flushes, and the one-shot `subprocess.run` calls of `get_metadata` and `change_metadata`. Exiftool's output is a given sequence of chunks, or a function from path to text dump.
- The per-chunk UTF-8 decoding of `os.read` results is not modelled. Chunks are character strings, so a multi-byte character split across reads is not captured.
- An `os.read` that returns the empty string at end of file is not modelled. It would make `execute` loop forever. Exhausted chunks without a sentinel are reported as None.
- `json.loads` is not modelled. A JSON record is a `map<string, string>`, and `get_media_metadata.py` sees only its tag names.
- `get_date` (`datetime.strptime`) is not modelled. Only which tag string the `get_*_date` selectors pass to it is modelled, and a missing final tag is None for the KeyError.
- The filesystem is not modelled: `os.walk` (given as a sequence of directories), `os.chdir`, `os.path.getsize` (a parameter), and `os.rename`, whose success is a parameter that does not depend on earlier renames.
- `save_metadata`'s file write is recorded as an effect, not performed. CSV reports, report names from `datetime.now`, `_tags.txt` and `print` are not modelled.
- `process_new_media.py` is not part of this model. It calls functions the repository does not define.
- Unicode is not modelled. `\d`, `\w` and `str.lower` are taken on ASCII only.
- Float arithmetic is not modelled. `int(order / 60)` is integer division of a non-negative order, which differs from Python's float division only for orders beyond 2^53. The `:02.0f` formatting is integer zero-padding.
- The `updated_old` and `updated_new` lists hold the dates themselves, not their `str()` renderings.
- `write_metadata`'s dictionary is a sequence of key/value pairs in iteration order, with string values. Python's `str()` of other value types is not modelled.
- Failures of I/O inside the `try` of the main loop are not modelled: `os.path.getsize`, exiftool's `subprocess.run` and the UTF-8 decode in `get_metadata` (update_metadata_by_filename.py:142-152), the open and write of `save_metadata` (155-160) and the `subprocess.run` of `change_metadata` (199-238) would each send the file to the failed lists (298-303). Here they always succeed, so only a range check, a missing metadata date or `NotImplementedError` fails a file.
- FilenameDate.RunEnd: that the lazy `[^0-9]+?` followed by `[0-9]+` skips the whole non-digit run and then takes the whole digit run is argued from how the pattern backtracks, not proved against a model of regular-expression matching; the same holds for the other `guess_date` matchers, which have no separate declarative statement.
- ExifToolSession.ExifTool.Execute: calling it before `__enter__` raises AttributeError in Python; here it is excluded by the precondition `Started()`.
- The process exiftool runs, and what it does with the arguments, is not modelled beyond `ExifToolSession.ParseWriteArg`'s reading of one `-k=v` argument.
