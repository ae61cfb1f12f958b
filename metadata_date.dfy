/** `get_date_from_metadata` of `update_metadata_by_filename.py`: three
    multi-line searches of exiftool's text dump, one per heading, each for
    `^<heading>\W+:\W+([0-9]{4}):([0-9]{2}):([0-9]{2}) .+`, tried in order of
    preference. The regular expression is written out as a matcher at one
    position (`MatchAt`) and a leftmost search over positions (`SearchFrom`);
    `SeparatedMatch` is the same pattern stated the way the regular expression
    reads, with the separator's split left open. */
module MetadataDate {
  import opened Text

  /** The `(year, month, day)` tuple the function returns. */
  datatype Ymd = Ymd(year: nat, month: nat, day: nat)

  const DateTimeOriginal := "Date/Time Original"
  const CreateDate := "Create Date"
  const FileModifyDate := "File Modification Date/Time"

  /** `\w` on ASCII: letters, digits and underscore. */
  predicate IsWordChar(c: char)
  {
    'a' <= c <= 'z' || 'A' <= c <= 'Z' || IsDigit(c) || c == '_'
  }

  /** Where `^` matches under `re.MULTILINE`: the start, or just after a newline. */
  predicate LineStart(s: string, i: nat)
  {
    i <= |s| && (i == 0 || s[i - 1] == '\n')
  }

  /** End of the maximal run of non-word characters starting at i. */
  function NonWordEnd(s: string, i: nat): (j: nat)
    requires i <= |s|
    ensures i <= j <= |s|
    ensures forall k :: i <= k < j ==> !IsWordChar(s[k])
    ensures j == |s| || IsWordChar(s[j])
    decreases |s| - i
  {
    if i == |s| || IsWordChar(s[i]) then i else NonWordEnd(s, i + 1)
  }

  /** `([0-9]{4}):([0-9]{2}):([0-9]{2}) .+` at position q: the date, a space,
      then at least one character that is not a newline. */
  predicate DateAt(s: string, q: nat)
  {
    && q + 12 <= |s|
    && AllDigits(s[q..q + 4]) && s[q + 4] == ':'
    && AllDigits(s[q + 5..q + 7]) && s[q + 7] == ':'
    && AllDigits(s[q + 8..q + 10]) && s[q + 10] == ' '
    && s[q + 11] != '\n'
  }

  /** The three groups, read by `int()`. */
  function DateFields(s: string, q: nat): Ymd
    requires DateAt(s, q)
  {
    Ymd(Field(s, q, 4), Field(s, q + 5, 2), Field(s, q + 8, 2))
  }

  /** `\W+:\W+` between p and q, the way the regular expression reads it: a
      non-empty run of non-word characters before a colon and another after it,
      all of them non-word (the colon is one too), then a digit at q. */
  ghost predicate SeparatedMatch(s: string, heading: string, i: nat, q: nat)
  {
    var p := i + |heading|;
    && LineStart(s, i) && StartsAt(s, heading, i)
    && p < q <= |s|
    && (forall k :: p <= k < q ==> !IsWordChar(s[k]))
    && (exists c :: p < c < q - 1 && s[c] == ':')
    && DateAt(s, q)
  }

  /** The pattern for `heading` matches at line start i. Since the year begins
      with a word character, the separator is the whole non-word run after the
      heading, and it needs a colon with at least one character on each side. */
  predicate MatchAt(s: string, heading: string, i: nat)
  {
    && LineStart(s, i) && StartsAt(s, heading, i)
    && var p := i + |heading|;
       var q := NonWordEnd(s, p);
       p + 3 <= q && ':' in s[p + 1..q - 1] && DateAt(s, q)
  }

  /** Where the date of a match at i begins. */
  function DateStart(s: string, heading: string, i: nat): (q: nat)
    requires MatchAt(s, heading, i)
    ensures DateAt(s, q)
  {
    NonWordEnd(s, i + |heading|)
  }

  /** The matcher accepts exactly where the pattern matches, and the pattern
      leaves the separator no choice: the date starts at one place only. */
  lemma MatchAtMeaning(s: string, heading: string, i: nat)
    ensures MatchAt(s, heading, i) ==> SeparatedMatch(s, heading, i, DateStart(s, heading, i))
    ensures forall q: nat :: SeparatedMatch(s, heading, i, q) ==> MatchAt(s, heading, i) && q == DateStart(s, heading, i)
  {
    var p := i + |heading|;
    if MatchAt(s, heading, i) {
      var q := DateStart(s, heading, i);
      var c :| 0 <= c < |s[p + 1..q - 1]| && s[p + 1..q - 1][c] == ':';
      assert s[p + 1 + c] == ':';
    }
    forall q: nat | SeparatedMatch(s, heading, i, q)
      ensures MatchAt(s, heading, i) && q == DateStart(s, heading, i)
    {
      var j := NonWordEnd(s, p);
      assert IsWordChar(s[q]);
      assert j == q;
      var c :| p < c < q - 1 && s[c] == ':';
      assert s[p + 1..q - 1][c - p - 1] == ':';
    }
  }

  /** `re.search` from position i: the leftmost position at or after i where
      the pattern matches. */
  function SearchFrom(s: string, heading: string, i: nat): (r: Option<nat>)
    requires i <= |s| + 1
    ensures r.Some? ==> i <= r.value <= |s| && MatchAt(s, heading, r.value)
                        && forall k :: i <= k < r.value ==> !MatchAt(s, heading, k)
    ensures r.None? ==> forall k :: i <= k <= |s| ==> !MatchAt(s, heading, k)
    decreases |s| + 1 - i
  {
    if i > |s| then None
    else if MatchAt(s, heading, i) then Some(i)
    else SearchFrom(s, heading, i + 1)
  }

  /** The date of the first line that carries `heading` in the expected shape. */
  function Search(s: string, heading: string): Option<Ymd>
  {
    match SearchFrom(s, heading, 0)
    case None => None
    case Some(i) => Some(DateFields(s, DateStart(s, heading, i)))
  }

  /** Some line of s carries `heading` with a date. */
  ghost predicate HasLabelledDate(s: string, heading: string)
  {
    exists i :: 0 <= i <= |s| && MatchAt(s, heading, i)
  }

  /** A search finds a date exactly when some line has one, and then it is the
      date of the first such line. */
  lemma SearchMeaning(s: string, heading: string)
    ensures Search(s, heading).Some? <==> HasLabelledDate(s, heading)
    ensures HasLabelledDate(s, heading) ==>
      exists i :: 0 <= i <= |s| && MatchAt(s, heading, i)
        && (forall k :: 0 <= k < i ==> !MatchAt(s, heading, k))
        && Search(s, heading) == Some(DateFields(s, DateStart(s, heading, i)))
  {
    var r := SearchFrom(s, heading, 0);
    if r.Some? {
      assert MatchAt(s, heading, r.value);
    }
  }

  /** `get_date_from_metadata(metadata)`: Date/Time Original, else Create
      Date, else File Modification Date/Time, else None. A later heading only
      counts when no line carries an earlier one, and None comes back only
      when no line carries any of the three. */
  function DateFromMetadata(metadata: string): (r: Option<Ymd>)
    ensures HasLabelledDate(metadata, DateTimeOriginal) ==> r == Search(metadata, DateTimeOriginal)
    ensures !HasLabelledDate(metadata, DateTimeOriginal) && HasLabelledDate(metadata, CreateDate) ==>
      r == Search(metadata, CreateDate)
    ensures !HasLabelledDate(metadata, DateTimeOriginal) && !HasLabelledDate(metadata, CreateDate) ==>
      r == Search(metadata, FileModifyDate)
    ensures r.None? <==>
      !HasLabelledDate(metadata, DateTimeOriginal) && !HasLabelledDate(metadata, CreateDate)
      && !HasLabelledDate(metadata, FileModifyDate)
  {
    SearchMeaning(metadata, DateTimeOriginal);
    SearchMeaning(metadata, CreateDate);
    SearchMeaning(metadata, FileModifyDate);
    var original := Search(metadata, DateTimeOriginal);
    if original.Some? then original
    else
      var created := Search(metadata, CreateDate);
      if created.Some? then created
      else Search(metadata, FileModifyDate)
  }
}
