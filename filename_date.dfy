/** The filename date heuristic of `update_metadata_by_filename.py`
    (`guess_date`): seven prefix patterns tried in order, each turning the
    leading digits of a file name into a date tuple of arity 6, 4, 3 or 2, with
    range assertions that raise instead of falling through to a later
    pattern. Each regular expression is written out as a matcher on the
    characters of the name. */
module FilenameDate {
  import opened Text

  /** What `guess_date` produces: the tuple it returns (the empty tuple when no
      pattern matches), or the AssertionError one of its range checks raises. */
  datatype Guess = Guessed(date: seq<nat>) | OutOfRange

  /** End of the maximal run, starting at i, of digits (digits == true) or of
      non-digits (digits == false). */
  function RunEnd(s: string, i: nat, digits: bool): (j: nat)
    requires i <= |s|
    ensures i <= j <= |s|
    ensures forall k :: i <= k < j ==> IsDigit(s[k]) == digits
    ensures j == |s| || IsDigit(s[j]) != digits
    decreases |s| - i
  {
    if i == |s| || IsDigit(s[i]) != digits then i else RunEnd(s, i + 1, digits)
  }

  /** `([0-9]{4})-([0-9]{2})` at the start. */
  predicate YearMonthPrefix(s: string)
  {
    DigitsAt(s, 0, 4) && |s| > 4 && s[4] == '-' && DigitsAt(s, 5, 2)
  }

  /** `([0-9]{4})-([0-9]{2})-([0-9]{2})` at the start. */
  predicate YmdPrefix(s: string)
  {
    YearMonthPrefix(s) && |s| > 7 && s[7] == '-' && DigitsAt(s, 8, 2)
  }

  /** Rule 1: `([0-9]{4})-([0-9]{2})-([0-9]{2})-([0-9]{6})(.*)`, the six
      digits taken as the hour, minute and second pairs they are sliced into. */
  predicate MatchesYmdHms(s: string)
  {
    YmdPrefix(s) && |s| > 10 && s[10] == '-' && DigitsAt(s, 11, 2) && DigitsAt(s, 13, 2) && DigitsAt(s, 15, 2)
  }

  /** Rule 3: `([0-9]{4})-([0-9]{2})-([0-9]{2})([^0-9]+?)(.*?)`. */
  predicate MatchesYmdSep(s: string)
  {
    YmdPrefix(s) && |s| > 10 && !IsDigit(s[10])
  }

  /** Rule 2: `([0-9]{4})-([0-9]{2})-([0-9]{2})([^0-9]+?)([0-9]+)(.*?)`: the
      lazy separator can only stop where a digit follows, so it is the whole
      non-digit run after the day, and a digit must come after it. */
  predicate MatchesYmdSepOrder(s: string)
  {
    MatchesYmdSep(s) && RunEnd(s, 10, false) < |s|
  }

  /** Rule 5: `([0-9]{4})-([0-9]{2})([^0-9]+?)(.*)`. */
  predicate MatchesYmSep(s: string)
  {
    YearMonthPrefix(s) && |s| > 7 && !IsDigit(s[7])
  }

  /** Rule 4: `([0-9]{4})-([0-9]{2})([^0-9]+?)([0-9]+)(.*)`. */
  predicate MatchesYmSepOrder(s: string)
  {
    MatchesYmSep(s) && RunEnd(s, 7, false) < |s|
  }

  /** Rule 6: `([0-9]{4}) ([0-9]+)(.*)`. */
  predicate MatchesYearSpaceOrder(s: string)
  {
    DigitsAt(s, 0, 4) && |s| > 5 && s[4] == ' ' && IsDigit(s[5])
  }

  /** The greedy `([0-9]+)` group starting at i, read as a number. */
  function OrderAt(s: string, i: nat): nat
    requires i < |s| && IsDigit(s[i])
  {
    Value(s[i..RunEnd(s, i, true)])
  }

  predicate InYearRange(year: int) { 1700 < year < 2025 }

  /** What the assertions of `guess_date` guarantee of any tuple it returns. */
  predicate ValidDate(t: seq<nat>)
  {
    && |t| in {0, 2, 3, 4, 6}
    && (|t| > 0 ==> InYearRange(t[0]))
    && (|t| >= 3 ==> 1 <= t[1] <= 12)
    && (|t| >= 4 ==> 1 <= t[2] <= 31)
    && (|t| == 6 ==> t[3] <= 23 && t[4] <= 59 && t[5] <= 59)
  }

  /** Rules 2 and 3: a year, month, day and order; a zero day reads as 1. */
  function YmdOrder(s: string, order: nat): Guess
    requires YmdPrefix(s)
  {
    var year, month, day := Field(s, 0, 4), Field(s, 5, 2), Field(s, 8, 2);
    var day' := if day == 0 then 1 else day;
    if InYearRange(year) && 1 <= month <= 12 && 1 <= day' <= 31
    then Guessed([year, month, day', order]) else OutOfRange
  }

  /** Rules 4 and 5: a year, month and order; a zero month reads as 1. */
  function YmOrder(s: string, order: nat): Guess
    requires YearMonthPrefix(s)
  {
    var year, month := Field(s, 0, 4), Field(s, 5, 2);
    var month' := if month == 0 then 1 else month;
    if InYearRange(year) && 1 <= month' <= 12
    then Guessed([year, month', order]) else OutOfRange
  }

  /** Rules 6 and 7: a year and order. */
  function YearOrder(s: string, order: nat): Guess
    requires DigitsAt(s, 0, 4)
  {
    var year := Field(s, 0, 4);
    if InYearRange(year) then Guessed([year, order]) else OutOfRange
  }

  /** `guess_date(filename)`: the first matching rule decides; its range checks
      either pass or raise. The empty tuple comes back exactly when the name
      does not start with four digits. */
  function GuessDate(name: string): (g: Guess)
    ensures g.Guessed? ==> ValidDate(g.date)
    ensures g == Guessed([]) <==> !DigitsAt(name, 0, 4)
  {
    if MatchesYmdHms(name) then
      var year, month, day := Field(name, 0, 4), Field(name, 5, 2), Field(name, 8, 2);
      var hour, minute, second := Field(name, 11, 2), Field(name, 13, 2), Field(name, 15, 2);
      if InYearRange(year) && 1 <= month <= 12 && 1 <= day <= 31
         && hour <= 23 && minute <= 59 && second <= 59
      then Guessed([year, month, day, hour, minute, second])
      else OutOfRange
    else if MatchesYmdSepOrder(name) then
      YmdOrder(name, OrderAt(name, RunEnd(name, 10, false)))
    else if MatchesYmdSep(name) then
      YmdOrder(name, 0)
    else if MatchesYmSepOrder(name) then
      YmOrder(name, OrderAt(name, RunEnd(name, 7, false)))
    else if MatchesYmSep(name) then
      YmOrder(name, 0)
    else if MatchesYearSpaceOrder(name) then
      YearOrder(name, OrderAt(name, 5))
    else if DigitsAt(name, 0, 4) then
      YearOrder(name, 0)
    else
      Guessed([])
  }

  /** The arity of a result tells which rule produced it, and no rule is
      consulted once an earlier one matched: a name of the six-field shape
      never yields a shorter tuple, and so on down the cascade. Each rule reads
      its fields from fixed positions of the name, coercing a zero day (the
      year-month-day rules) or a zero month (the year-month rules) to 1; the
      order field is last and comes from the digit run after the separator.
      Conversely, when the fields of the first matching rule pass its checks,
      the result is exactly the tuple of those fields. */
  lemma RulePriority(name: string)
    ensures MatchesYmdHms(name) ==> GuessDate(name) == OutOfRange || |GuessDate(name).date| == 6
    ensures GuessDate(name).Guessed? && |GuessDate(name).date| == 6 ==>
      MatchesYmdHms(name)
      && GuessDate(name).date == [Field(name, 0, 4), Field(name, 5, 2), Field(name, 8, 2),
                                  Field(name, 11, 2), Field(name, 13, 2), Field(name, 15, 2)]
    ensures GuessDate(name).Guessed? && |GuessDate(name).date| == 4 ==>
      !MatchesYmdHms(name) && MatchesYmdSep(name)
      && GuessDate(name).date[0] == Field(name, 0, 4) && GuessDate(name).date[1] == Field(name, 5, 2)
      && GuessDate(name).date[2] == (if Field(name, 8, 2) == 0 then 1 else Field(name, 8, 2))
      && GuessDate(name).date[3] == (if MatchesYmdSepOrder(name) then OrderAt(name, RunEnd(name, 10, false)) else 0)
    ensures GuessDate(name).Guessed? && |GuessDate(name).date| == 3 ==>
      !MatchesYmdHms(name) && !MatchesYmdSep(name) && MatchesYmSep(name)
      && GuessDate(name).date[0] == Field(name, 0, 4)
      && GuessDate(name).date[1] == (if Field(name, 5, 2) == 0 then 1 else Field(name, 5, 2))
      && GuessDate(name).date[2] == (if MatchesYmSepOrder(name) then OrderAt(name, RunEnd(name, 7, false)) else 0)
    ensures GuessDate(name).Guessed? && |GuessDate(name).date| == 2 ==>
      !MatchesYmdHms(name) && !MatchesYmdSep(name) && !MatchesYmSep(name)
      && GuessDate(name).date[0] == Field(name, 0, 4)
      && GuessDate(name).date[1] == (if MatchesYearSpaceOrder(name) then OrderAt(name, 5) else 0)
    ensures (MatchesYmdHms(name) && InYearRange(Field(name, 0, 4))
             && 1 <= Field(name, 5, 2) <= 12 && 1 <= Field(name, 8, 2) <= 31
             && Field(name, 11, 2) <= 23 && Field(name, 13, 2) <= 59 && Field(name, 15, 2) <= 59) ==>
      GuessDate(name) == Guessed([Field(name, 0, 4), Field(name, 5, 2), Field(name, 8, 2),
                                  Field(name, 11, 2), Field(name, 13, 2), Field(name, 15, 2)])
    ensures (!MatchesYmdHms(name) && MatchesYmdSep(name) && InYearRange(Field(name, 0, 4))
             && 1 <= Field(name, 5, 2) <= 12 && Field(name, 8, 2) <= 31) ==>
      GuessDate(name) == Guessed([Field(name, 0, 4), Field(name, 5, 2),
                                  if Field(name, 8, 2) == 0 then 1 else Field(name, 8, 2),
                                  if MatchesYmdSepOrder(name) then OrderAt(name, RunEnd(name, 10, false)) else 0])
    ensures (!MatchesYmdHms(name) && !MatchesYmdSep(name) && MatchesYmSep(name)
             && InYearRange(Field(name, 0, 4)) && Field(name, 5, 2) <= 12) ==>
      GuessDate(name) == Guessed([Field(name, 0, 4), if Field(name, 5, 2) == 0 then 1 else Field(name, 5, 2),
                                  if MatchesYmSepOrder(name) then OrderAt(name, RunEnd(name, 7, false)) else 0])
    ensures (!MatchesYmdHms(name) && !MatchesYmdSep(name) && !MatchesYmSep(name)
             && DigitsAt(name, 0, 4) && InYearRange(Field(name, 0, 4))) ==>
      GuessDate(name) == Guessed([Field(name, 0, 4), if MatchesYearSpaceOrder(name) then OrderAt(name, 5) else 0])
  {
    if !MatchesYmdSep(name) && MatchesYmSep(name) {
      assert !MatchesYmdHms(name);
    }
  }

  /** Every rule reads the year from the first four digits and checks it, so a
      year outside (1700, 2025) makes the whole heuristic raise: no later rule
      gets a chance. */
  lemma YearOutOfRangeRaises(name: string)
    requires DigitsAt(name, 0, 4) && !InYearRange(Field(name, 0, 4))
    ensures GuessDate(name) == OutOfRange
  {
  }

  /** A failed check in rule 1 raises even when rule 2 on its own would accept
      the name: the cascade does not fall through. */
  lemma NoFallThrough(name: string)
    requires MatchesYmdHms(name) && Field(name, 11, 2) > 23
    ensures MatchesYmdSepOrder(name)
    ensures GuessDate(name) == OutOfRange
  {
    assert IsDigit(name[11]);
  }

  /** Zero coercion belongs to particular rules: a zero day becomes 1 only in
      the two year-month-day rules, a zero month becomes 1 only in the two
      year-month rules; the six-field rule coerces nothing, and a zero month
      under a year-month-day rule fails its check. */
  lemma ZeroCoercion(name: string)
    ensures MatchesYmdHms(name) && (Field(name, 5, 2) == 0 || Field(name, 8, 2) == 0) ==>
      GuessDate(name) == OutOfRange
    ensures !MatchesYmdHms(name) && MatchesYmdSep(name) && Field(name, 5, 2) == 0 ==>
      GuessDate(name) == OutOfRange
    ensures (!MatchesYmdHms(name) && MatchesYmdSep(name) && InYearRange(Field(name, 0, 4))
             && 1 <= Field(name, 5, 2) <= 12 && Field(name, 8, 2) == 0) ==>
      GuessDate(name).Guessed? && GuessDate(name).date[2] == 1
    ensures (!MatchesYmdSep(name) && MatchesYmSep(name) && InYearRange(Field(name, 0, 4))
             && Field(name, 5, 2) == 0) ==>
      GuessDate(name).Guessed? && GuessDate(name).date[1] == 1
  {
    if !MatchesYmdSep(name) && MatchesYmSep(name) {
      assert !MatchesYmdHms(name);
    }
  }

  /** A digit block followed by a non-digit (or the end) is one whole run. */
  lemma {:induction false} DigitRunEnd(s: string, i: nat, j: nat)
    requires i <= j <= |s| && AllDigits(s[i..j])
    requires j == |s| || !IsDigit(s[j])
    ensures RunEnd(s, i, true) == j
    decreases j - i
  {
    if i < j {
      assert IsDigit(s[i..j][0]);
      assert s[i + 1..j] == s[i..j][1..];
      DigitRunEnd(s, i + 1, j);
    }
  }

  /** The name a six-field timestamp gets in the `YYYY-MM-DD-HHMMSS` convention. */
  function TimestampName(t: seq<nat>): string
    requires |t| == 6
  {
    DatePart(Padded(t[0], 4), Padded(t[1], 2), Padded(t[2], 2))
    + TimePart(Padded(t[3], 2), Padded(t[4], 2), Padded(t[5], 2), "")
  }

  /** The ten characters `YYYY-MM-DD`. */
  function DatePart(y: string, mo: string, d: string): string
  {
    y + "-" + mo + "-" + d
  }

  lemma DatePartLayout(y: string, mo: string, d: string)
    requires |y| == 4 && |mo| == 2 && |d| == 2 && AllDigits(y) && AllDigits(mo) && AllDigits(d)
    ensures var p := DatePart(y, mo, d);
      |p| == 10 && YmdPrefix(p) && Field(p, 0, 4) == Value(y) && Field(p, 5, 2) == Value(mo) && Field(p, 8, 2) == Value(d)
  {
    var p := DatePart(y, mo, d);
    assert p[0..4] == y;
    assert p[5..7] == mo;
    assert p[8..10] == d;
  }

  /** `-HHMMSS<rest>`. */
  function TimePart(h: string, mi: string, se: string, rest: string): string
  {
    "-" + h + mi + se + rest
  }

  lemma TimePartLayout(h: string, mi: string, se: string, rest: string)
    requires |h| == 2 && |mi| == 2 && |se| == 2 && AllDigits(h) && AllDigits(mi) && AllDigits(se)
    ensures var q := TimePart(h, mi, se, rest);
      |q| >= 7 && q[0] == '-' && DigitsAt(q, 1, 2) && DigitsAt(q, 3, 2) && DigitsAt(q, 5, 2)
      && Value(q[1..3]) == Value(h) && Value(q[3..5]) == Value(mi) && Value(q[5..7]) == Value(se)
  {
    var a := "-" + h;
    var b := a + mi;
    var c := b + se;
    assert a[1..3] == h;
    SliceLeft(a, mi, 1, 3);
    SliceRight(a, mi, 3, 5);
    SliceLeft(b, se, 1, 3);
    SliceLeft(b, se, 3, 5);
    SliceRight(b, se, 5, 7);
    assert TimePart(h, mi, se, rest) == c + rest;
    SliceLeft(c, rest, 1, 3);
    SliceLeft(c, rest, 3, 5);
    SliceLeft(c, rest, 5, 7);
  }

  /** A date part followed by a time part is a rule 1 name whose fields are theirs. */
  lemma TimestampLayout(p: string, q: string)
    requires |p| == 10 && YmdPrefix(p)
    requires |q| >= 7 && q[0] == '-' && DigitsAt(q, 1, 2) && DigitsAt(q, 3, 2) && DigitsAt(q, 5, 2)
    ensures MatchesYmdHms(p + q)
    ensures Field(p + q, 0, 4) == Field(p, 0, 4) && Field(p + q, 5, 2) == Field(p, 5, 2)
      && Field(p + q, 8, 2) == Field(p, 8, 2)
    ensures Field(p + q, 11, 2) == Value(q[1..3]) && Field(p + q, 13, 2) == Value(q[3..5])
      && Field(p + q, 15, 2) == Value(q[5..7])
  {
    SliceLeft(p, q, 0, 4);
    SliceLeft(p, q, 5, 7);
    SliceLeft(p, q, 8, 10);
    SliceRight(p, q, 11, 13);
    SliceRight(p, q, 13, 15);
    SliceRight(p, q, 15, 17);
  }

  lemma Rule1Reads(s: string, t: seq<nat>)
    requires MatchesYmdHms(s) && |t| == 6 && ValidDate(t)
    requires t == [Field(s, 0, 4), Field(s, 5, 2), Field(s, 8, 2), Field(s, 11, 2), Field(s, 13, 2), Field(s, 15, 2)]
    ensures GuessDate(s) == Guessed(t)
  {
  }

  /** Rule 1 reads back the six digit groups of a `YYYY-MM-DD-HHMMSS<rest>` name. */
  lemma TimestampFields(y: string, mo: string, d: string, h: string, mi: string, se: string, rest: string, t: seq<nat>)
    requires |y| == 4 && |mo| == 2 && |d| == 2 && AllDigits(y) && AllDigits(mo) && AllDigits(d)
    requires |h| == 2 && |mi| == 2 && |se| == 2 && AllDigits(h) && AllDigits(mi) && AllDigits(se)
    requires |t| == 6 && ValidDate(t)
    requires t == [Value(y), Value(mo), Value(d), Value(h), Value(mi), Value(se)]
    ensures GuessDate(DatePart(y, mo, d) + TimePart(h, mi, se, rest)) == Guessed(t)
  {
    var p, q := DatePart(y, mo, d), TimePart(h, mi, se, rest);
    DatePartLayout(y, mo, d);
    TimePartLayout(h, mi, se, rest);
    TimestampLayout(p, q);
    Rule1Reads(p + q, t);
  }

  /** Naming a file `YYYY-MM-DD-HHMMSS<anything>` and guessing its date gives
      back the six fields: rule 1 reads exactly what the name encodes. */
  lemma TimePartAppend(h: string, mi: string, se: string, rest: string)
    ensures TimePart(h, mi, se, "") + rest == TimePart(h, mi, se, rest)
  {
    assert "-" + h + mi + se + "" == "-" + h + mi + se;
  }

  /** The six zero-padded fields of a valid timestamp have their widths and
      read back as the timestamp. */
  lemma TimestampPieces(t: seq<nat>)
    requires |t| == 6 && ValidDate(t)
    ensures var y, mo, d, h, mi, se := Padded(t[0], 4), Padded(t[1], 2), Padded(t[2], 2),
                                       Padded(t[3], 2), Padded(t[4], 2), Padded(t[5], 2);
      && |y| == 4 && |mo| == 2 && |d| == 2 && |h| == 2 && |mi| == 2 && |se| == 2
      && t == [Value(y), Value(mo), Value(d), Value(h), Value(mi), Value(se)]
  {
    assert Pow10(4) == 10000 && Pow10(2) == 100;
    PaddedRoundTrip(t[0], 4);
    PaddedRoundTrip(t[1], 2);
    PaddedRoundTrip(t[2], 2);
    PaddedRoundTrip(t[3], 2);
    PaddedRoundTrip(t[4], 2);
    PaddedRoundTrip(t[5], 2);
  }

  lemma TimestampNameRoundTrip(t: seq<nat>, rest: string)
    requires |t| == 6 && ValidDate(t)
    ensures GuessDate(TimestampName(t) + rest) == Guessed(t)
  {
    var y, mo, d, h, mi, se := Padded(t[0], 4), Padded(t[1], 2), Padded(t[2], 2),
                               Padded(t[3], 2), Padded(t[4], 2), Padded(t[5], 2);
    TimestampPieces(t);
    TimePartAppend(h, mi, se, rest);
    assert TimestampName(t) + rest == DatePart(y, mo, d) + TimePart(h, mi, se, rest);
    TimestampFields(y, mo, d, h, mi, se, rest, t);
  }

  /** A separator, then a digit run o, then something that is not a digit. */
  lemma OrderPartLayout(sep: char, o: string, rest: string)
    requires 1 <= |o| && AllDigits(o)
    requires rest == [] || !IsDigit(rest[0])
    ensures var q := [sep] + o + rest;
      |q| >= 2 && q[0] == sep && IsDigit(q[1]) && q[1..1 + |o|] == o
      && (1 + |o| == |q| || !IsDigit(q[1 + |o|]))
  {
    var q := [sep] + o + rest;
    assert q[1..1 + |o|] == o;
    assert o[0] == q[1];
    if rest != [] {
      assert q[1 + |o|] == rest[0];
    }
  }

  /** The digit run starting at i of p + q, when it lies inside q. */
  lemma OrderInSecondHalf(p: string, q: string, i: nat, n: nat)
    requires |p| <= i && i + n <= |p| + |q| && 1 <= n
    requires AllDigits(q[i - |p|..i + n - |p|])
    requires i + n - |p| == |q| || !IsDigit(q[i + n - |p|])
    ensures i < |p + q| && IsDigit((p + q)[i])
    ensures OrderAt(p + q, i) == Value(q[i - |p|..i + n - |p|])
  {
    var s := p + q;
    SliceRight(p, q, i, i + n);
    assert IsDigit(s[i..i + n][0]);
    DigitRunEnd(s, i, i + n);
  }

  /** A date part, a separator that is neither a digit nor `-`, and a digit
      run make a rule 2 name and no rule 1 name. */
  lemma DayOrderLayout(p: string, sep: char, o: string, rest: string)
    requires |p| == 10 && YmdPrefix(p)
    requires !IsDigit(sep) && sep != '-'
    requires 1 <= |o| && AllDigits(o)
    requires rest == [] || !IsDigit(rest[0])
    ensures var s := p + ([sep] + o + rest);
      !MatchesYmdHms(s) && MatchesYmdSepOrder(s) && RunEnd(s, 10, false) == 11
      && OrderAt(s, 11) == Value(o)
      && Field(s, 0, 4) == Field(p, 0, 4) && Field(s, 5, 2) == Field(p, 5, 2) && Field(s, 8, 2) == Field(p, 8, 2)
  {
    var q := [sep] + o + rest;
    var s := p + q;
    OrderPartLayout(sep, o, rest);
    SliceLeft(p, q, 0, 4);
    SliceLeft(p, q, 5, 7);
    SliceLeft(p, q, 8, 10);
    assert s[10] == sep && s[11] == q[1];
    assert RunEnd(s, 10, false) == 11;
    OrderInSecondHalf(p, q, 11, |o|);
  }

  /** A `YYYY-MM-DD <order>` name (day at least 1) gives back year, month, day
      and order through rule 2, provided nothing numeric follows the order. */
  lemma DayOrderNameRoundTrip(year: nat, month: nat, day: nat, order: nat, rest: string)
    requires InYearRange(year) && 1 <= month <= 12 && 1 <= day <= 31
    requires rest == [] || !IsDigit(rest[0])
    ensures GuessDate(DatePart(Padded(year, 4), Padded(month, 2), Padded(day, 2))
                      + (" " + Decimal(order) + rest)) == Guessed([year, month, day, order])
  {
    var y, mo, d, o := Padded(year, 4), Padded(month, 2), Padded(day, 2), Decimal(order);
    assert Pow10(4) == 10000 && Pow10(2) == 100;
    PaddedRoundTrip(year, 4);
    PaddedRoundTrip(month, 2);
    PaddedRoundTrip(day, 2);
    DecimalValue(order);
    DatePartLayout(y, mo, d);
    DayOrderGuess(DatePart(y, mo, d), ' ', o, rest);
  }

  /** Four digits, a space and a digit run make a rule 6 name. */
  lemma YearOrderLayout(y: string, o: string, rest: string)
    requires |y| == 4 && AllDigits(y)
    requires 1 <= |o| && AllDigits(o)
    requires rest == [] || !IsDigit(rest[0])
    ensures var s := y + (" " + o + rest);
      !YearMonthPrefix(s) && MatchesYearSpaceOrder(s) && Field(s, 0, 4) == Value(y) && OrderAt(s, 5) == Value(o)
  {
    var q := " " + o + rest;
    var s := y + q;
    OrderPartLayout(' ', o, rest);
    SliceLeft(y, q, 0, 4);
    assert s[4] == ' ';
    OrderInSecondHalf(y, q, 5, |o|);
  }

  /** A `YYYY <order>` name gives back year and order through rule 6. */
  lemma YearOrderNameRoundTrip(year: nat, order: nat, rest: string)
    requires InYearRange(year)
    requires rest == [] || !IsDigit(rest[0])
    ensures GuessDate(Padded(year, 4) + (" " + Decimal(order) + rest)) == Guessed([year, order])
  {
    assert Pow10(4) == 10000;
    PaddedRoundTrip(year, 4);
    DecimalValue(order);
    YearOrderLayout(Padded(year, 4), Decimal(order), rest);
  }

  /** The example of the function's own documentation. */
  lemma DocumentedExample()
    ensures GuessDate("2021-03-19-195432.jpg") == Guessed([2021, 3, 19, 19, 54, 32])
  {
    assert DatePart("2021", "03", "19") + TimePart("19", "54", "32", ".jpg") == "2021-03-19-195432.jpg";
    Value4("2021");
    Value2("03");
    Value2("19");
    Value2("54");
    Value2("32");
    TimestampFields("2021", "03", "19", "19", "54", "32", ".jpg", [2021, 3, 19, 19, 54, 32]);
  }

  /** Names of each shorter convention are read back as their fields: a date
      with an order after a non-space separator (rule 2) and without an order
      (rule 3), a year and month with an order (rule 4) and
      without one (rule 5), and a bare year (rule 7). */
  lemma AcceptedExamples()
    ensures GuessDate("2021-03-19.jpg") == Guessed([2021, 3, 19, 0])
    ensures GuessDate("1998-02 90.jpg") == Guessed([1998, 2, 90])
    ensures GuessDate("2021-03.jpg") == Guessed([2021, 3, 0])
    ensures GuessDate("2021.jpg") == Guessed([2021, 0])
    ensures GuessDate("2021-03-19_001.jpg") == Guessed([2021, 3, 19, 1])
  {
    DayOrderExample();
    DayExample();
    MonthOrderExample();
    MonthExample();
    YearExample();
  }

  lemma DayOrderExample()
    ensures GuessDate("2021-03-19_001.jpg") == Guessed([2021, 3, 19, 1])
  {
    var p := "2021-03-19";
    assert p + (['_'] + "001" + ".jpg") == "2021-03-19_001.jpg";
    ExampleDate();
    assert Value("001") == 1 by {
      assert "001"[..2] == "00";
      Value2("00");
    }
    DayOrderGuess(p, '_', "001", ".jpg");
  }

  /** The date part `2021-03-19` and its fields. */
  lemma ExampleDate()
    ensures var p := "2021-03-19";
      |p| == 10 && YmdPrefix(p) && Field(p, 0, 4) == 2021 && Field(p, 5, 2) == 3 && Field(p, 8, 2) == 19
  {
    Value4("2021");
    Value2("03");
    Value2("19");
    DatePartLayout("2021", "03", "19");
    var q, p := DatePart("2021", "03", "19"), "2021-03-19";
    forall k | 0 <= k < 10
      ensures q[k] == p[k]
    {
    }
    assert q == p;
  }

  /** A rule 2 name whose fields pass the checks gives back those fields and
      its order. */
  lemma DayOrderGuess(p: string, sep: char, o: string, rest: string)
    requires |p| == 10 && YmdPrefix(p)
    requires !IsDigit(sep) && sep != '-'
    requires 1 <= |o| && AllDigits(o)
    requires rest == [] || !IsDigit(rest[0])
    requires InYearRange(Field(p, 0, 4)) && 1 <= Field(p, 5, 2) <= 12 && 1 <= Field(p, 8, 2) <= 31
    ensures GuessDate(p + ([sep] + o + rest)) == Guessed([Field(p, 0, 4), Field(p, 5, 2), Field(p, 8, 2), Value(o)])
  {
    DayOrderLayout(p, sep, o, rest);
  }

  lemma DayExample()
    ensures GuessDate("2021-03-19.jpg") == Guessed([2021, 3, 19, 0])
  {
    var p := "2021-03-19";
    assert p + ".jpg" == "2021-03-19.jpg";
    ExampleDate();
    var rest := ".jpg";
    assert forall k :: 0 <= k < |rest| ==> !IsDigit(rest[k]);
    DayGuess(p, rest);
  }

  /** A date part followed by no digit at all is a rule 3 name without an
      order, which gives back the fields when they pass the checks. */
  lemma DayGuess(p: string, rest: string)
    requires |p| == 10 && YmdPrefix(p)
    requires |rest| >= 1 && forall k :: 0 <= k < |rest| ==> !IsDigit(rest[k])
    requires InYearRange(Field(p, 0, 4)) && 1 <= Field(p, 5, 2) <= 12 && 1 <= Field(p, 8, 2) <= 31
    ensures GuessDate(p + rest) == Guessed([Field(p, 0, 4), Field(p, 5, 2), Field(p, 8, 2), 0])
  {
    var s := p + rest;
    SeparatedDate(p, rest);
    forall k | 10 <= k < |s|
      ensures !IsDigit(s[k])
    {
      assert s[k] == rest[k - 10];
    }
    if rest[0] == '-' {
      // a dash is followed by no digit here, so rule 1 does not match either
      assert |s| <= 11 || !IsDigit(s[11]);
      assert !MatchesYmdHms(s);
    }
    assert RunEnd(s, 10, false) == |s|;
  }

  lemma MonthOrderExample()
    ensures GuessDate("1998-02 90.jpg") == Guessed([1998, 2, 90])
  {
    var p := "1998-02";
    assert p + ([' '] + "90" + ".jpg") == "1998-02 90.jpg";
    ExampleYearMonth();
    YmOrderGuess(p, ' ', "90", ".jpg");
  }

  /** The prefix `1998-02`, its fields, and the order `90`. */
  lemma ExampleYearMonth()
    ensures var p := "1998-02";
      |p| == 7 && YearMonthPrefix(p) && Field(p, 0, 4) == 1998 && Field(p, 5, 2) == 2
    ensures AllDigits("90") && Value("90") == 90
  {
    var p := "1998-02";
    assert p[0..4] == "1998";
    assert p[5..7] == "02";
    Value4("1998");
    Value2("02");
    Value2("90");
  }

  /** A year-month prefix, a separator that is neither a digit nor `-`, and a
      digit run make a rule 4 name and no name of an earlier rule. */
  lemma YmOrderLayout(p: string, sep: char, o: string, rest: string)
    requires |p| == 7 && YearMonthPrefix(p)
    requires !IsDigit(sep) && sep != '-'
    requires 1 <= |o| && AllDigits(o)
    requires rest == [] || !IsDigit(rest[0])
    ensures var s := p + ([sep] + o + rest);
      !YmdPrefix(s) && MatchesYmSepOrder(s) && RunEnd(s, 7, false) == 8 && OrderAt(s, 8) == Value(o)
      && Field(s, 0, 4) == Field(p, 0, 4) && Field(s, 5, 2) == Field(p, 5, 2)
  {
    var q := [sep] + o + rest;
    var s := p + q;
    OrderPartLayout(sep, o, rest);
    SliceLeft(p, q, 0, 4);
    SliceLeft(p, q, 5, 7);
    assert s[7] == sep && s[8] == q[1];
    assert RunEnd(s, 7, false) == 8;
    OrderInSecondHalf(p, q, 8, |o|);
  }

  /** Such a name gives back the year, the month (a zero month read as 1) and
      the order when they pass the checks. */
  lemma YmOrderGuess(p: string, sep: char, o: string, rest: string)
    requires |p| == 7 && YearMonthPrefix(p)
    requires !IsDigit(sep) && sep != '-'
    requires 1 <= |o| && AllDigits(o)
    requires rest == [] || !IsDigit(rest[0])
    requires InYearRange(Field(p, 0, 4)) && Field(p, 5, 2) <= 12
    ensures GuessDate(p + ([sep] + o + rest))
      == Guessed([Field(p, 0, 4), if Field(p, 5, 2) == 0 then 1 else Field(p, 5, 2), Value(o)])
  {
    YmOrderLayout(p, sep, o, rest);
    var s := p + ([sep] + o + rest);
    assert !MatchesYmdHms(s) && !MatchesYmdSepOrder(s) && !MatchesYmdSep(s);
    assert GuessDate(s) == YmOrder(s, OrderAt(s, 8));
  }

  lemma MonthExample()
    ensures GuessDate("2021-03.jpg") == Guessed([2021, 3, 0])
  {
    var s := "2021-03.jpg";
    assert s[0..4] == "2021" && s[5..7] == "03";
    Value4("2021");
    Value2("03");
    assert forall k :: 7 <= k < |s| ==> !IsDigit(s[k]);
    assert RunEnd(s, 7, false) == |s|;
    RulePriority(s);
  }

  lemma YearExample()
    ensures GuessDate("2021.jpg") == Guessed([2021, 0])
  {
    var s := "2021.jpg";
    assert s[0..4] == "2021";
    Value4("2021");
    RulePriority(s);
  }

  /** A zero month under a year-month-day name raises rather than reading as
      January, and 1699 is below the year bound. */
  lemma RejectedExamples()
    ensures GuessDate("2021-00-05 photo.jpg") == OutOfRange
    ensures GuessDate("1699-01-01.jpg") == OutOfRange
  {
    ZeroMonthRejected();
    EarlyYearRejected();
  }

  lemma ZeroMonthRejected()
    ensures GuessDate("2021-00-05 photo.jpg") == OutOfRange
  {
    var p := DatePart("2021", "00", "05");
    assert p + (" " + "photo.jpg") == "2021-00-05 photo.jpg";
    Value2("00");
    DatePartLayout("2021", "00", "05");
    SeparatedDate(p, " " + "photo.jpg");
    ZeroCoercion(p + (" " + "photo.jpg"));
  }

  lemma EarlyYearRejected()
    ensures GuessDate("1699-01-01.jpg") == OutOfRange
  {
    var b := "1699-01-01.jpg";
    assert b[0..4] == "1699";
    Value4("1699");
    YearOutOfRangeRaises(b);
  }

  /** A date part followed by a non-digit matches rule 3 (and not rule 1). */
  lemma SeparatedDate(p: string, q: string)
    requires |p| == 10 && YmdPrefix(p)
    requires |q| >= 1 && !IsDigit(q[0])
    ensures MatchesYmdSep(p + q) && (q[0] != '-' ==> !MatchesYmdHms(p + q))
    ensures Field(p + q, 0, 4) == Field(p, 0, 4) && Field(p + q, 5, 2) == Field(p, 5, 2) && Field(p + q, 8, 2) == Field(p, 8, 2)
  {
    SliceLeft(p, q, 0, 4);
    SliceLeft(p, q, 5, 7);
    SliceLeft(p, q, 8, 10);
  }
}
