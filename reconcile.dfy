/** What `update_metadata_by_filename.py` does with a guessed date once it has
    one: the comparison with the date found in the metadata text that decides
    whether to write, the materialisation of a partial date into a full
    timestamp in `change_metadata`, and the tag value handed to exiftool. */
module Reconcile {
  import opened Text
  import opened MetadataDate

  /** The six values `change_metadata` formats. */
  datatype Timestamp = Timestamp(year: nat, month: nat, day: nat, hour: nat, minute: nat, second: nat)

  /** The outcome of the materialisation: a timestamp, or the
      NotImplementedError raised before exiftool runs. */
  datatype Materialized = Materialized(ts: Timestamp) | NotImplemented

  /** A year, month, day and order: midnight plus `order` seconds, the order
      packed as `int(order / 60)` minutes and `order % 60` seconds. */
  function Packed(year: nat, month: nat, day: nat, order: nat): Materialized
  {
    Materialized(Timestamp(year, month, day, 0, order / 60, order % 60))
  }

  /** The date-materialisation part of `change_metadata(filepath, new_date)`. */
  function Materialize(date: seq<nat>): (r: Materialized)
    ensures r.Materialized? <==> |date| in {2, 3, 4, 6}
  {
    if |date| == 2 then Packed(date[0], 1, 1, date[1])
    else if |date| == 3 then Packed(date[0], date[1], 1, date[2])
    else if |date| == 4 then Packed(date[0], date[1], date[2], date[3])
    else if |date| == 6 then Materialized(Timestamp(date[0], date[1], date[2], date[3], date[4], date[5]))
    else NotImplemented
  }

  /** The order a packed timestamp carries. */
  function Order(ts: Timestamp): nat
  {
    ts.minute * 60 + ts.second
  }

  /** Reading a tuple of the given arity back out of a timestamp: the inverse of
      `Materialize`. */
  function Dematerialize(ts: Timestamp, arity: nat): seq<nat>
  {
    if arity == 2 then [ts.year, Order(ts)]
    else if arity == 3 then [ts.year, ts.month, Order(ts)]
    else if arity == 4 then [ts.year, ts.month, ts.day, Order(ts)]
    else [ts.year, ts.month, ts.day, ts.hour, ts.minute, ts.second]
  }

  /** What each arity becomes: a year and order fall on January 1st, a year,
      month and order on the 1st of the month, all three at midnight with the
      order split into minutes and seconds below 60; six fields pass verbatim.
      Nothing is lost: the tuple can be read back. */
  lemma MaterializeMeaning(date: seq<nat>)
    requires |date| in {2, 3, 4, 6}
    ensures var ts := Materialize(date).ts;
      && ts.year == date[0]
      && (|date| == 2 ==> ts.month == 1 && ts.day == 1)
      && (|date| == 3 ==> ts.month == date[1] && ts.day == 1)
      && (|date| >= 4 ==> ts.month == date[1] && ts.day == date[2])
      && (|date| < 6 ==> ts.hour == 0 && ts.second < 60 && Order(ts) == date[|date| - 1])
      && (|date| == 6 ==> ts.hour == date[3] && ts.minute == date[4] && ts.second == date[5])
    ensures Dematerialize(Materialize(date).ts, |date|) == date
  {
  }

  /** The packed minute is a real minute only for orders below one hour. */
  lemma PackedMinuteRange(year: nat, month: nat, day: nat, order: nat)
    ensures Packed(year, month, day, order).ts.minute <= 59 <==> order < 3600
  {
  }

  /** `f'{year:04.0f}:{month:02.0f}:{day:02.0f}'
      + f'{hour:02.0f}:{minute:02.0f}:{second:02.0f}'` as the script writes
      it: day and hour run together. At least eighteen characters, none of
      them a space: nothing separates the date from the time. */
  function TagValue(ts: Timestamp): (v: string)
    ensures |v| >= 18 && ' ' !in v
  {
    ColonDate(Padded(ts.year, 4), Padded(ts.month, 2), Padded(ts.day, 2))
    + ColonTime(Padded(ts.hour, 2), Padded(ts.minute, 2), Padded(ts.second, 2))
  }

  /** The value exiftool expects for `-datetimeoriginal`: the same fields
      with a space between the date and the time. */
  function ExifTagValue(ts: Timestamp): string
  {
    ColonDate(Padded(ts.year, 4), Padded(ts.month, 2), Padded(ts.day, 2))
    + (" " + ColonTime(Padded(ts.hour, 2), Padded(ts.minute, 2), Padded(ts.second, 2)))
  }

  function ColonDate(y: string, mo: string, d: string): string { y + ":" + mo + ":" + d }

  function ColonTime(h: string, mi: string, se: string): string { h + ":" + mi + ":" + se }

  /** `YYYY:MM:DD HH:MM:SS`. */
  predicate ExifLayout(v: string)
  {
    && |v| == 19
    && AllDigits(v[0..4]) && v[4] == ':' && AllDigits(v[5..7]) && v[7] == ':' && AllDigits(v[8..10])
    && v[10] == ' '
    && AllDigits(v[11..13]) && v[13] == ':' && AllDigits(v[14..16]) && v[16] == ':' && AllDigits(v[17..19])
  }

  /** How exiftool reads a value of that layout. */
  function ParseExif(v: string): (ts: Timestamp)
    requires ExifLayout(v)
  {
    Timestamp(Field(v, 0, 4), Field(v, 5, 2), Field(v, 8, 2), Field(v, 11, 2), Field(v, 14, 2), Field(v, 17, 2))
  }

  /** Every field fits its width. */
  predicate Fits(ts: Timestamp)
  {
    ts.year < 10000 && ts.month < 100 && ts.day < 100 && ts.hour < 100 && ts.minute < 100 && ts.second < 100
  }

  lemma ColonDateLayout(y: string, mo: string, d: string)
    requires |y| == 4 && |mo| == 2 && |d| == 2 && AllDigits(y) && AllDigits(mo) && AllDigits(d)
    ensures var p := ColonDate(y, mo, d);
      |p| == 10 && p[0..4] == y && p[4] == ':' && p[5..7] == mo && p[7] == ':' && p[8..10] == d
  {
    var p := ColonDate(y, mo, d);
    assert p[0..4] == y;
    assert p[5..7] == mo;
    assert p[8..10] == d;
  }

  lemma ColonTimeLayout(h: string, mi: string, se: string)
    requires |h| == 2 && |mi| == 2 && |se| == 2 && AllDigits(h) && AllDigits(mi) && AllDigits(se)
    ensures var q := ColonTime(h, mi, se);
      |q| == 8 && q[0..2] == h && q[2] == ':' && q[3..5] == mi && q[5] == ':' && q[6..8] == se
  {
    var q := ColonTime(h, mi, se);
    assert q[0..2] == h;
    assert q[3..5] == mi;
    assert q[6..8] == se;
  }

  /** A ten-character date and an eight-character time with a space between. */
  lemma ExifJoin(p: string, q: string)
    requires |p| == 10 && AllDigits(p[0..4]) && p[4] == ':' && AllDigits(p[5..7]) && p[7] == ':' && AllDigits(p[8..10])
    requires |q| == 8 && AllDigits(q[0..2]) && q[2] == ':' && AllDigits(q[3..5]) && q[5] == ':' && AllDigits(q[6..8])
    ensures ExifLayout(p + (" " + q))
    ensures ParseExif(p + (" " + q))
      == Timestamp(Value(p[0..4]), Value(p[5..7]), Value(p[8..10]), Value(q[0..2]), Value(q[3..5]), Value(q[6..8]))
  {
    var r := " " + q;
    assert r[1..3] == q[0..2] && r[4..6] == q[3..5] && r[7..9] == q[6..8];
    SliceLeft(p, r, 0, 4);
    SliceLeft(p, r, 5, 7);
    SliceLeft(p, r, 8, 10);
    SliceRight(p, r, 11, 13);
    SliceRight(p, r, 14, 16);
    SliceRight(p, r, 17, 19);
  }

  /** The corrected tag value has the layout exiftool expects and reads back as
      the timestamp it was made from. */
  lemma ExifTagValueRoundTrip(ts: Timestamp)
    requires Fits(ts)
    ensures ExifLayout(ExifTagValue(ts)) && ParseExif(ExifTagValue(ts)) == ts
  {
    var y, mo, d := Padded(ts.year, 4), Padded(ts.month, 2), Padded(ts.day, 2);
    var h, mi, se := Padded(ts.hour, 2), Padded(ts.minute, 2), Padded(ts.second, 2);
    assert Pow10(4) == 10000 && Pow10(2) == 100;
    PaddedRoundTrip(ts.year, 4);
    PaddedRoundTrip(ts.month, 2);
    PaddedRoundTrip(ts.day, 2);
    PaddedRoundTrip(ts.hour, 2);
    PaddedRoundTrip(ts.minute, 2);
    PaddedRoundTrip(ts.second, 2);
    ColonDateLayout(y, mo, d);
    ColonTimeLayout(h, mi, se);
    ExifJoin(ColonDate(y, mo, d), ColonTime(h, mi, se));
  }

  /** A ten-character date run together with a time that starts with a
      digit: eighteen characters, a digit where the space belongs, and the
      space put back gives the date, a space and the time. */
  lemma RunTogether(p: string, q: string)
    requires |p| == 10 && |q| == 8 && IsDigit(q[0])
    ensures |p + q| == 18 && IsDigit((p + q)[10]) && !ExifLayout(p + q)
    ensures p + (" " + q) == (p + q)[..10] + " " + (p + q)[10..]
  {
    assert (p + q)[..10] == p && (p + q)[10..] == q;
  }

  /** The value as written is the corrected one without its eleventh
      character: eighteen characters, with the two digits of the hour right
      after those of the day, so it never has the `YYYY:MM:DD HH:MM:SS`
      layout. */
  lemma WrittenTagValueLacksSeparator(ts: Timestamp)
    requires Fits(ts)
    ensures |TagValue(ts)| == 18
    ensures ExifTagValue(ts) == TagValue(ts)[..10] + " " + TagValue(ts)[10..]
    ensures IsDigit(TagValue(ts)[10]) && !ExifLayout(TagValue(ts))
  {
    var y, mo, d := Padded(ts.year, 4), Padded(ts.month, 2), Padded(ts.day, 2);
    var h, mi, se := Padded(ts.hour, 2), Padded(ts.minute, 2), Padded(ts.second, 2);
    assert Pow10(4) == 10000 && Pow10(2) == 100;
    PaddedWidth(ts.year, 4);
    PaddedWidth(ts.month, 2);
    PaddedWidth(ts.day, 2);
    PaddedWidth(ts.hour, 2);
    PaddedWidth(ts.minute, 2);
    PaddedWidth(ts.second, 2);
    var p, q := ColonDate(y, mo, d), ColonTime(h, mi, se);
    assert |p| == 10 && |q| == 8;
    assert q[0] == h[0];
    RunTogether(p, q);
  }

  /** The fields of 1998-02-01 00:01:30, as the format specs render them. */
  lemma ExampleFieldsRendered()
    ensures Padded(1998, 4) == "1998"
    ensures Padded(2, 2) == "02" && Padded(1, 2) == "01" && Padded(0, 2) == "00" && Padded(30, 2) == "30"
  {
    assert Decimal(1998) == "1998" by {
      assert Decimal(199) == "199" by {
        assert Decimal(19) == "19";
      }
    }
    assert Padded(2, 2) == "02" by { assert Decimal(2) == "2"; }
    assert Padded(1, 2) == "01" by { assert Decimal(1) == "1"; }
    assert Padded(0, 2) == "00" by { assert Decimal(0) == "0"; }
    assert Padded(30, 2) == "30" by { assert Decimal(30) == "30" by { assert Decimal(3) == "3"; } }
  }

  /** The tag value the script writes for the arity-3 name `1998-02 90.jpg`. */
  lemma WrittenTagValueExample()
    ensures Materialize([1998, 2, 90]) == Materialized(Timestamp(1998, 2, 1, 0, 1, 30))
    ensures TagValue(Timestamp(1998, 2, 1, 0, 1, 30)) == "1998:02:0100:01:30"
  {
    ExampleFieldsRendered();
    assert ColonDate("1998", "02", "01") + ColonTime("00", "01", "30") == "1998:02:0100:01:30";
  }

  /** What the `if` of the main loop decides. */
  datatype Decision = Keep | Rewrite | SubscriptError

  /** The `if` of the main loop, evaluated as Python does, left to right with
      short-circuits: the metadata date is only subscripted once the length
      test before it has passed, and subscripting None raises TypeError.
      Stated on its own terms: a tuple with at least two fields and no
      metadata date raises; otherwise the write is skipped exactly when the
      dates agree on the fields the name's precision covers; the empty tuple
      is always rewritten. */
  function Decide(date: seq<nat>, found: Option<Ymd>): (d: Decision)
    ensures d == SubscriptError <==> |date| >= 2 && found.None?
    ensures d == Keep <==>
      |date| >= 2 && found.Some? && Fields(found.value)[..Precision(|date|)] == date[..Precision(|date|)]
    ensures |date| < 2 ==> d == Rewrite
  {
    PrefixAgreement(date, found);
    if |date| == 2 then
      if found.None? then SubscriptError
      else if found.value.year == date[0] then Keep else Rewrite
    else if |date| == 3 then
      if found.None? then SubscriptError
      else if found.value.year == date[0] && found.value.month == date[1] then Keep else Rewrite
    else if |date| >= 4 then
      if found.None? then SubscriptError
      else if found.value.year == date[0] && found.value.month == date[1] && found.value.day == date[2]
      then Keep else Rewrite
    else Rewrite
  }

  /** How many leading fields are compared: the year for arity 2, year and
      month for arity 3, year, month and day from arity 4 on. */
  function Precision(arity: nat): nat
  {
    if arity <= 1 then 0 else if arity >= 4 then 3 else arity - 1
  }

  function Fields(d: Ymd): seq<nat> { [d.year, d.month, d.day] }

  /** Agreeing on a prefix is agreeing field by field. */
  lemma PrefixAgreement(date: seq<nat>, found: Option<Ymd>)
    ensures |date| >= 2 && found.Some? ==>
      var f, n := Fields(found.value), Precision(|date|);
      (f[..n] == date[..n] <==> forall k :: 0 <= k < n ==> f[k] == date[k])
  {
    if |date| >= 2 && found.Some? {
      var f, n := Fields(found.value), Precision(|date|);
      assert f[..n] == date[..n] <==> forall k :: 0 <= k < n ==> f[k] == date[k];
    }
  }
}
