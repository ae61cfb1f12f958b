/** Character and string helpers shared by the media scripts' model: ASCII
    digit strings and the numbers they denote, zero-padded decimal rendering,
    ASCII case folding, prefix and suffix tests, joining and splitting on a
    separator, and POSIX path joining. */
module Text {

  datatype Option<T> = None | Some(value: T)

  predicate IsDigit(c: char) { '0' <= c <= '9' }

  predicate AllDigits(s: string) { forall i :: 0 <= i < |s| ==> IsDigit(s[i]) }

  /** `[0-9]{n}` matches at position i of s. */
  predicate DigitsAt(s: string, i: nat, n: nat) { i + n <= |s| && AllDigits(s[i..i + n]) }

  /** The number an ASCII digit string denotes, as Python's `int()` reads it
      (leading zeros allowed). */
  function Value(s: string): nat
    requires AllDigits(s)
  {
    if s == [] then 0 else 10 * Value(s[..|s| - 1]) + (s[|s| - 1] as int - '0' as int)
  }

  /** The number written by the n digits at position i. */
  function Field(s: string, i: nat, n: nat): nat
    requires DigitsAt(s, i, n)
  {
    Value(s[i..i + n])
  }

  /** The value of a two- or four-digit literal, digit by digit. */
  lemma Value2(s: string)
    requires |s| == 2 && AllDigits(s)
    ensures Value(s) == 10 * (s[0] as int - '0' as int) + (s[1] as int - '0' as int)
  {
    var a := s[..1];
    assert a[..0] == [] && a[0] == s[0];
    assert Value(a) == s[0] as int - '0' as int;
  }

  lemma Value4(s: string)
    requires |s| == 4 && AllDigits(s)
    ensures Value(s) == 1000 * (s[0] as int - '0' as int) + 100 * (s[1] as int - '0' as int)
                        + 10 * (s[2] as int - '0' as int) + (s[3] as int - '0' as int)
  {
    assert s[..3][..2] == s[..2];
    assert s[..3][2] == s[2] && s[..2][0] == s[0] && s[..2][1] == s[1];
    Value2(s[..2]);
  }

  function Pow10(n: nat): (p: nat)
    ensures p >= 1
  {
    if n == 0 then 1 else 10 * Pow10(n - 1)
  }

  function DigitChar(d: nat): (c: char)
    requires d < 10
    ensures IsDigit(c)
  {
    ('0' as int + d) as char
  }

  /** The shortest decimal numeral of n, as Python's `str(n)` writes it. */
  function Decimal(n: nat): (s: string)
    ensures 1 <= |s| && AllDigits(s)
  {
    if n < 10 then [DigitChar(n)] else Decimal(n / 10) + [DigitChar(n % 10)]
  }

  lemma {:induction false} DecimalValue(n: nat)
    ensures Value(Decimal(n)) == n
  {
    if n >= 10 {
      var s := Decimal(n);
      assert s[..|s| - 1] == Decimal(n / 10);
      DecimalValue(n / 10);
    }
  }

  lemma {:induction false} DecimalLength(n: nat, w: nat)
    requires 1 <= w && n < Pow10(w)
    ensures |Decimal(n)| <= w
  {
    if n >= 10 {
      assert w >= 2;
      assert n / 10 < Pow10(w - 1);
      DecimalLength(n / 10, w - 1);
    }
  }

  function Zeros(k: nat): (s: string)
    ensures |s| == k && AllDigits(s)
  {
    seq(k, _ => '0')
  }

  /** n rendered with at least w digits, padded on the left with zeros, as the
      format spec `{n:0w.0f}` renders a whole number. */
  function Padded(n: nat, w: nat): (s: string)
    ensures AllDigits(s) && w <= |s|
  {
    var d := Decimal(n);
    if |d| < w then Zeros(w - |d|) + d else d
  }

  lemma {:induction false} ZerosValue(k: nat, s: string)
    requires AllDigits(s)
    ensures Value(Zeros(k) + s) == Value(s)
    decreases |s|, k
  {
    if s == [] {
      assert Zeros(k) + s == Zeros(k);
      if k > 0 {
        assert Zeros(k)[..k - 1] == Zeros(k - 1);
        ZerosValue(k - 1, []);
        assert Zeros(k - 1) + [] == Zeros(k - 1);
      }
    } else {
      var t := Zeros(k) + s;
      assert t[..|t| - 1] == Zeros(k) + s[..|s| - 1];
      ZerosValue(k, s[..|s| - 1]);
    }
  }

  /** A number that fits the width is rendered in exactly that many digits. */
  lemma PaddedWidth(n: nat, w: nat)
    requires 1 <= w && n < Pow10(w)
    ensures |Padded(n, w)| == w
  {
    DecimalLength(n, w);
  }

  /** Reading a padded rendering back gives the number; when it fits, the
      rendering is exactly w characters long. */
  lemma PaddedRoundTrip(n: nat, w: nat)
    ensures Value(Padded(n, w)) == n
    ensures 1 <= w && n < Pow10(w) ==> |Padded(n, w)| == w
  {
    var d := Decimal(n);
    DecimalValue(n);
    if |d| < w {
      ZerosValue(w - |d|, d);
    }
    if 1 <= w && n < Pow10(w) {
      DecimalLength(n, w);
    }
  }

  /** Slicing a concatenation inside one of its halves. */
  lemma SliceLeft(a: string, b: string, i: nat, j: nat)
    requires i <= j <= |a|
    ensures (a + b)[i..j] == a[i..j]
  {
  }

  lemma SliceRight(a: string, b: string, i: nat, j: nat)
    requires |a| <= i <= j <= |a| + |b|
    ensures (a + b)[i..j] == b[i - |a|..j - |a|]
  {
  }

  function LowerChar(c: char): char
  {
    if 'A' <= c <= 'Z' then (c as int + 32) as char else c
  }

  predicate IsUpper(c: char) { 'A' <= c <= 'Z' }

  /** The same character, or the upper- and lower-case forms of one ASCII
      letter. */
  predicate SameIgnoringCase(a: char, b: char)
  {
    a == b || (IsUpper(a) && b as int == a as int + 32) || (IsUpper(b) && a as int == b as int + 32)
  }

  predicate EqualIgnoringCase(s: string, t: string)
  {
    |s| == |t| && forall i :: 0 <= i < |s| ==> SameIgnoringCase(s[i], t[i])
  }

  /** ASCII lower-casing (Python's `str.lower` restricted to ASCII letters):
      the same string up to case, with no upper-case letter left. */
  function Lower(s: string): (r: string)
    ensures EqualIgnoringCase(r, s)
    ensures forall i :: 0 <= i < |r| ==> !IsUpper(r[i])
  {
    seq(|s|, i requires 0 <= i < |s| => LowerChar(s[i]))
  }

  /** Comparing the lower-cased string with a string that has no upper-case
      letter is comparing the two up to case. */
  lemma LowerMatches(s: string, t: string)
    requires forall i :: 0 <= i < |t| ==> !IsUpper(t[i])
    ensures Lower(s) == t <==> EqualIgnoringCase(s, t)
  {
    var l := Lower(s);
    if EqualIgnoringCase(s, t) {
      forall i | 0 <= i < |t|
        ensures l[i] == t[i]
      {
        assert SameIgnoringCase(l[i], s[i]) && SameIgnoringCase(s[i], t[i]);
      }
    }
  }

  predicate StartsAt(s: string, t: string, i: nat) { i + |t| <= |s| && s[i..i + |t|] == t }

  predicate EndsWith(s: string, t: string) { |t| <= |s| && s[|s| - |t|..] == t }

  /** Python's `sep.join(parts)`. */
  function JoinWith(sep: string, parts: seq<string>): string
  {
    if |parts| == 0 then ""
    else if |parts| == 1 then parts[0]
    else parts[0] + sep + JoinWith(sep, parts[1..])
  }

  function FirstIndex(s: string, c: char): (i: nat)
    requires c in s
    ensures i < |s| && s[i] == c && c !in s[..i]
  {
    if s[0] == c then 0
    else
      assert c in s[1..];
      var j := FirstIndex(s[1..], c);
      assert s[..j + 1] == [s[0]] + s[1..][..j];
      j + 1
  }

  /** Python's `s.split(c)` for a one-character separator. */
  function SplitOn(s: string, c: char): (parts: seq<string>)
    ensures 1 <= |parts|
    decreases |s|
  {
    if c !in s then [s]
    else
      var i := FirstIndex(s, c);
      [s[..i]] + SplitOn(s[i + 1..], c)
  }

  /** In a part without the separator, followed by the separator, the first
      separator is the one after the part. */
  lemma FirstSeparator(p: string, c: char, rest: string)
    requires c !in p
    ensures var s := p + [c] + rest;
      c in s && FirstIndex(s, c) == |p| && s[..|p|] == p && s[|p| + 1..] == rest
  {
    var s := p + [c] + rest;
    assert s[|p|] == c;
    var i := FirstIndex(s, c);
    assert forall j :: 0 <= j < |p| ==> s[j] == p[j];
    assert i <= |p| ==> s[..i] == p[..i];
    assert s[..|p|] == p;
    assert s[|p| + 1..] == rest;
  }

  /** Splitting a joined list on a separator no part contains gives the list back. */
  lemma {:induction false} SplitJoin(parts: seq<string>, c: char)
    requires 1 <= |parts|
    requires forall k :: 0 <= k < |parts| ==> c !in parts[k]
    ensures SplitOn(JoinWith([c], parts), c) == parts
  {
    if |parts| > 1 {
      var p := parts[0];
      var rest := JoinWith([c], parts[1..]);
      assert JoinWith([c], parts) == p + [c] + rest;
      FirstSeparator(p, c, rest);
      assert SplitOn(p + [c] + rest, c) == [p] + SplitOn(rest, c);
      SplitJoin(parts[1..], c);
      assert parts == [p] + parts[1..];
    }
  }

  /** The leading part `os.path.join(a, b)` puts before a relative b. */
  function DirPrefix(a: string): string
  {
    if a == "" || a[|a| - 1] == '/' then a else a + "/"
  }

  /** POSIX `os.path.join(a, b)` for two components: an absolute b replaces
      a; otherwise b follows a, with one slash inserted when a is not empty
      and does not already end with one, so that the text after the slash
      before b is b itself. */
  function PathJoin(a: string, b: string): (p: string)
    ensures |b| > 0 && b[0] == '/' ==> p == b
    ensures !(|b| > 0 && b[0] == '/') ==>
      && |a| + |b| <= |p| <= |a| + |b| + 1
      && p[..|a|] == a && p[|p| - |b|..] == b
      && (|p| == |a| + |b| + 1 ==> p[|a|] == '/')
      && (a != "" ==> p[|p| - |b| - 1] == '/')
    ensures !(|b| > 0 && b[0] == '/') ==>
      |p| == |a| + |b| + (if a == "" || a[|a| - 1] == '/' then 0 else 1)
  {
    if |b| > 0 && b[0] == '/' then b
    else if a == "" || a[|a| - 1] == '/' then a + b
    else a + "/" + b
  }
}
