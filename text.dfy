/**
 * Character-level helpers: ASCII case mapping, substring search, decimal
 * rendering and reading, splitting on a separator, and the two clock
 * formats the pipeline uses ("HH:MM:SS" on input, "HH:MM" on output).
 */
module Text {
  import opened Wrappers

  /* ---------- case mapping ---------- */

  predicate IsUpper(c: char) { 'A' <= c <= 'Z' }

  function LowerChar(c: char): (d: char)
    ensures !IsUpper(d)
    ensures !IsUpper(c) ==> d == c
  {
    if IsUpper(c) then (c as int + 32) as char else c
  }

  /** `str.lower()` restricted to ASCII letters. */
  function Lower(s: string): (r: string)
    ensures |r| == |s|
    ensures forall i :: 0 <= i < |s| ==> r[i] == LowerChar(s[i])
  {
    if s == [] then [] else [LowerChar(s[0])] + Lower(s[1..])
  }

  predicate IsLowered(s: string)
  {
    forall i :: 0 <= i < |s| ==> !IsUpper(s[i])
  }

  lemma LowerIsLowered(s: string)
    ensures IsLowered(Lower(s))
  {
  }

  lemma LoweredFixed(s: string)
    requires IsLowered(s)
    ensures Lower(s) == s
  {
  }

  /** Lowering twice is lowering once. */
  lemma LowerIdempotent(s: string)
    ensures Lower(Lower(s)) == Lower(s)
  {
    LowerIsLowered(s);
    LoweredFixed(Lower(s));
  }

  /* ---------- substring search ---------- */

  /** `p` occurs in `s` at some position (an unanchored regex search for a literal). */
  predicate Contains(s: string, p: string)
    decreases |s|
  {
    p <= s || (s != [] && Contains(s[1..], p))
  }

  /** A case-sensitive occurrence is also an occurrence once both sides are lowered. */
  lemma {:induction false} ContainsLower(s: string, p: string)
    requires Contains(s, p)
    ensures Contains(Lower(s), Lower(p))
    decreases |s|
  {
    if p <= s {
      assert Lower(p) == Lower(s)[..|p|];
    } else {
      ContainsLower(s[1..], p);
      assert Lower(s)[1..] == Lower(s[1..]);
    }
  }

  /* ---------- decimal numbers ---------- */

  predicate IsDigit(c: char) { '0' <= c <= '9' }

  predicate AllDigits(s: string)
  {
    forall i :: 0 <= i < |s| ==> IsDigit(s[i])
  }

  function DigitChar(d: nat): (c: char)
    requires d < 10
    ensures IsDigit(c) && c as int - '0' as int == d
  {
    ('0' as int + d) as char
  }

  /** The value of a string of decimal digits, most significant first (`int(s)`). */
  function DigitsValue(s: string): nat
    requires AllDigits(s)
    decreases |s|
  {
    if s == [] then 0 else DigitsValue(s[..|s| - 1]) * 10 + (s[|s| - 1] as int - '0' as int)
  }

  /** Shortest decimal rendering of `n` (`str(n)`). */
  function Decimal(n: nat): (r: string)
    ensures 1 <= |r| && AllDigits(r) && ':' !in r
    ensures n < 10 ==> |r| == 1
    ensures n >= 10 ==> |r| >= 2
    ensures n < 100 ==> |r| <= 2
    decreases n
  {
    if n < 10 then [DigitChar(n)] else Decimal(n / 10) + [DigitChar(n % 10)]
  }

  lemma {:induction false} DecimalValue(n: nat)
    ensures DigitsValue(Decimal(n)) == n
    decreases n
  {
    if n >= 10 {
      var r := Decimal(n);
      assert r[..|r| - 1] == Decimal(n / 10);
      DecimalValue(n / 10);
    }
  }

  lemma {:induction false} LeadingZero(s: string)
    requires AllDigits(s)
    ensures AllDigits(['0'] + s) && DigitsValue(['0'] + s) == DigitsValue(s)
    decreases |s|
  {
    if s != [] {
      var t := ['0'] + s;
      assert t[..|t| - 1] == ['0'] + s[..|s| - 1];
      LeadingZero(s[..|s| - 1]);
    }
  }

  /** `f"{n:02d}"` for a non-negative `n`: at least two digits, zero padded. */
  function Pad2(n: nat): (r: string)
    ensures AllDigits(r) && ':' !in r && |r| >= 2
    ensures n < 100 ==> |r| == 2
  {
    if n < 10 then ['0'] + Decimal(n) else Decimal(n)
  }

  lemma Pad2Value(n: nat)
    ensures DigitsValue(Pad2(n)) == n
  {
    DecimalValue(n);
    if n < 10 {
      LeadingZero(Decimal(n));
    }
  }

  /** `f"{n:02d}"` for any integer: the sign takes one of the two columns. */
  function IntPad2(n: int): (r: string)
    ensures ':' !in r
    ensures n >= 0 ==> r == Pad2(n)
  {
    if n < 0 then "-" + Decimal(-n) else Pad2(n)
  }

  /* ---------- splitting ---------- */

  /** `s.split(sep)`: the maximal separator-free pieces, always at least one. */
  function Split(s: string, sep: char): (r: seq<string>)
    ensures |r| >= 1
    ensures forall i :: 0 <= i < |r| ==> sep !in r[i]
    decreases |s|
  {
    if s == [] then [[]]
    else if s[0] == sep then [[]] + Split(s[1..], sep)
    else
      var rest := Split(s[1..], sep);
      [[s[0]] + rest[0]] + rest[1..]
  }

  lemma {:induction false} SplitNone(a: string, sep: char)
    requires sep !in a
    ensures Split(a, sep) == [a]
    decreases |a|
  {
    if a != [] {
      SplitNone(a[1..], sep);
      assert [a[0]] + a[1..] == a;
    }
  }

  lemma {:induction false} SplitAt(a: string, b: string, sep: char)
    requires sep !in a
    ensures Split(a + [sep] + b, sep) == [a] + Split(b, sep)
    decreases |a|
  {
    var s := a + [sep] + b;
    if a == [] {
      assert s[1..] == b;
    } else {
      assert s[1..] == a[1..] + [sep] + b;
      SplitAt(a[1..], b, sep);
      assert [a[0]] + a[1..] == a;
    }
  }

  /* ---------- clock formats ---------- */

  /** One numeric field of `%H`, `%M` or `%S`: one or two digits, below `bound`. */
  function Field(f: string, bound: nat): (r: Option<nat>)
    ensures r.Some? ==> r.value < bound
  {
    if 1 <= |f| <= 2 && AllDigits(f) && DigitsValue(f) < bound then Some(DigitsValue(f)) else None
  }

  /** Parse "H:M:S" the way the `%H:%M:%S` format does, giving seconds since midnight. */
  function ParseClock(t: string): (r: Option<nat>)
    ensures r.Some? ==> r.value < 86400
  {
    var p := Split(t, ':');
    if |p| != 3 then None
    else
      match (Field(p[0], 24), Field(p[1], 60), Field(p[2], 60))
      case (Some(h), Some(m), Some(s)) => Some(h * 3600 + m * 60 + s)
      case _ => None
  }

  /** The canonical "HH:MM:SS" text of a time of day. */
  function ClockText(secs: nat): (r: string)
    requires secs < 86400
  {
    Pad2(secs / 3600) + ":" + Pad2(secs / 60 % 60) + ":" + Pad2(secs % 60)
  }

  lemma ClockFields(secs: nat)
    requires secs < 86400
    ensures secs / 3600 < 24 && secs / 60 % 60 < 60
    ensures (secs / 3600) * 3600 + (secs / 60 % 60) * 60 + secs % 60 == secs
  {
  }

  lemma ClockRoundTrip(secs: nat)
    requires secs < 86400
    ensures ParseClock(ClockText(secs)) == Some(secs)
  {
    var h, m, s := secs / 3600, secs / 60 % 60, secs % 60;
    ClockFields(secs);
    var a, b, c := Pad2(h), Pad2(m), Pad2(s);
    SplitNone(c, ':');
    SplitAt(b, c, ':');
    SplitAt(a, b + [':'] + c, ':');
    assert ClockText(secs) == a + [':'] + (b + [':'] + c);
    var p := Split(ClockText(secs), ':');
    assert p == [a, b, c];
    Pad2Value(h);
    Pad2Value(m);
    Pad2Value(s);
    assert Field(a, 24) == Some(h);
    assert Field(b, 60) == Some(m);
    assert Field(c, 60) == Some(s);
  }

  /** `f"{int(x//60):02d}:{int(x%60):02d}"` where `x` is `secs / 60` minutes. */
  function ClockHHMM(secs: int): string
  {
    IntPad2(secs / 3600) + ":" + Pad2(secs % 3600 / 60)
  }

  /** Read "H...:MM" back as a number of minutes. */
  function ReadHHMM(t: string): Option<nat>
  {
    var p := Split(t, ':');
    if |p| == 2 && 1 <= |p[0]| && AllDigits(p[0]) && |p[1]| == 2 && AllDigits(p[1]) && DigitsValue(p[1]) < 60
    then Some(DigitsValue(p[0]) * 60 + DigitsValue(p[1]))
    else None
  }

  /**
   * For a non-negative duration the text has a zero-padded hour field of at
   * least two digits (never wrapped at 24) and a two-digit minute field, and
   * it reads back as the whole number of minutes in the duration.
   */
  lemma ClockHHMMReadsBack(secs: int)
    requires secs >= 0
    ensures var p := Split(ClockHHMM(secs), ':'); |p| == 2 && |p[0]| >= 2 && |p[1]| == 2
    ensures ReadHHMM(ClockHHMM(secs)) == Some(secs / 60)
  {
    var h, m := secs / 3600, secs % 3600 / 60;
    SplitAt(Pad2(h), Pad2(m), ':');
    SplitNone(Pad2(m), ':');
    assert ClockHHMM(secs) == Pad2(h) + [':'] + Pad2(m);
    Pad2Value(h);
    Pad2Value(m);
  }
}
