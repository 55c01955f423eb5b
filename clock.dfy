/**
 * The countdown display shared by both timer variants: a non-negative number
 * of seconds written as zero-padded minutes, a colon and zero-padded seconds.
 * Both variants build it from the same expression (integer division and
 * remainder by 60, `Number.prototype.toString()`, `padStart(2, "0")`), so it is
 * defined once here. `ParseClock` is an independent reader for that text; the
 * lemmas prove that it recovers every formatted value.
 */
module Clock {

  datatype Option<T> = None | Some(value: T)

  predicate IsDigit(c: char) {
    '0' <= c <= '9'
  }

  predicate AllDigits(s: string) {
    forall i :: 0 <= i < |s| ==> IsDigit(s[i])
  }

  function DigitValue(c: char): (d: nat)
    requires IsDigit(c)
    ensures d < 10
  {
    c as int - '0' as int
  }

  function DigitChar(d: nat): (c: char)
    requires d < 10
    ensures IsDigit(c) && DigitValue(c) == d
  {
    ('0' as int + d) as char
  }

  /** Decimal text of a non-negative integer, as `toString()` writes it: no sign, no leading zero. */
  function Decimal(n: nat): (s: string)
    ensures 1 <= |s| && AllDigits(s)
    ensures |s| == 1 <==> n < 10
    ensures |s| <= 2 <==> n < 100
    ensures |s| > 1 ==> s[0] != '0'
    decreases n
  {
    if n < 10 then [DigitChar(n)] else Decimal(n / 10) + [DigitChar(n % 10)]
  }

  /** Value of a string of decimal digits; leading zeros are allowed. */
  function ParseDecimal(s: string): nat
    requires AllDigits(s)
  {
    if s == [] then 0 else 10 * ParseDecimal(s[..|s| - 1]) + DigitValue(s[|s| - 1])
  }

  /**
   * `padStart(width, fill)` with a one-character fill: the fill is prepended
   * until the length reaches `width`; a longer string is returned unchanged,
   * never truncated.
   */
  function PadStart(s: string, width: nat, fill: char): (r: string)
    ensures |r| == if |s| < width then width else |s|
    decreases width - |s|
  {
    if |s| >= width then s else PadStart([fill] + s, width, fill)
  }

  /** What `PadStart` adds is fill only, and the original text ends the result. */
  lemma {:induction false} PadStartParts(s: string, width: nat, fill: char)
    ensures var r := PadStart(s, width, fill);
      r == seq(|r| - |s|, _ => fill) + s
    decreases width - |s|
  {
    if |s| < width {
      PadStartParts([fill] + s, width, fill);
      var r := PadStart(s, width, fill);
      assert seq(|r| - |s| - 1, _ => fill) + ([fill] + s) == seq(|r| - |s|, _ => fill) + s;
    }
  }

  /**
   * Minutes, a colon and seconds, each part padded to at least two digits:
   * at least five characters, digits before the colon, and exactly two digits
   * after it.
   */
  function Format(t: nat): (r: string)
    ensures |r| >= 5 && r[|r| - 3] == ':'
    ensures AllDigits(r[..|r| - 3]) && AllDigits(r[|r| - 2..])
  {
    var mm, ss := PadStart(Decimal(t / 60), 2, '0'), PadStart(Decimal(t % 60), 2, '0');
    PaddedDecimal(t / 60);
    PaddedDecimal(t % 60);
    var r := mm + ":" + ss;
    assert r[..|r| - 3] == mm && r[|r| - 2..] == ss;
    r
  }

  /** Index of the first colon in `s`, or `|s|` when there is none. */
  function ColonIndex(s: string): (i: nat)
    ensures i <= |s|
    ensures i < |s| ==> s[i] == ':'
  {
    if s == [] || s[0] == ':' then 0 else 1 + ColonIndex(s[1..])
  }

  /**
   * Reads clock text: one or more minute digits, a colon, exactly two second
   * digits whose value is below 60. Anything else is rejected.
   */
  function ParseClock(s: string): Option<nat> {
    var i := ColonIndex(s);
    if i == |s| then None else ParseFields(s[..i], s[i + 1..])
  }

  /** The value of the minutes and seconds fields on either side of the colon. */
  function ParseFields(mm: string, ss: string): Option<nat> {
    if 1 <= |mm| && AllDigits(mm) && |ss| == 2 && AllDigits(ss) && ParseDecimal(ss) < 60
    then Some(60 * ParseDecimal(mm) + ParseDecimal(ss))
    else None
  }

  lemma {:induction false} DecimalRoundTrip(n: nat)
    ensures ParseDecimal(Decimal(n)) == n
    decreases n
  {
    if n >= 10 {
      var s := Decimal(n);
      assert s[..|s| - 1] == Decimal(n / 10);
      DecimalRoundTrip(n / 10);
    }
  }

  /** A leading zero does not change the value of a digit string. */
  lemma {:induction false} LeadingZero(s: string)
    requires AllDigits(s)
    ensures AllDigits("0" + s) && ParseDecimal("0" + s) == ParseDecimal(s)
    decreases |s|
  {
    var t := "0" + s;
    if s == [] {
      assert t[..|t| - 1] == [];
    } else {
      assert t[..|t| - 1] == "0" + s[..|s| - 1];
      LeadingZero(s[..|s| - 1]);
    }
  }

  /** Padding a decimal to two places keeps it a digit string with the same value. */
  lemma PaddedDecimal(n: nat)
    ensures AllDigits(PadStart(Decimal(n), 2, '0'))
    ensures ParseDecimal(PadStart(Decimal(n), 2, '0')) == n
    ensures |PadStart(Decimal(n), 2, '0')| == 2 <==> n < 100
  {
    var s := Decimal(n);
    DecimalRoundTrip(n);
    if |s| < 2 {
      assert PadStart(s, 2, '0') == "0" + s;
      LeadingZero(s);
    }
  }

  /** The first colon after a run of digits is the one that ends the run. */
  lemma {:induction false} ColonSplit(a: string, b: string)
    requires AllDigits(a)
    ensures ColonIndex(a + ":" + b) == |a|
    decreases |a|
  {
    var s := a + ":" + b;
    if a != [] {
      assert s[0] == a[0];
      assert s[1..] == a[1..] + ":" + b;
      ColonSplit(a[1..], b);
    }
  }

  lemma ParseClockParts(mm: string, ss: string)
    requires AllDigits(mm)
    ensures ParseClock(mm + ":" + ss) == ParseFields(mm, ss)
  {
    var s := mm + ":" + ss;
    ColonSplit(mm, ss);
    assert s[..|mm|] == mm;
    assert s[|mm| + 1..] == ss;
  }

  lemma FieldsValue(mm: string, ss: string, m: nat, sec: nat)
    requires 1 <= |mm| && AllDigits(mm) && ParseDecimal(mm) == m
    requires |ss| == 2 && AllDigits(ss) && ParseDecimal(ss) == sec && sec < 60
    ensures ParseFields(mm, ss) == Some(60 * m + sec)
  {
  }

  lemma ClockOfParts(m: nat, sec: nat)
    requires sec < 60
    ensures ParseClock(PadStart(Decimal(m), 2, '0') + ":" + PadStart(Decimal(sec), 2, '0')) == Some(60 * m + sec)
  {
    var mm := PadStart(Decimal(m), 2, '0');
    var ss := PadStart(Decimal(sec), 2, '0');
    PaddedDecimal(m);
    PaddedDecimal(sec);
    FieldsValue(mm, ss, m, sec);
    ParseClockParts(mm, ss);
  }

  /** Every formatted value is read back exactly, for any number of minutes. */
  lemma FormatRoundTrip(t: nat)
    ensures ParseClock(Format(t)) == Some(t)
  {
    var m, sec := t / 60, t % 60;
    assert 60 * m + sec == t;
    ClockOfParts(m, sec);
    var r := PadStart(Decimal(m), 2, '0') + ":" + PadStart(Decimal(sec), 2, '0');
    assert Format(t) == r;
    assert ParseClock(r) == Some(t);
  }

  /** Two different second counts never show the same text. */
  lemma FormatInjective(t: nat, u: nat)
    requires Format(t) == Format(u)
    ensures t == u
  {
    FormatRoundTrip(t);
    FormatRoundTrip(u);
  }

  lemma TwoDigitValue(s: string)
    requires |s| == 2 && AllDigits(s)
    ensures ParseDecimal(s) == 10 * DigitValue(s[0]) + DigitValue(s[1])
  {
    var p := s[..1];
    assert p[..0] == [] && p[0] == s[0];
    assert ParseDecimal(p) == DigitValue(s[0]);
    assert s[..|s| - 1] == p;
  }

  lemma ShapeOfParts(m: nat, sec: nat)
    requires m < 100 && sec < 60
    ensures var r := PadStart(Decimal(m), 2, '0') + ":" + PadStart(Decimal(sec), 2, '0');
      |r| == 5 && r[2] == ':' &&
      IsDigit(r[0]) && IsDigit(r[1]) && IsDigit(r[3]) && IsDigit(r[4]) &&
      10 * DigitValue(r[0]) + DigitValue(r[1]) == m &&
      10 * DigitValue(r[3]) + DigitValue(r[4]) == sec
  {
    var mm := PadStart(Decimal(m), 2, '0');
    var ss := PadStart(Decimal(sec), 2, '0');
    PaddedDecimal(m);
    PaddedDecimal(sec);
    TwoDigitValue(mm);
    TwoDigitValue(ss);
    var r := mm + ":" + ss;
    assert r[0] == mm[0] && r[1] == mm[1] && r[2] == ':' && r[3] == ss[0] && r[4] == ss[1];
  }

  /**
   * Below 100 minutes the text has the shape `MM:SS`: five characters, digits
   * around a colon at index 2, a seconds part below 60, and the two parts
   * recombine to the input.
   */
  lemma FormatShape(t: nat)
    requires t < 6000
    ensures var r := Format(t);
      |r| == 5 && r[2] == ':' &&
      IsDigit(r[0]) && IsDigit(r[1]) && IsDigit(r[3]) && IsDigit(r[4]) &&
      10 * DigitValue(r[3]) + DigitValue(r[4]) < 60 &&
      60 * (10 * DigitValue(r[0]) + DigitValue(r[1])) + 10 * DigitValue(r[3]) + DigitValue(r[4]) == t
  {
    var m, sec := t / 60, t % 60;
    assert 60 * m + sec == t && m < 100 && sec < 60;
    ShapeOfParts(m, sec);
    var r := PadStart(Decimal(m), 2, '0') + ":" + PadStart(Decimal(sec), 2, '0');
    assert Format(t) == r;
  }

  lemma WideOfParts(m: nat, sec: nat)
    requires m >= 100 && sec < 60
    ensures var r := PadStart(Decimal(m), 2, '0') + ":" + PadStart(Decimal(sec), 2, '0');
      ColonIndex(r) >= 3 && |r| >= 6
  {
    var mm := PadStart(Decimal(m), 2, '0');
    var ss := PadStart(Decimal(sec), 2, '0');
    PaddedDecimal(m);
    PaddedDecimal(sec);
    ColonSplit(mm, ss);
  }

  /**
   * From 100 minutes on, the minutes part keeps all of its digits: padding
   * never truncates, so the text grows beyond five characters.
   */
  lemma FormatWide(t: nat)
    requires t >= 6000
    ensures ColonIndex(Format(t)) >= 3 && |Format(t)| >= 6
  {
    var m, sec := t / 60, t % 60;
    assert m >= 100 && sec < 60;
    WideOfParts(m, sec);
    var r := PadStart(Decimal(m), 2, '0') + ":" + PadStart(Decimal(sec), 2, '0');
    assert Format(t) == r;
  }

  lemma FormatExamples()
    ensures Format(0) == "00:00"
    ensures Format(65) == "01:05"
    ensures Format(1500) == "25:00"
  {
    assert DigitChar(0) == '0' && DigitChar(1) == '1' && DigitChar(2) == '2' && DigitChar(5) == '5';
    assert Decimal(0) == "0" && Decimal(1) == "1" && Decimal(5) == "5" && Decimal(2) == "2";
    assert Decimal(25) == "25";
    assert PadStart("0", 2, '0') == "00";
    assert PadStart("1", 2, '0') == "01";
    assert PadStart("5", 2, '0') == "05";
    assert PadStart("25", 2, '0') == "25";
  }
}
