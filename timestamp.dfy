/**
 * `getCurrentKey` (js/index.js:85-100): the label a save is filed under,
 * `YYYY-MM-DD HH:MM:SS` with every part after the year padded to two
 * digits. The clock reading is a parameter.
 */
module Timestamp {
  import opened Wrappers

  /** The parts of a `Date` the label is built from (month counted from 1). */
  datatype Clock = Clock(year: int, month: nat, day: nat, hour: nat, minute: nat, second: nat)

  /** The ranges a `Date` yields for its parts. */
  predicate InRange(c: Clock) {
    1 <= c.month <= 12 && 1 <= c.day <= 31 && c.hour < 24 && c.minute < 60 && c.second < 60
  }

  function Digit(d: nat): char
    requires d < 10
  {
    ('0' as int + d) as char
  }

  predicate IsDigit(ch: char) {
    '0' <= ch <= '9'
  }

  /** The decimal rendering of a non-negative integer, as `String(n)` gives it. */
  function Decimal(n: nat): (r: string)
    ensures |r| >= 1
    ensures forall i :: 0 <= i < |r| ==> IsDigit(r[i])
  {
    if n < 10 then [Digit(n)] else Decimal(n / 10) + [Digit(n % 10)]
  }

  /** `String(y)` for an integer year. */
  function NumberString(y: int): string {
    if y < 0 then "-" + Decimal(-y) else Decimal(y)
  }

  /** `n >= 10 ? n : '0' + n`, concatenated into a string. */
  function Pad2(n: nat): string {
    if n >= 10 then Decimal(n) else "0" + Decimal(n)
  }

  /** `year + '-' + month + '-' + day + ' ' + hour + ':' + minute + ':' + second` */
  function CurrentKey(c: Clock): string {
    NumberString(c.year) + Tail(c)
  }

  /** The fixed-width part of a label after the year. */
  function Tail(c: Clock): string {
    "-" + Pad2(c.month) + "-" + Pad2(c.day) + " " + Pad2(c.hour) + ":" + Pad2(c.minute) + ":" + Pad2(c.second)
  }

  // ---------------------------------------------------------------------
  // Reading a label back: the inverse of CurrentKey.

  function DigitValue(ch: char): Option<nat> {
    if IsDigit(ch) then Some(ch as int - '0' as int) else None
  }

  /** A non-empty string of decimal digits, read as a number. */
  function ParseDecimal(s: string): Option<nat>
    decreases |s|
  {
    if |s| == 0 then None
    else match DigitValue(s[|s| - 1])
      case None => None
      case Some(d) =>
        if |s| == 1 then Some(d)
        else match ParseDecimal(s[..|s| - 1])
          case None => None
          case Some(n) => Some(10 * n + d)
  }

  /** An optionally signed decimal integer. */
  function ParseNumber(s: string): Option<int> {
    if |s| > 0 && s[0] == '-' then
      match ParseDecimal(s[1..])
      case None => None
      case Some(n) => Some(0 - n as int)
    else
      match ParseDecimal(s)
      case None => None
      case Some(n) => Some(n)
  }

  /** Splits `Y-MM-DD HH:MM:SS` into its parts; the year is the part before the fixed 15-character tail. */
  function ParseKey(s: string): Option<Clock> {
    if |s| < 16 then None
    else
      match ParseNumber(s[..|s| - 15])
      case None => None
      case Some(y) => ParseTail(y, s[|s| - 15..])
  }

  /** `-MM-DD HH:MM:SS` after a year already read. */
  function ParseTail(y: int, t: string): Option<Clock>
    requires |t| == 15
  {
    if t[0] == '-' && t[3] == '-' && t[6] == ' ' && t[9] == ':' && t[12] == ':' then
      match (ParseDecimal(t[1..3]), ParseDecimal(t[4..6]), ParseDecimal(t[7..9]),
             ParseDecimal(t[10..12]), ParseDecimal(t[13..15]))
      case (Some(mo), Some(d), Some(h), Some(mi), Some(se)) => Some(Clock(y, mo, d, h, mi, se))
      case _ => None
    else None
  }

  // ---------------------------------------------------------------------
  // Properties.

  /** Each part below 100 is rendered as exactly two digits, with a leading '0' below 10. */
  lemma Pad2TwoDigits(n: nat)
    requires n < 100
    ensures Pad2(n) == [Digit(n / 10), Digit(n % 10)]
    ensures |Pad2(n)| == 2
    ensures n < 10 ==> Pad2(n)[0] == '0'
    ensures ParseDecimal(Pad2(n)) == Some(n)
  {
    if n >= 10 {
      assert Decimal(n / 10) == [Digit(n / 10)];
    }
    var p := Pad2(n);
    assert p[..1] == [Digit(n / 10)];
  }

  /** The year is not padded: its rendering has no leading zero unless it is 0. */
  lemma {:induction false} DecimalNoLeadingZero(n: nat)
    ensures Decimal(n)[0] == '0' <==> n == 0
  {
    if n >= 10 {
      DecimalNoLeadingZero(n / 10);
      assert Decimal(n)[0] == Decimal(n / 10)[0];
    }
  }

  lemma {:induction false} DecimalRoundTrip(n: nat)
    ensures ParseDecimal(Decimal(n)) == Some(n)
  {
    if n >= 10 {
      var s := Decimal(n);
      assert s[..|s| - 1] == Decimal(n / 10);
      DecimalRoundTrip(n / 10);
    }
  }

  lemma NumberRoundTrip(y: int)
    ensures ParseNumber(NumberString(y)) == Some(y)
  {
    var s := NumberString(y);
    if y < 0 {
      var d := Decimal(-y);
      assert s == "-" + d;
      assert s[1..] == d;
      DecimalRoundTrip(-y);
      assert ParseDecimal(s[1..]) == Some(-y);
    } else {
      assert s == Decimal(y);
      assert IsDigit(s[0]);
      DecimalRoundTrip(y);
    }
  }

  /**
   * The layout of the label: the unpadded year, then `-MM-DD HH:MM:SS`
   * with the separators `-`, `-`, ` `, `:`, `:` and two digits per part.
   */
  lemma KeyLayout(c: Clock)
    requires InRange(c)
    ensures var y, t := NumberString(c.year), Tail(c);
      && CurrentKey(c) == y + t && |t| == 15
      && t[0] == '-' && t[3] == '-' && t[6] == ' ' && t[9] == ':' && t[12] == ':'
      && t[1] == Digit(c.month / 10) && t[2] == Digit(c.month % 10)
      && t[4] == Digit(c.day / 10) && t[5] == Digit(c.day % 10)
      && t[7] == Digit(c.hour / 10) && t[8] == Digit(c.hour % 10)
      && t[10] == Digit(c.minute / 10) && t[11] == Digit(c.minute % 10)
      && t[13] == Digit(c.second / 10) && t[14] == Digit(c.second % 10)
  {
    Pad2TwoDigits(c.month);
    Pad2TwoDigits(c.day);
    Pad2TwoDigits(c.hour);
    Pad2TwoDigits(c.minute);
    Pad2TwoDigits(c.second);
  }

  lemma TailRoundTrip(c: Clock)
    requires c.month < 100 && c.day < 100 && c.hour < 100 && c.minute < 100 && c.second < 100
    ensures |Tail(c)| == 15 && ParseTail(c.year, Tail(c)) == Some(c)
  {
    Pad2TwoDigits(c.month);
    Pad2TwoDigits(c.day);
    Pad2TwoDigits(c.hour);
    Pad2TwoDigits(c.minute);
    Pad2TwoDigits(c.second);
    var t := Tail(c);
    assert t[1..3] == Pad2(c.month);
    assert t[4..6] == Pad2(c.day);
    assert t[7..9] == Pad2(c.hour);
    assert t[10..12] == Pad2(c.minute);
    assert t[13..15] == Pad2(c.second);
  }

  /** The label determines the clock reading it was made from. */
  lemma KeyRoundTrip(c: Clock)
    requires c.month < 100 && c.day < 100 && c.hour < 100 && c.minute < 100 && c.second < 100
    ensures ParseKey(CurrentKey(c)) == Some(c)
  {
    var y := NumberString(c.year);
    TailRoundTrip(c);
    NumberRoundTrip(c.year);
    var s := CurrentKey(c);
    assert s[..|s| - 15] == y;
    assert s[|s| - 15..] == Tail(c);
  }

  /** Distinct clock readings give distinct labels. */
  lemma KeyInjective(c: Clock, d: Clock)
    requires InRange(c) && InRange(d)
    requires CurrentKey(c) == CurrentKey(d)
    ensures c == d
  {
    KeyRoundTrip(c);
    KeyRoundTrip(d);
  }
}
