/**
 * The `HH:MM` captures of a log entry and the elapsed-time arithmetic done on
 * them: each capture is split on `:`, both halves are read as decimal
 * integers, and the elapsed time is end minus start in minutes, with no
 * clamping and no wrap past midnight. Hours are minutes divided by 60.
 */
module Clock {

  predicate IsDigit(c: char) { '0' <= c <= '9' }

  function DigitValue(c: char): (d: nat)
    requires IsDigit(c)
    ensures d < 10
  {
    c as int - '0' as int
  }

  predicate AllDigits(s: string) { forall i :: 0 <= i < |s| ==> IsDigit(s[i]) }

  /** The shape `\d{2}:\d{2}` that the default pattern requires of `start` and `end`. */
  predicate IsClockText(s: string)
  {
    |s| == 5 && AllDigits(s[..2]) && s[2] == ':' && AllDigits(s[3..])
  }

  type ClockText = s: string | IsClockText(s) witness "00:00"

  function Pow10(n: nat): (p: nat)
    ensures p >= 1
  {
    if n == 0 then 1 else 10 * Pow10(n - 1)
  }

  /** `parseInt` on a string of decimal digits (most significant first). */
  function ParseDecimal(ds: string): (n: nat)
    requires AllDigits(ds)
    ensures n < Pow10(|ds|)
  {
    if ds == [] then 0
    else 10 * ParseDecimal(ds[..|ds| - 1]) + DigitValue(ds[|ds| - 1])
  }

  /** `n` written with exactly `width` decimal digits, zero-padded on the left. */
  function Padded(n: nat, width: nat): (ds: string)
    requires n < Pow10(width)
    ensures |ds| == width && AllDigits(ds)
  {
    if width == 0 then []
    else Padded(n / 10, width - 1) + [('0' as int + n % 10) as char]
  }

  lemma {:induction false} ParsePadded(n: nat, width: nat)
    requires n < Pow10(width)
    ensures ParseDecimal(Padded(n, width)) == n
  {
    if width > 0 {
      var ds := Padded(n, width);
      assert ds[..|ds| - 1] == Padded(n / 10, width - 1);
      ParsePadded(n / 10, width - 1);
    }
  }

  lemma DivMod10(a: nat, d: nat)
    requires d < 10
    ensures (10 * a + d) / 10 == a && (10 * a + d) % 10 == d
  {
  }

  lemma {:induction false} PaddedParse(ds: string)
    requires AllDigits(ds)
    ensures Padded(ParseDecimal(ds), |ds|) == ds
  {
    if ds != [] {
      var init, last := ds[..|ds| - 1], ds[|ds| - 1];
      PaddedParse(init);
      var n := ParseDecimal(ds);
      DivMod10(ParseDecimal(init), DigitValue(last));
      assert ('0' as int + n % 10) as char == last;
      assert ds == init + [last];
    }
  }

  lemma TwoDigits(ds: string)
    requires |ds| == 2 && AllDigits(ds)
    ensures ParseDecimal(ds) == DigitValue(ds[0]) * 10 + DigitValue(ds[1])
  {
    assert ds[..1][..0] == [];
  }

  /** `s.split(":")` followed by `parseInt` on both halves: the hour and the minute. */
  function ParseClock(s: ClockText): (hm: (nat, nat))
    ensures hm.0 < 100 && hm.1 < 100
  {
    (ParseDecimal(s[..2]), ParseDecimal(s[3..]))
  }

  /** The `HH:MM` text of an hour and a minute below 100. */
  function FormatClock(h: nat, m: nat): (s: ClockText)
    requires h < 100 && m < 100
  {
    var s := Padded(h, 2) + ":" + Padded(m, 2);
    assert s[..2] == Padded(h, 2) && s[3..] == Padded(m, 2);
    s
  }

  /** Reading a clock text and writing it back gives the same text. */
  lemma ParseThenFormat(s: ClockText)
    ensures FormatClock(ParseClock(s).0, ParseClock(s).1) == s
  {
    PaddedParse(s[..2]);
    PaddedParse(s[3..]);
    assert s == s[..2] + ":" + s[3..];
  }

  /** Writing an hour and a minute and reading them back gives the same pair. */
  lemma FormatThenParse(h: nat, m: nat)
    requires h < 100 && m < 100
    ensures ParseClock(FormatClock(h, m)) == (h, m)
  {
    var s := FormatClock(h, m);
    assert s[..2] == Padded(h, 2) && s[3..] == Padded(m, 2);
    ParsePadded(h, 2);
    ParsePadded(m, 2);
  }

  /** Minutes since the start of the day: `parseInt(hh) * 60 + parseInt(mm)`. */
  function Minutes(s: ClockText): nat
  {
    var (h, m) := ParseClock(s);
    h * 60 + m
  }

  /** Elapsed minutes from `start` to `end`: can be negative, never wrapped. */
  function Elapsed(start: ClockText, end: ClockText): int
  {
    Minutes(end) - Minutes(start)
  }

  /** The entry's `elapsed / 60`, as an exact real number of hours. */
  function Hours(minutes: int): (h: real)
    ensures h * 60.0 == minutes as real
  {
    minutes as real / 60.0
  }

  /** A valid time of day: hour below 24 and minute below 60. */
  predicate IsTimeOfDay(s: ClockText)
  {
    ParseClock(s).0 < 24 && ParseClock(s).1 < 60
  }

  /**
   * No wrap past midnight: for two times of day the elapsed time is negative
   * exactly when the end comes earlier in the day than the start, and it
   * never reaches a full day either way.
   */
  lemma NoDayWrap(start: ClockText, end: ClockText)
    requires IsTimeOfDay(start) && IsTimeOfDay(end)
    ensures Elapsed(start, end) < 0 <==>
      ParseClock(end).0 < ParseClock(start).0 ||
      (ParseClock(end).0 == ParseClock(start).0 && ParseClock(end).1 < ParseClock(start).1)
    ensures -1440 < Elapsed(start, end) < 1440
  {
    var (sh, sm) := ParseClock(start);
    var (eh, em) := ParseClock(end);
    if eh < sh {
      assert eh * 60 + em <= (sh - 1) * 60 + 59;
    } else if sh < eh {
      assert sh * 60 + sm <= (eh - 1) * 60 + 59;
    }
  }

  /** 09:00 to 10:30 is 90 minutes, 1.5 hours; 23:00 to 01:00 is -1320 minutes, -22 hours. */
  lemma ElapsedExamples()
    ensures Elapsed("09:00", "10:30") == 90 && Hours(90) == 1.5
    ensures Elapsed("23:00", "01:00") == -1320 && Hours(-1320) == -22.0
  {
    ClockDigits("09:00");
    ClockDigits("10:30");
    ClockDigits("23:00");
    ClockDigits("01:00");
  }

  /** The hour and minute of a clock text, digit by digit. */
  lemma ClockDigits(s: ClockText)
    ensures ParseClock(s) == (DigitValue(s[0]) * 10 + DigitValue(s[1]), DigitValue(s[3]) * 10 + DigitValue(s[4]))
  {
    TwoDigits(s[..2]);
    TwoDigits(s[3..]);
  }


}
