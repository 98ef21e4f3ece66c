/**
 * Time-window bounds are written as 12-hour labels such as "9am" or
 * "12pm" and parsed with the `%I%p` format; only the hour of day is kept.
 */
module Clock {
  import opened Wrappers

  /** An hour of the day, 0 (midnight) to 23. */
  type Hour = h: int | 0 <= h < 24

  function DigitValue(c: char): int {
    c as int - '0' as int
  }

  function DigitChar(d: int): char
    requires 0 <= d < 10
  {
    (d + '0' as int) as char
  }

  function LowerAscii(c: char): char {
    if 'A' <= c <= 'Z' then (c as int + 32) as char else c
  }

  /** `%I`: 1 to 12, as one digit or as two digits with an optional leading zero. */
  function ParseClock(s: string): (r: Option<int>)
    ensures r.Some? ==> 1 <= r.value <= 12
  {
    if |s| == 1 && '1' <= s[0] <= '9' then Some(DigitValue(s[0]))
    else if |s| == 2 && s[0] == '0' && '1' <= s[1] <= '9' then Some(DigitValue(s[1]))
    else if |s| == 2 && s[0] == '1' && '0' <= s[1] <= '2' then Some(10 + DigitValue(s[1]))
    else None
  }

  /** `%p`: "am" or "pm" in any letter case; true for "pm". */
  function ParseMeridiem(s: string): Option<bool> {
    if |s| != 2 || LowerAscii(s[1]) != 'm' then None
    else if LowerAscii(s[0]) == 'a' then Some(false)
    else if LowerAscii(s[0]) == 'p' then Some(true)
    else None
  }

  /** A 12-hour reading as an hour of day: 12am is 0, 12pm is 12. */
  function To24(clock: int, pm: bool): Hour
    requires 1 <= clock <= 12
  {
    clock % 12 + if pm then 12 else 0
  }

  /** `strptime(label, "%I%p").time()`, keeping the hour; None where strptime raises. */
  function ParseHourLabel(s: string): Option<Hour> {
    if |s| < 3 then None
    else
      match (ParseClock(s[..|s| - 2]), ParseMeridiem(s[|s| - 2..]))
      case (Some(c), Some(pm)) => Some(To24(c, pm))
      case _ => None
  }

  /** The digits `%I` reads most simply: no leading zero. */
  function ClockDigits(clock: int): string
    requires 1 <= clock <= 12
  {
    if clock < 10 then [DigitChar(clock)] else ['1', DigitChar(clock - 10)]
  }

  /** The canonical label of an hour: no leading zero, lower case. */
  function HourLabel(h: Hour): string {
    var clock := if h % 12 == 0 then 12 else h % 12;
    ClockDigits(clock) + if h < 12 then "am" else "pm"
  }

  function Lower(s: string): (r: string)
    ensures |r| == |s| && forall i :: 0 <= i < |s| ==> r[i] == LowerAscii(s[i])
  {
    seq(|s|, i requires 0 <= i < |s| => LowerAscii(s[i]))
  }

  /** The spelling a label has once lower-cased and stripped of a leading zero. */
  function Canonical(s: string): string {
    var low := Lower(s);
    if |low| == 4 && low[0] == '0' then low[1..] else low
  }

  /** Every hour has a label that parses back to it. */
  lemma LabelRoundTrip(h: Hour)
    ensures ParseHourLabel(HourLabel(h)) == Some(h)
  {
    var s := HourLabel(h);
    var clock := if h % 12 == 0 then 12 else h % 12;
    assert s[..|s| - 2] == ClockDigits(clock);
    assert s[|s| - 2..] == if h < 12 then "am" else "pm";
    DigitsParse(clock);
    assert ParseMeridiem(s[|s| - 2..]) == Some(h >= 12);
    assert To24(clock, h >= 12) == h;
  }

  lemma DigitsParse(clock: int)
    requires 1 <= clock <= 12
    ensures ParseClock(ClockDigits(clock)) == Some(clock)
  {
  }

  lemma LowerAppend(a: string, b: string)
    ensures Lower(a + b) == Lower(a) + Lower(b)
  {
  }

  lemma MeridiemLower(mer: string, pm: bool)
    requires ParseMeridiem(mer) == Some(pm)
    ensures Lower(mer) == if pm then "pm" else "am"
  {
    assert Lower(mer) == [LowerAscii(mer[0]), LowerAscii(mer[1])];
  }

  lemma ClockLower(digits: string, c: int)
    requires ParseClock(digits) == Some(c)
    ensures Lower(digits) == digits
    ensures ClockDigits(c) == if |digits| == 2 && digits[0] == '0' then digits[1..] else digits
  {
    if |digits| == 1 {
      assert Lower(digits) == [digits[0]];
    } else {
      assert Lower(digits) == [digits[0], digits[1]];
    }
  }

  /** The 24-hour reading keeps the clock digit and tells the meridiem by its half of the day. */
  lemma To24Reading(c: int, pm: bool)
    requires 1 <= c <= 12
    ensures var h := To24(c, pm); (if h % 12 == 0 then 12 else h % 12) == c && (h < 12 <==> !pm)
  {
    var m := c % 12;
    assert m == if c == 12 then 0 else c;
    var h := To24(c, pm);
    assert h == m + if pm then 12 else 0;
    assert h % 12 == m;
  }

  /** Parsing loses nothing but letter case and a leading zero. */
  lemma ParsedLabelIsCanonical(s: string, h: Hour)
    requires ParseHourLabel(s) == Some(h)
    ensures HourLabel(h) == Canonical(s)
  {
    var digits, mer := s[..|s| - 2], s[|s| - 2..];
    assert s == digits + mer;
    var c := ParseClock(digits).value;
    var pm := ParseMeridiem(mer).value;
    LowerAppend(digits, mer);
    MeridiemLower(mer, pm);
    ClockLower(digits, c);
    var tail := if pm then "pm" else "am";
    To24Reading(c, pm);
    assert HourLabel(h) == ClockDigits(c) + tail;
    if |digits| == 2 && digits[0] == '0' {
      assert Lower(s)[1..] == digits[1..] + tail;
    }
  }

  /** Lower-casing leaves a character a digit only if it already was that digit. */
  lemma LowerDigit(c: char)
    requires '0' <= LowerAscii(c) <= '9'
    ensures c == LowerAscii(c)
  {
  }

  /** The digits of s whose lower-cased form is the clock's digits, with or without a leading zero. */
  lemma DigitsFromLower(digits: string, clock: int)
    requires 1 <= clock <= 12
    requires Lower(digits) == ClockDigits(clock) || (clock < 10 && Lower(digits) == ['0'] + ClockDigits(clock))
    ensures ParseClock(digits) == Some(clock)
  {
    forall i | 0 <= i < |digits|
      ensures digits[i] == Lower(digits)[i]
    {
      LowerDigit(digits[i]);
    }
    assert digits == Lower(digits);
    DigitsParse(clock);
  }

  /**
   * The converse of ParsedLabelIsCanonical: every spelling of an hour's
   * label in any letter case, with or without a leading zero, parses to
   * that hour.
   */
  lemma CanonicalLabelParses(s: string, h: Hour)
    requires Canonical(s) == HourLabel(h)
    ensures ParseHourLabel(s) == Some(h)
  {
    var clock := if h % 12 == 0 then 12 else h % 12;
    var tail := if h < 12 then "am" else "pm";
    assert HourLabel(h) == ClockDigits(clock) + tail;
    LabelSplit(s, clock, tail);
    var digits, mer := s[..|s| - 2], s[|s| - 2..];
    DigitsFromLower(digits, clock);
    MeridiemFromLower(mer, h >= 12);
    To24OfHour(h);
    LabelFromParts(s, clock, h >= 12);
  }

  /** A label whose canonical form is some clock digits and a meridiem splits into those two parts. */
  lemma LabelSplit(s: string, clock: int, tail: string)
    requires 1 <= clock <= 12 && |tail| == 2
    requires Canonical(s) == ClockDigits(clock) + tail
    ensures |s| >= 3 && Lower(s[|s| - 2..]) == tail
    ensures Lower(s[..|s| - 2]) == ClockDigits(clock) || (clock < 10 && Lower(s[..|s| - 2]) == ['0'] + ClockDigits(clock))
  {
    var low, target := Lower(s), ClockDigits(clock) + tail;
    var n := |s|;
    assert |target| >= 3;
    LowerSlice(s, n - 2, n);
    LowerSlice(s, 0, n - 2);
    if |low| == 4 && low[0] == '0' {
      assert low[1..] == target;
      assert low[n - 2..] == target[|target| - 2..] && low[..n - 2] == ['0'] + target[..|target| - 2];
    } else {
      assert low == target;
      assert low[n - 2..] == target[|target| - 2..] && low[..n - 2] == target[..|target| - 2];
    }
  }

  lemma LowerSlice(s: string, a: nat, b: nat)
    requires a <= b <= |s|
    ensures Lower(s[a..b]) == Lower(s)[a..b]
  {
  }

  lemma MeridiemFromLower(mer: string, pm: bool)
    requires Lower(mer) == if pm then "pm" else "am"
    ensures ParseMeridiem(mer) == Some(pm)
  {
    assert LowerAscii(mer[0]) == Lower(mer)[0] && LowerAscii(mer[1]) == Lower(mer)[1];
  }

  lemma LabelFromParts(s: string, c: int, pm: bool)
    requires |s| >= 3 && 1 <= c <= 12
    requires ParseClock(s[..|s| - 2]) == Some(c) && ParseMeridiem(s[|s| - 2..]) == Some(pm)
    ensures ParseHourLabel(s) == Some(To24(c, pm))
  {
  }

  /** An hour is read back from its clock digit and its half of the day. */
  lemma To24OfHour(h: Hour)
    ensures var c := if h % 12 == 0 then 12 else h % 12; 1 <= c <= 12 && To24(c, h >= 12) == h
  {
    if h < 12 {
      assert h % 12 == h;
    } else {
      assert h % 12 == h - 12;
    }
  }
}
