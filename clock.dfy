/** Times of day as whole minutes since midnight, and the zero-padded "HH:MM" strings that
    the booking pages show, store and compare. The pages build `Date` values on the fixed
    day 2000-01-01 and only ever compare them or add minutes to them, so minutes since
    midnight carry the same information. */
module Clock {
  import opened Wrappers
  import Lex

  const MinutesPerHour := 60
  const MinutesPerDay := 1440

  predicate IsDigit(c: char) {
    '0' <= c <= '9'
  }

  function DigitChar(d: nat): (c: char)
    requires d < 10
    ensures IsDigit(c)
  {
    ('0' as int + d) as char
  }

  function DigitValue(c: char): nat
    requires IsDigit(c)
  {
    c as int - '0' as int
  }

  /** Two decimal digits with a leading zero, as the `'2-digit'` option prints hours and minutes. */
  function Pad2(n: nat): (s: string)
    requires n < 100
    ensures |s| == 2 && IsDigit(s[0]) && IsDigit(s[1])
    ensures DigitValue(s[0]) * 10 + DigitValue(s[1]) == n
  {
    [DigitChar(n / 10), DigitChar(n % 10)]
  }

  /** The time of day `m` as `toLocaleTimeString('en-GB', {hour: '2-digit', minute: '2-digit'})`
      renders it: 24-hour clock, both fields zero-padded. */
  function Format(m: nat): (s: string)
    requires m < MinutesPerDay
    ensures |s| == 5 && s[2] == ':'
    ensures IsDigit(s[0]) && IsDigit(s[1]) && IsDigit(s[3]) && IsDigit(s[4])
  {
    Pad2(m / MinutesPerHour) + ":" + Pad2(m % MinutesPerHour)
  }

  /** The time that `new Date("2000-01-01T" + s)` denotes, in minutes after midnight of that
      day, or None where the result is an invalid date. "24:00" is the end of the day. */
  function ParseTime(s: string): (r: Option<nat>)
    ensures r.Some? ==> r.value <= MinutesPerDay
  {
    if |s| == 5 && s[2] == ':' && IsDigit(s[0]) && IsDigit(s[1]) && IsDigit(s[3]) && IsDigit(s[4]) then
      var h := DigitValue(s[0]) * 10 + DigitValue(s[1]);
      var mm := DigitValue(s[3]) * 10 + DigitValue(s[4]);
      if h < 24 && mm < MinutesPerHour then Some(h * MinutesPerHour + mm)
      else if h == 24 && mm == 0 then Some(MinutesPerDay)
      else None
    else None
  }

  /** Reading back a formatted time gives the time itself. */
  lemma ParseFormat(m: nat)
    requires m < MinutesPerDay
    ensures ParseTime(Format(m)) == Some(m)
  {
    var s := Format(m);
    assert s[..2] == Pad2(m / MinutesPerHour);
    assert s[3..] == Pad2(m % MinutesPerHour);
  }

  /** Every string that reads as a time before midnight is the formatted form of that time:
      "HH:MM" strings and minutes correspond one to one. */
  lemma FormatParse(s: string, m: nat)
    requires ParseTime(s) == Some(m) && m < MinutesPerDay
    ensures Format(m) == s
  {
    var h := DigitValue(s[0]) * 10 + DigitValue(s[1]);
    var mm := DigitValue(s[3]) * 10 + DigitValue(s[4]);
    assert h < 24 && m == h * MinutesPerHour + mm;
    assert m / MinutesPerHour == h && m % MinutesPerHour == mm;
    var f := Format(m);
    assert f[0] == s[0] && f[1] == s[1] && f[3] == s[3] && f[4] == s[4];
  }

  lemma FormatInjective(m1: nat, m2: nat)
    requires m1 < MinutesPerDay && m2 < MinutesPerDay && Format(m1) == Format(m2)
    ensures m1 == m2
  {
    ParseFormat(m1);
    ParseFormat(m2);
  }

  lemma Pad2Order(a: nat, b: nat)
    requires a < b < 100
    ensures Lex.Less(Pad2(a), Pad2(b))
  {
    if a / 10 == b / 10 {
      assert Pad2(a)[1..] == [DigitChar(a % 10)];
      assert Pad2(b)[1..] == [DigitChar(b % 10)];
    }
  }

  /** Earlier times format to strings that sort earlier, so the slot strings can be
      compared and ordered as text. */
  lemma FormatOrder(m1: nat, m2: nat)
    requires m1 < m2 < MinutesPerDay
    ensures Lex.Less(Format(m1), Format(m2))
  {
    var h1, h2 := m1 / MinutesPerHour, m2 / MinutesPerHour;
    var tail1 := ":" + Pad2(m1 % MinutesPerHour);
    var tail2 := ":" + Pad2(m2 % MinutesPerHour);
    assert Format(m1) == Pad2(h1) + tail1 && Format(m2) == Pad2(h2) + tail2;
    if h1 < h2 {
      Pad2Order(h1, h2);
      Lex.ExtendBoth(Pad2(h1), Pad2(h2), tail1, tail2);
    } else {
      assert h1 == h2;
      Pad2Order(m1 % MinutesPerHour, m2 % MinutesPerHour);
      Lex.CommonPrefix(":", Pad2(m1 % MinutesPerHour), Pad2(m2 % MinutesPerHour));
      Lex.CommonPrefix(Pad2(h1), tail1, tail2);
    }
  }
}
