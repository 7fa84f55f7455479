/** The request timestamp: a wall-clock reading formatted with
    `strftime("%Y%m%d_%H%M%S")`. The clock itself is not modelled; a reading is
    a value passed in. The format has second resolution, so two readings within
    the same second format identically and readings in different seconds do not. */
module Timestamp {

  /** A `datetime` reading. Only the year range and the field ranges are kept;
      calendar validity of the day is not needed by anything below. */
  datatype DateTime = DateTime(year: int, month: int, day: int,
                               hour: int, minute: int, second: int, microsecond: int)
  {
    predicate Valid()
    {
      && 1000 <= year <= 9999 && 1 <= month <= 12 && 1 <= day <= 31
      && 0 <= hour <= 23 && 0 <= minute <= 59 && 0 <= second <= 59
      && 0 <= microsecond <= 999999
    }
  }

  /** Two readings that fall in the same second. */
  predicate SameSecond(t: DateTime, u: DateTime)
  {
    t.year == u.year && t.month == u.month && t.day == u.day
    && t.hour == u.hour && t.minute == u.minute && t.second == u.second
  }

  function Pow10(w: nat): (p: nat)
    ensures p >= 1
  {
    if w == 0 then 1 else 10 * Pow10(w - 1)
  }

  predicate IsDigit(c: char)
  {
    '0' <= c <= '9'
  }

  /** `n` written in decimal, zero-padded to `w` digits (`%04d`, `%02d`). */
  function Pad(n: nat, w: nat): (s: string)
    requires n < Pow10(w)
    ensures |s| == w
    ensures forall i :: 0 <= i < |s| ==> IsDigit(s[i])
  {
    if w == 0 then []
    else Pad(n / 10, w - 1) + [(48 + n % 10) as char]
  }

  /** The value of a string of decimal digits. */
  function DigitsValue(s: string): nat
    requires forall i :: 0 <= i < |s| ==> IsDigit(s[i])
  {
    if s == [] then 0
    else
      assert IsDigit(s[|s| - 1]);
      DigitsValue(s[..|s| - 1]) * 10 + (s[|s| - 1] as int - 48)
  }

  /** Reading back a padded number gives the number. */
  lemma {:induction false} PadRoundTrip(n: nat, w: nat)
    requires n < Pow10(w)
    ensures DigitsValue(Pad(n, w)) == n
  {
    if w > 0 {
      PadRoundTrip(n / 10, w - 1);
      var s := Pad(n, w);
      assert s[..|s| - 1] == Pad(n / 10, w - 1);
    }
  }

  /** `t.strftime("%Y%m%d_%H%M%S")` */
  function Format(t: DateTime): (s: string)
    requires t.Valid()
    ensures |s| == 15 && s[8] == '_'
    ensures forall i :: 0 <= i < |s| && i != 8 ==> IsDigit(s[i])
  {
    Pad(t.year, 4) + Pad(t.month, 2) + Pad(t.day, 2) + "_"
      + Pad(t.hour, 2) + Pad(t.minute, 2) + Pad(t.second, 2)
  }

  /** The formatted timestamp has neither a dot nor a slash, so it can neither
      shift the extension split nor add a path component. */
  lemma FormatHasNoSeparators(t: DateTime)
    requires t.Valid()
    ensures '.' !in Format(t) && '/' !in Format(t)
  {
  }

  /** Each group of digits holds its own field, in the order `%Y%m%d_%H%M%S`. */
  lemma FormatFields(t: DateTime)
    requires t.Valid()
    ensures var s := Format(t);
      && DigitsValue(s[0..4]) == t.year && DigitsValue(s[4..6]) == t.month
      && DigitsValue(s[6..8]) == t.day && DigitsValue(s[9..11]) == t.hour
      && DigitsValue(s[11..13]) == t.minute && DigitsValue(s[13..15]) == t.second
  {
    var s := Format(t);
    var year, month, day := Pad(t.year, 4), Pad(t.month, 2), Pad(t.day, 2);
    var hour, minute, second := Pad(t.hour, 2), Pad(t.minute, 2), Pad(t.second, 2);
    var date := year + month + day;
    var time := hour + minute + second;
    assert s == date + "_" + time;
    assert s[0..8] == date && s[9..15] == time;
    assert date[0..4] == year && date[4..6] == month && date[6..8] == day;
    assert time[0..2] == hour && time[2..4] == minute && time[4..6] == second;
    assert s[0..4] == year && s[4..6] == month && s[6..8] == day;
    assert s[9..11] == hour && s[11..13] == minute && s[13..15] == second;
    PadRoundTrip(t.year, 4);
    PadRoundTrip(t.month, 2);
    PadRoundTrip(t.day, 2);
    PadRoundTrip(t.hour, 2);
    PadRoundTrip(t.minute, 2);
    PadRoundTrip(t.second, 2);
  }

  /** Second resolution, both ways: two readings format identically exactly
      when they fall in the same second; microseconds are discarded. */
  lemma FormatAtSecondResolution(t: DateTime, u: DateTime)
    requires t.Valid() && u.Valid()
    ensures Format(t) == Format(u) <==> SameSecond(t, u)
  {
    if Format(t) == Format(u) {
      FormatFields(t);
      FormatFields(u);
    }
  }
}
