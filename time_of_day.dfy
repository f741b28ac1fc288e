/**
 * Wall-clock times of day written "HH:mm" and their value in minutes since
 * midnight (the helper timeToMinutes of the booking validator).
 */
module TimeOfDay {
  import opened Wrappers

  const MinutesPerDay: nat := 1440

  predicate IsDigit(c: char) {
    '0' <= c <= '9'
  }

  function DigitValue(c: char): (d: nat)
    requires IsDigit(c)
    ensures d < 10
  {
    c as int - '0' as int
  }

  function DigitChar(d: nat): (c: char)
    requires d < 10
    ensures IsDigit(c) && DigitValue(c) == d
  {
    ('0' as int + d) as char
  }

  /** Whether `s` is a two-digit hour, a colon and a two-digit minute (leading digits only). */
  predicate HasClockShape(s: string) {
    |s| == 5 && IsDigit(s[0]) && IsDigit(s[1]) && s[2] == ':' && IsDigit(s[3]) && IsDigit(s[4])
  }

  /** The number written before the colon. */
  function Hours(s: string): (h: nat)
    requires HasClockShape(s)
  {
    DigitValue(s[0]) * 10 + DigitValue(s[1])
  }

  /** The number written after the colon. */
  function Minutes(s: string): (m: nat)
    requires HasClockShape(s)
  {
    DigitValue(s[3]) * 10 + DigitValue(s[4])
  }

  /** A valid 24-hour "HH:mm" time: 00 <= HH <= 23 and 00 <= mm <= 59. */
  predicate IsClockTime(s: string) {
    HasClockShape(s) && Hours(s) <= 23 && Minutes(s) <= 59
  }

  /**
   * Minutes since midnight of an "HH:mm" time; None for a string that is not
   * a valid 24-hour time. The hour and minute of the time can be read back
   * from the result.
   */
  function TimeToMinutes(s: string): (r: Option<nat>)
    ensures r.Some? <==> IsClockTime(s)
    ensures r.Some? ==> r.value < MinutesPerDay && r.value / 60 == Hours(s) && r.value % 60 == Minutes(s)
  {
    if IsClockTime(s) then Some(Hours(s) * 60 + Minutes(s)) else None
  }

  /** The "HH:mm" spelling of a minute of the day (the inverse of TimeToMinutes). */
  function FormatTime(m: nat): (s: string)
    requires m < MinutesPerDay
    ensures IsClockTime(s)
  {
    var h, mm := m / 60, m % 60;
    [DigitChar(h / 10), DigitChar(h % 10), ':', DigitChar(mm / 10), DigitChar(mm % 10)]
  }

  /** An "HH:mm" time with hour HH and minute mm is HH * 60 + mm minutes after midnight. */
  lemma ClockFieldsToMinutes(hh: nat, mm: nat)
    requires hh <= 23 && mm <= 59
    ensures TimeToMinutes([DigitChar(hh / 10), DigitChar(hh % 10), ':', DigitChar(mm / 10), DigitChar(mm % 10)])
            == Some(hh * 60 + mm)
  {
    var s := [DigitChar(hh / 10), DigitChar(hh % 10), ':', DigitChar(mm / 10), DigitChar(mm % 10)];
    assert Hours(s) == hh;
    assert Minutes(s) == mm;
  }

  /** Formatting a minute of the day and reading it back gives that minute. */
  lemma FormatThenParse(m: nat)
    requires m < MinutesPerDay
    ensures TimeToMinutes(FormatTime(m)) == Some(m)
  {
    ClockFieldsToMinutes(m / 60, m % 60);
  }

  /** Reading a valid time and formatting it back gives the same string. */
  lemma ParseThenFormat(s: string)
    requires IsClockTime(s)
    ensures TimeToMinutes(s).Some? && FormatTime(TimeToMinutes(s).value) == s
  {
    var m := TimeToMinutes(s).value;
    var t := FormatTime(m);
    assert t[0] == s[0] && t[1] == s[1] && t[3] == s[3] && t[4] == s[4];
  }
}
