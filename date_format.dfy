/** `dateToStr` and its local `pad` (src/Todo.js:451-469): the registration
    date of a note, printed as `YYYY-MM-DD HH:MM:SS`. The clock is not read
    here; the caller passes the fields a JavaScript `Date` reports. */
module DateFormat {
  import opened Wrappers

  /** The fields read from a `Date`: `getFullYear`, `getMonth` (0-based, so
      January is 0), `getDate`, `getHours`, `getMinutes`, `getSeconds`. */
  datatype DateTime = DateTime(year: nat, month: nat, day: nat, hours: nat, minutes: nat, seconds: nat)

  predicate IsDigit(c: char)
  {
    '0' <= c <= '9'
  }

  predicate AllDigits(s: string)
  {
    forall k :: 0 <= k < |s| ==> IsDigit(s[k])
  }

  function DigitChar(d: nat): (c: char)
    requires d < 10
    ensures IsDigit(c) && c as int - '0' as int == d
  {
    ('0' as int + d) as char
  }

  /** The value of a string of decimal digits. */
  function DigitsValue(s: string): nat
    requires AllDigits(s)
  {
    if s == [] then 0
    else DigitsValue(s[..|s| - 1]) * 10 + (s[|s| - 1] as int - '0' as int)
  }

  /** JavaScript's conversion of a non-negative integer to a string: decimal
      digits, at least one, with no leading zero unless the number is 0. */
  function NatToString(n: nat): (r: string)
    ensures |r| >= 1 && AllDigits(r)
    ensures r[0] == '0' ==> n == 0
    ensures n < 10 <==> |r| == 1
    decreases n
  {
    if n < 10 then [DigitChar(n)] else NatToString(n / 10) + [DigitChar(n % 10)]
  }

  /** Reading the digits back gives the number. */
  lemma {:induction false} NatToStringRoundTrip(n: nat)
    ensures DigitsValue(NatToString(n)) == n
    decreases n
  {
    var r := NatToString(n);
    if n >= 10 {
      NatToStringRoundTrip(n / 10);
      assert r[..|r| - 1] == NatToString(n / 10);
    }
  }

  /** `pad`: values below 10 get one leading "0"; others print unchanged. */
  function Pad(n: nat): (r: string)
    ensures AllDigits(r) && |r| >= 2
    ensures n < 100 ==> |r| == 2
    ensures n < 10 ==> r[0] == '0'
  {
    if n < 10 then "0" + NatToString(n) else NatToString(n)
  }

  /** A padded value is at least two digits long and reads back as the value;
      below 100 it is exactly the tens digit followed by the units digit. */
  lemma PadDigits(n: nat)
    ensures AllDigits(Pad(n)) && |Pad(n)| >= 2
    ensures DigitsValue(Pad(n)) == n
    ensures n < 100 ==> Pad(n) == [DigitChar(n / 10), DigitChar(n % 10)]
  {
    NatToStringRoundTrip(n);
    if n < 10 {
      assert Pad(n)[..1] == "0";
    } else if n < 100 {
      assert NatToString(n / 10) == [DigitChar(n / 10)];
    }
  }

  /** `dateToStr(d)`: the year unpadded, then month + 1, day, hours, minutes
      and seconds, each padded, separated by "-", "-", " ", ":", ":". The
      five fields after the year take at least two characters each, and
      exactly two each for the fields a clock reports. */
  function DateToStr(d: DateTime): (r: string)
    ensures |r| >= |NatToString(d.year)| + 15
    ensures CalendarFields(d) ==> |r| == |NatToString(d.year)| + 15
  {
    NatToString(d.year) + "-" + Pad(d.month + 1) + "-" + Pad(d.day) + " "
    + Pad(d.hours) + ":" + Pad(d.minutes) + ":" + Pad(d.seconds)
  }

  /** The fields a `Date` can report: each padded field then has two digits. */
  predicate CalendarFields(d: DateTime)
  {
    d.month < 12 && 1 <= d.day <= 31 && d.hours < 24 && d.minutes < 60 && d.seconds < 60
  }

  /** Two decimal digits at position `at` of `s`. */
  predicate TwoDigitsAt(s: string, at: nat)
  {
    at + 2 <= |s| && IsDigit(s[at]) && IsDigit(s[at + 1])
  }

  function TwoDigitsValue(s: string, at: nat): (v: nat)
    requires TwoDigitsAt(s, at)
    ensures v < 100
  {
    (s[at] as int - '0' as int) * 10 + (s[at + 1] as int - '0' as int)
  }

  /** Reads a `YYYY-MM-DD HH:MM:SS` string back into the fields it was printed
      from (the printed month is 1-based); `None` for anything else. */
  function ParseDateStr(s: string): Option<DateTime>
  {
    if |s| < 16 then None
    else
      var n := |s| - 15;
      if AllDigits(s[..n]) && s[n] == '-' && s[n + 3] == '-' && s[n + 6] == ' '
         && s[n + 9] == ':' && s[n + 12] == ':'
         && TwoDigitsAt(s, n + 1) && TwoDigitsAt(s, n + 4) && TwoDigitsAt(s, n + 7)
         && TwoDigitsAt(s, n + 10) && TwoDigitsAt(s, n + 13)
         && TwoDigitsValue(s, n + 1) >= 1
      then
        Some(DateTime(DigitsValue(s[..n]), TwoDigitsValue(s, n + 1) - 1, TwoDigitsValue(s, n + 4),
                      TwoDigitsValue(s, n + 7), TwoDigitsValue(s, n + 10), TwoDigitsValue(s, n + 13)))
      else None
  }

  /** A value below 100 printed by `Pad` is two digits that read back as it. */
  lemma PadReadsBack(v: nat)
    requires v < 100
    ensures TwoDigitsAt(Pad(v), 0) && TwoDigitsValue(Pad(v), 0) == v
  {
    PadDigits(v);
  }

  /** Two digits copied to position `at` of `s` read back the same there. */
  lemma FieldAt(s: string, at: nat, f: string)
    requires at + 2 <= |s| && s[at..at + 2] == f && TwoDigitsAt(f, 0)
    ensures TwoDigitsAt(s, at) && TwoDigitsValue(s, at) == TwoDigitsValue(f, 0)
  {
    assert s[at] == f[0] && s[at + 1] == f[1];
  }

  /** `s` is the year `y` followed by five two-character fields at fixed
      offsets, with the separators of `DateToStr` between them. */
  predicate Layout(s: string, y: string, mo: string, dd: string, hh: string, mi: string, ss: string)
  {
    var n := |y|;
    && |s| == n + 15 && s[..n] == y
    && s[n] == '-' && s[n + 3] == '-' && s[n + 6] == ' ' && s[n + 9] == ':' && s[n + 12] == ':'
    && s[n + 1..n + 3] == mo && s[n + 4..n + 6] == dd && s[n + 7..n + 9] == hh
    && s[n + 10..n + 12] == mi && s[n + 13..n + 15] == ss
  }

  /** Joining a year and five two-character fields with the separators of
      `DateToStr` puts each field at its fixed offset. */
  lemma {:induction false} JoinedLayout(s: string, y: string, mo: string, dd: string, hh: string, mi: string, ss: string)
    requires |mo| == 2 && |dd| == 2 && |hh| == 2 && |mi| == 2 && |ss| == 2
    requires s == y + "-" + mo + "-" + dd + " " + hh + ":" + mi + ":" + ss
    ensures Layout(s, y, mo, dd, hh, mi, ss)
  {
  }

  /** Where each printed field sits: the year first, then fifteen characters
      of separators and two-character padded fields. */
  lemma DateToStrLayout(d: DateTime)
    requires CalendarFields(d)
    ensures Layout(DateToStr(d), NatToString(d.year), Pad(d.month + 1), Pad(d.day), Pad(d.hours), Pad(d.minutes), Pad(d.seconds))
  {
    JoinedLayout(DateToStr(d), NatToString(d.year), Pad(d.month + 1), Pad(d.day), Pad(d.hours), Pad(d.minutes), Pad(d.seconds));
  }

  /** A string laid out as a year and five two-digit fields parses back into
      the date whose year is the year's value and whose fields are the two-digit
      values, the month printed 1-based. */
  lemma ParseLaidOut(s: string, y: string, mo: string, dd: string, hh: string, mi: string, ss: string, d: DateTime)
    requires Layout(s, y, mo, dd, hh, mi, ss)
    requires |y| >= 1 && AllDigits(y) && DigitsValue(y) == d.year
    requires TwoDigitsAt(mo, 0) && TwoDigitsValue(mo, 0) == d.month + 1
    requires TwoDigitsAt(dd, 0) && TwoDigitsValue(dd, 0) == d.day
    requires TwoDigitsAt(hh, 0) && TwoDigitsValue(hh, 0) == d.hours
    requires TwoDigitsAt(mi, 0) && TwoDigitsValue(mi, 0) == d.minutes
    requires TwoDigitsAt(ss, 0) && TwoDigitsValue(ss, 0) == d.seconds
    ensures ParseDateStr(s) == Some(d)
  {
    var n := |y|;
    FieldAt(s, n + 1, mo);
    FieldAt(s, n + 4, dd);
    FieldAt(s, n + 7, hh);
    FieldAt(s, n + 10, mi);
    FieldAt(s, n + 13, ss);
  }

  /** For every date a clock can report, the printed registration date has the
      fixed `Y-MM-DD HH:MM:SS` layout (fifteen characters after the year) and
      every field can be read back from it. */
  lemma DateToStrRoundTrip(d: DateTime)
    requires CalendarFields(d)
    ensures |DateToStr(d)| == |NatToString(d.year)| + 15
    ensures ParseDateStr(DateToStr(d)) == Some(d)
  {
    DateToStrLayout(d);
    NatToStringRoundTrip(d.year);
    PadReadsBack(d.month + 1);
    PadReadsBack(d.day);
    PadReadsBack(d.hours);
    PadReadsBack(d.minutes);
    PadReadsBack(d.seconds);
    ParseLaidOut(DateToStr(d), NatToString(d.year), Pad(d.month + 1), Pad(d.day), Pad(d.hours), Pad(d.minutes), Pad(d.seconds), d);
  }
}
