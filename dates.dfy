/** `mkdate` of the command-line interface, which hands a date string to
    `datetime.strptime` with `%Y-%m-%d` (10 characters) or
    `%Y-%m-%dT%H:%M` (16 characters), and `str(datetime)`, which the
    reshuffle writes into the global attributes. Digits are ASCII. */
module Dates {
  import opened Common
  import opened Text

  /** A naive `datetime` with minute resolution. */
  datatype DateTime = DateTime(year: int, month: int, day: int, hour: int, minute: int)

  /** Why `strptime` raises `ValueError`: the text does not match the
      format (or leaves unconverted characters), or the fields do not
      form a date (`day is out of range for month`, year 0). */
  datatype DateError = NoMatch | OutOfRange

  predicate IsLeap(y: int)
  {
    y % 4 == 0 && (y % 100 != 0 || y % 400 == 0)
  }

  function DaysInMonth(y: int, m: int): int
    requires 1 <= m <= 12
  {
    if m == 2 then (if IsLeap(y) then 29 else 28)
    else if m == 4 || m == 6 || m == 9 || m == 11 then 30
    else 31
  }

  /** What `datetime` accepts: years 1 to 9999 and a real calendar day. */
  predicate Valid(d: DateTime)
  {
    1 <= d.year <= 9999 && 1 <= d.month <= 12 && 1 <= d.day <= DaysInMonth(d.year, d.month) &&
    0 <= d.hour < 24 && 0 <= d.minute < 60
  }

  function DigitAt(s: string, i: nat): int
    requires i < |s|
  {
    s[i] as int - '0' as int
  }

  predicate DigitsAt(s: string, i: nat, n: nat)
  {
    i + n <= |s| && forall k :: i <= k < i + n ==> IsDigit(s[k])
  }

  function TwoAt(s: string, i: nat): int
    requires i + 2 <= |s|
  {
    10 * DigitAt(s, i) + DigitAt(s, i + 1)
  }

  function FourAt(s: string, i: nat): int
    requires i + 4 <= |s|
  {
    100 * TwoAt(s, i) + TwoAt(s, i + 2)
  }

  /** The two-character alternatives of `strptime`'s patterns; at the two
      lengths `mkdate` accepts, the one-character alternatives always leave
      characters over. `%m`: 01 to 12. */
  predicate MonthAt(s: string, i: nat)
  {
    DigitsAt(s, i, 2) && 1 <= TwoAt(s, i) <= 12
  }

  /** `%d`: 01 to 31, or a space and 1 to 9. */
  predicate DayAt(s: string, i: nat)
  {
    i + 2 <= |s| &&
    ((DigitsAt(s, i, 2) && 1 <= TwoAt(s, i) <= 31) || (s[i] == ' ' && '1' <= s[i + 1] <= '9'))
  }

  function DayValue(s: string, i: nat): int
    requires i + 2 <= |s|
  {
    if s[i] == ' ' then DigitAt(s, i + 1) else TwoAt(s, i)
  }

  /** `%H`: 00 to 23. */
  predicate HourAt(s: string, i: nat)
  {
    DigitsAt(s, i, 2) && TwoAt(s, i) <= 23
  }

  /** `%M`: 00 to 59. */
  predicate MinuteAt(s: string, i: nat)
  {
    DigitsAt(s, i, 2) && TwoAt(s, i) <= 59
  }

  /** `%Y-%m-%d` at the start of `s`. */
  predicate DateShape(s: string)
  {
    |s| >= 10 && DigitsAt(s, 0, 4) && s[4] == '-' && MonthAt(s, 5) && s[7] == '-' && DayAt(s, 8)
  }

  /** `%Y-%m-%dT%H:%M`; the pattern is matched ignoring case, so `t`
      separates as well as `T`. */
  predicate MinuteShape(s: string)
  {
    |s| == 16 && DateShape(s) && (s[10] == 'T' || s[10] == 't') && HourAt(s, 11) &&
    s[13] == ':' && MinuteAt(s, 14)
  }

  function Checked(d: DateTime): (r: Result<Option<DateTime>, DateError>)
  {
    if Valid(d) then Success(Some(d)) else Failure(OutOfRange)
  }

  /** `mkdate`: strings of other lengths give `None`. */
  function MkDate(s: string): (r: Result<Option<DateTime>, DateError>)
    ensures |s| != 10 && |s| != 16 <==> r == Success(None)
    ensures r.Success? && r.value.Some? ==> Valid(r.value.value)
    ensures r.Success? && r.value.Some? && |s| == 10 ==> r.value.value.hour == 0 && r.value.value.minute == 0
  {
    if |s| == 10 then
      if DateShape(s) then Checked(DateTime(FourAt(s, 0), TwoAt(s, 5), DayValue(s, 8), 0, 0))
      else Failure(NoMatch)
    else if |s| == 16 then
      if MinuteShape(s) then Checked(DateTime(FourAt(s, 0), TwoAt(s, 5), DayValue(s, 8), TwoAt(s, 11), TwoAt(s, 14)))
      else Failure(NoMatch)
    else Success(None)
  }

  /** Zero-padded decimal fields, as `%02d` and `%04d` write them. */
  function Pad2(n: int): (s: string)
    requires 0 <= n < 100
    ensures |s| == 2 && DigitsAt(s, 0, 2) && TwoAt(s, 0) == n
  {
    [DigitChar(n / 10), DigitChar(n % 10)]
  }

  function Pad4(n: int): (s: string)
    requires 0 <= n < 10000
    ensures |s| == 4 && DigitsAt(s, 0, 4) && FourAt(s, 0) == n
  {
    Pad2(n / 100) + Pad2(n % 100)
  }

  /** Two digits are the padded form of the number they denote. */
  lemma Pad2Of(s: string, i: nat)
    requires DigitsAt(s, i, 2)
    ensures 0 <= TwoAt(s, i) < 100 && Pad2(TwoAt(s, i)) == s[i..i + 2]
  {
    var n := TwoAt(s, i);
    assert n / 10 == DigitAt(s, i) && n % 10 == DigitAt(s, i + 1);
  }

  lemma Pad4Of(s: string)
    requires DigitsAt(s, 0, 4)
    ensures 0 <= FourAt(s, 0) < 10000 && Pad4(FourAt(s, 0)) == s[..4]
  {
    var n := FourAt(s, 0);
    Pad2Of(s, 0);
    Pad2Of(s, 2);
    assert n / 100 == TwoAt(s, 0) && n % 100 == TwoAt(s, 2);
    assert s[..4] == s[0..2] + s[2..4];
  }

  /** The inputs `mkdate` reads back: `YYYY-MM-DD` ... */
  function FormatDate(d: DateTime): (s: string)
    requires Valid(d)
    ensures |s| == 10
  {
    Pad4(d.year) + "-" + Pad2(d.month) + "-" + Pad2(d.day)
  }

  /** ... and `YYYY-MM-DDTHH:MM`. */
  function FormatMinute(d: DateTime): (s: string)
    requires Valid(d)
    ensures |s| == 16
  {
    FormatDate(d) + "T" + Pad2(d.hour) + ":" + Pad2(d.minute)
  }

  /** `str(datetime)`: `YYYY-MM-DD HH:MM:SS`, seconds always 0 here. */
  function Str(d: DateTime): (s: string)
    requires Valid(d)
    ensures |s| == 19 && s[..10] == FormatDate(d) && s[10] == ' ' && s[16..] == ":00"
  {
    FormatDate(d) + " " + Pad2(d.hour) + ":" + Pad2(d.minute) + ":00"
  }

  lemma {:induction false} FormatDateShape(d: DateTime)
    requires Valid(d)
    ensures DateShape(FormatDate(d))
    ensures FourAt(FormatDate(d), 0) == d.year && TwoAt(FormatDate(d), 5) == d.month
    ensures DayValue(FormatDate(d), 8) == d.day
  {
    var s := FormatDate(d);
    var y, m, dd := Pad4(d.year), Pad2(d.month), Pad2(d.day);
    assert s[..4] == y && s[5..7] == m && s[8..10] == dd;
    assert forall k :: 0 <= k < 4 ==> s[k] == y[k];
    assert s[5] == m[0] && s[6] == m[1] && s[8] == dd[0] && s[9] == dd[1];
  }

  lemma {:induction false} FormatMinuteShape(d: DateTime)
    requires Valid(d)
    ensures MinuteShape(FormatMinute(d))
    ensures FourAt(FormatMinute(d), 0) == d.year && TwoAt(FormatMinute(d), 5) == d.month
    ensures DayValue(FormatMinute(d), 8) == d.day
    ensures TwoAt(FormatMinute(d), 11) == d.hour && TwoAt(FormatMinute(d), 14) == d.minute
  {
    var s := FormatMinute(d);
    var date := FormatDate(d);
    FormatDateShape(d);
    assert s[..10] == date;
    assert forall k :: 0 <= k < 10 ==> s[k] == date[k];
    var h, mi := Pad2(d.hour), Pad2(d.minute);
    assert s[11] == h[0] && s[12] == h[1] && s[14] == mi[0] && s[15] == mi[1];
  }

  /** A date written as `YYYY-MM-DD` parses back to itself at midnight. */
  lemma ParseFormatDate(d: DateTime)
    requires Valid(d) && d.hour == 0 && d.minute == 0
    ensures MkDate(FormatDate(d)) == Success(Some(d))
  {
    FormatDateShape(d);
  }

  /** A date and time written as `YYYY-MM-DDTHH:MM` parses back to itself. */
  lemma ParseFormatMinute(d: DateTime)
    requires Valid(d)
    ensures MkDate(FormatMinute(d)) == Success(Some(d))
  {
    FormatMinuteShape(d);
  }

  /** The accepted spellings differ from the written form only in a
      space-padded day and a lower-case `t`. */
  function Canonical(s: string): (c: string)
    ensures |c| == |s|
  {
    seq(|s|, (i: int) requires 0 <= i < |s| =>
      if i == 8 && s[i] == ' ' then '0'
      else if i == 10 && s[i] == 't' then 'T'
      else s[i])
  }

  lemma FormatDateParts(d: DateTime)
    requires Valid(d)
    ensures var f := FormatDate(d);
      f[..4] == Pad4(d.year) && f[4] == '-' && f[5..7] == Pad2(d.month) && f[7] == '-' && f[8..10] == Pad2(d.day)
  {
  }

  lemma CanonicalPrefix(s: string)
    requires |s| >= 10
    ensures Canonical(s)[..8] == s[..8]
  {
  }

  lemma CanonicalDay(s: string, day: int)
    requires DayAt(s, 8) && day == DayValue(s, 8) && 0 <= day < 100
    ensures Pad2(day) == Canonical(s)[8..10]
  {
    var c := Canonical(s);
    var dd := Pad2(day);
    if s[8] == ' ' {
      assert dd[0] == '0' == c[8] && dd[1] == s[9] == c[9];
    } else {
      Pad2Of(s, 8);
      assert dd == s[8..10];
      assert c[8] == s[8] && c[9] == s[9];
    }
  }

  lemma {:induction false} DateFieldsCanonical(s: string, d: DateTime)
    requires DateShape(s) && Valid(d)
    requires d.year == FourAt(s, 0) && d.month == TwoAt(s, 5) && d.day == DayValue(s, 8)
    ensures FormatDate(d) == Canonical(s)[..10]
  {
    var c := Canonical(s);
    Pad4Of(s);
    Pad2Of(s, 5);
    CanonicalPrefix(s);
    CanonicalDay(s, d.day);
    assert s[..8] == s[..4] + "-" + s[5..7] + "-";
    assert c[..10] == c[..8] + c[8..10];
  }

  /** Whatever `mkdate` accepts is the written form of its result, up to
      `Canonical`. */
  lemma {:induction false} FormatParse(s: string, d: DateTime)
    requires MkDate(s) == Success(Some(d))
    ensures |s| == 10 ==> FormatDate(d) == Canonical(s)
    ensures |s| == 16 ==> FormatMinute(d) == Canonical(s)
  {
    DateFieldsCanonical(s, d);
    var c := Canonical(s);
    if |s| == 10 {
      assert c == c[..10];
    } else {
      var f := FormatMinute(d);
      Pad2Of(s, 11);
      Pad2Of(s, 14);
      forall k | 0 <= k < 16
        ensures f[k] == c[k]
      {
        if k < 10 {
          assert f[k] == FormatDate(d)[k] == c[..10][k];
        } else if 11 <= k < 13 {
          assert f[k] == Pad2(d.hour)[k - 11] == s[11..13][k - 11];
        } else if 14 <= k {
          assert f[k] == Pad2(d.minute)[k - 14] == s[14..16][k - 14];
        }
      }
    }
  }

  /** `str(date)` read back through `mkdate`'s longer format gives the
      date again. */
  lemma StrMinute(d: DateTime)
    requires Valid(d)
    ensures Str(d)[..10] + "T" + Str(d)[11..16] == FormatMinute(d)
    ensures MkDate(Str(d)[..10] + "T" + Str(d)[11..16]) == Success(Some(d))
  {
    ParseFormatMinute(d);
  }

  /** The start date of a reshuffle test. */
  lemma TestedStart()
    ensures MkDate("2016-06-06T00:00") == Success(Some(DateTime(2016, 6, 6, 0, 0)))
  {
    var s := "2016-06-06T00:00";
    assert DigitsAt(s, 0, 4) && MonthAt(s, 5) && DayAt(s, 8) && HourAt(s, 11) && MinuteAt(s, 14);
    assert FourAt(s, 0) == 2016 && TwoAt(s, 5) == 6 && DayValue(s, 8) == 6;
    assert TwoAt(s, 11) == 0 && TwoAt(s, 14) == 0;
  }

  /** A date without time is midnight. */
  lemma TestedDay()
    ensures MkDate("2016-06-07") == Success(Some(DateTime(2016, 6, 7, 0, 0)))
  {
    var s := "2016-06-07";
    assert DigitsAt(s, 0, 4) && MonthAt(s, 5) && DayAt(s, 8);
    assert FourAt(s, 0) == 2016 && TwoAt(s, 5) == 6 && DayValue(s, 8) == 7;
  }

  /** 2015 is no leap year: the text matches, the date does not exist. */
  lemma TestedLeapDay()
    ensures MkDate("2015-02-29") == Failure(OutOfRange)
  {
    var s := "2015-02-29";
    assert DigitsAt(s, 0, 4) && MonthAt(s, 5) && DayAt(s, 8);
    assert FourAt(s, 0) == 2015 && TwoAt(s, 5) == 2 && DayValue(s, 8) == 29;
  }

  /** Month 13 does not match `%m`; a string of another length is no
      date at all. */
  lemma TestedRejected()
    ensures MkDate("2016-13-01") == Failure(NoMatch)
    ensures MkDate("2016-06") == Success(None)
  {
    var s := "2016-13-01";
    assert TwoAt(s, 5) == 13;
  }
}
