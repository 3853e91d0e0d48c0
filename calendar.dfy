/** Python's `datetime` as the editor uses it: the validity rules of the constructor, the two
    `strftime` formats it prints ("%B %d, %Y" for display, "%Y:%m:%d %H:%M:%S" for EXIF) and
    `datetime.strptime(s, "%Y:%m:%d %H:%M:%S")`, which reads the EXIF form back. */
module Calendar {
  import opened Wrappers
  import opened PyText

  /** A naive date and time; microseconds and time zones play no part in the editor. */
  datatype DateTime = DateTime(year: int, month: int, day: int, hour: int, minute: int, second: int)

  /** The proleptic Gregorian leap-year rule. */
  predicate IsLeapYear(y: int) {
    y % 4 == 0 && (y % 100 != 0 || y % 400 == 0)
  }

  function DaysInMonth(y: int, m: int): (n: int)
    requires 1 <= m <= 12
    ensures 28 <= n <= 31
    ensures n == 29 <==> m == 2 && IsLeapYear(y)
  {
    if m == 2 then (if IsLeapYear(y) then 29 else 28)
    else if m == 4 || m == 6 || m == 9 || m == 11 then 30
    else 31
  }

  /** The arguments `datetime(y, m, d)` accepts without raising `ValueError`. */
  predicate ValidDate(y: int, m: int, d: int) {
    1 <= y <= 9999 && 1 <= m <= 12 && 1 <= d <= DaysInMonth(y, m)
  }

  predicate ValidTime(h: int, mi: int, s: int) {
    0 <= h < 24 && 0 <= mi < 60 && 0 <= s < 60
  }

  predicate Valid(t: DateTime) {
    ValidDate(t.year, t.month, t.day) && ValidTime(t.hour, t.minute, t.second)
  }

  /** A `datetime` object: only valid field combinations exist. */
  type Stamp = t: DateTime | Valid(t) witness DateTime(2000, 1, 1, 0, 0, 0)

  /** `datetime(y, mo, d, h, mi, s)`; `None` stands for the `ValueError` it raises. */
  function MakeDateTime(y: int, mo: int, d: int, h: int, mi: int, s: int): (r: Option<Stamp>)
    ensures r.Some? <==> ValidDate(y, mo, d) && ValidTime(h, mi, s)
    ensures r.Some? ==> r.value == DateTime(y, mo, d, h, mi, s)
  {
    var t := DateTime(y, mo, d, h, mi, s);
    if Valid(t) then Some(t) else None
  }

  /** `datetime(y, m, d)`, at midnight. */
  function MakeDate(y: int, m: int, d: int): (r: Option<Stamp>)
    ensures r.Some? <==> ValidDate(y, m, d)
    ensures r.Some? ==> r.value == DateTime(y, m, d, 0, 0, 0)
  {
    MakeDateTime(y, m, d, 0, 0, 0)
  }

  /** The C `datetime` constructor converts each argument to a C `int` before it checks
      the date: an integer outside -2^31..2^31-1 raises `OverflowError`, which is not a
      `ValueError`. */
  predicate FitsCInt(n: int) {
    -0x8000_0000 <= n <= 0x7FFF_FFFF
  }

  /** `%B` in the C locale. */
  function MonthName(m: int): (r: string)
    requires 1 <= m <= 12
    ensures |r| >= 3 && forall i :: 0 <= i < |r| ==> !IsDigit(r[i]) && r[i] != ' '
  {
    match m
    case 1 => "January"
    case 2 => "February"
    case 3 => "March"
    case 4 => "April"
    case 5 => "May"
    case 6 => "June"
    case 7 => "July"
    case 8 => "August"
    case 9 => "September"
    case 10 => "October"
    case 11 => "November"
    case _ => "December"
  }

  /** `t.strftime("%B %d, %Y")`, the form the date field shows, e.g. "March 05, 1987".
      `%Y` prints the year without padding, as the C library does. */
  function LongDate(t: Stamp): string {
    MonthName(t.month) + " " + Pad2(t.day) + ", " + Decimal(t.year)
  }

  /** `t.strftime("%Y:%m:%d %H:%M:%S")`, the form written to the EXIF date tags. */
  function ExifText(t: Stamp): string {
    Decimal(t.year) + ":" + Pad2(t.month) + ":" + Pad2(t.day) + " "
      + Pad2(t.hour) + ":" + Pad2(t.minute) + ":" + Pad2(t.second)
  }

  // ---------------------------------------------------------------------------------------
  // strptime(s, "%Y:%m:%d %H:%M:%S")

  /** The length of the run of digits at the front of `s`. */
  function DigitRun(s: string): (n: nat)
    ensures n <= |s|
    ensures forall i :: 0 <= i < n ==> IsDigit(s[i])
    ensures n == |s| || !IsDigit(s[n])
  {
    if s != [] && IsDigit(s[0]) then 1 + DigitRun(s[1..]) else 0
  }

  /** The length of the run of whitespace at the front of `s`. */
  function SpaceRun(s: string): (n: nat)
    ensures n <= |s|
    ensures forall i :: 0 <= i < n ==> IsSpace(s[i])
    ensures n == |s| || !IsSpace(s[n])
  {
    if s != [] && IsSpace(s[0]) then 1 + SpaceRun(s[1..]) else 0
  }

  /** One numeric directive followed by a non-digit: `strptime` takes one or two digits
      (the patterns for `%m`, `%d`, `%H`, `%M` and `%S` all accept an optional leading zero)
      and the value must lie in `lo..hi`. Returns the value and the unread rest. */
  function Field(s: string, lo: int, hi: int): (r: Option<(int, string)>)
    ensures r.Some? ==> lo <= r.value.0 <= hi && |r.value.1| < |s|
  {
    var n := DigitRun(s);
    if 1 <= n <= 2 && lo <= DigitsValue(s[..n]) <= hi then Some((DigitsValue(s[..n]), s[n..]))
    else None
  }

  /** `%d`, which besides one or two digits also accepts a space followed by a digit 1-9. */
  function DayField(s: string): (r: Option<(int, string)>)
    ensures r.Some? ==> 1 <= r.value.0 <= 31 && |r.value.1| < |s|
  {
    if |s| >= 2 && s[0] == ' ' && '1' <= s[1] <= '9' then Some((DigitValue(s[1]), s[2..]))
    else Field(s, 1, 31)
  }

  predicate StartsWith(s: string, c: char) {
    s != [] && s[0] == c
  }

  /** The time part "%H:%M:%S" up to the end of the string. */
  function ParseClock(s: string): (r: Option<(int, int, int)>)
    ensures r.Some? ==> 0 <= r.value.0 <= 23 && 0 <= r.value.1 <= 59 && 0 <= r.value.2 <= 61
  {
    var hour :- Field(s, 0, 23);
    if !StartsWith(hour.1, ':') then None
    else
      var minute :- Field(hour.1[1..], 0, 59);
      if !StartsWith(minute.1, ':') then None
      else
        var second :- Field(minute.1[1..], 0, 61);
        if second.1 != [] then None else Some((hour.0, minute.0, second.0))
  }

  /** "%d %H:%M:%S" up to the end of the string: the format's space matches one or more
      whitespace characters. */
  function ParseDayClock(s: string): (r: Option<(int, (int, int, int))>)
    ensures r.Some? ==> 1 <= r.value.0 <= 31
  {
    var day :- DayField(s);
    var gap := SpaceRun(day.1);
    if gap == 0 then None
    else
      var clock :- ParseClock(day.1[gap..]);
      Some((day.0, clock))
  }

  /** `datetime.strptime(s, "%Y:%m:%d %H:%M:%S")`: exactly four year digits, the numeric
      fields as `Field` reads them, nothing left over, and then a valid `datetime` (a 30th
      of February or a leap second 60/61 match the pattern but raise `ValueError`). */
  function ParseExifText(s: string): (r: Option<Stamp>)
    ensures r.Some? ==> Valid(r.value)
  {
    if |s| < 5 || DigitRun(s) != 4 || s[4] != ':' then None
    else
      var month :- Field(s[5..], 1, 12);
      if !StartsWith(month.1, ':') then None
      else
        var rest :- ParseDayClock(month.1[1..]);
        var (day, (hour, minute, second)) := rest;
        MakeDateTime(DigitsValue(s[..4]), month.0, day, hour, minute, second)
  }

  /** A two-digit rendering is read back by `Field` whenever the next character is not a
      digit. */
  lemma FieldOfPad2(n: int, lo: int, hi: int, rest: string)
    requires 0 <= n < 100 && lo <= n <= hi
    requires rest == [] || !IsDigit(rest[0])
    ensures Field(Pad2(n) + rest, lo, hi) == Some((n, rest))
  {
    var s := Pad2(n) + rest;
    assert s[1..][1..] == rest;
    assert DigitRun(s) == 2;
    assert s[..2] == Pad2(n) && s[2..] == rest;
  }

  lemma ClockRoundTrip(h: int, mi: int, sec: int)
    requires 0 <= h < 24 && 0 <= mi < 60 && 0 <= sec < 60
    ensures ParseClock(Pad2(h) + ":" + Pad2(mi) + ":" + Pad2(sec)) == Some((h, mi, sec))
  {
    var ss := Pad2(sec);
    var m := Pad2(mi) + ":" + ss;
    assert Pad2(h) + ":" + Pad2(mi) + ":" + ss == Pad2(h) + (":" + m);
    FieldOfPad2(h, 0, 23, ":" + m);
    assert (":" + m)[1..] == m;
    assert m == Pad2(mi) + (":" + ss);
    FieldOfPad2(mi, 0, 59, ":" + ss);
    assert (":" + ss)[1..] == ss;
    FieldOfPad2(sec, 0, 61, []);
    assert ss + [] == ss;
  }

  lemma DayClockRoundTrip(t: Stamp)
    ensures ParseDayClock(Pad2(t.day) + " " + Pad2(t.hour) + ":" + Pad2(t.minute) + ":" + Pad2(t.second))
         == Some((t.day, (t.hour, t.minute, t.second)))
  {
    var c := Pad2(t.hour) + ":" + Pad2(t.minute) + ":" + Pad2(t.second);
    assert Pad2(t.day) + " " + Pad2(t.hour) + ":" + Pad2(t.minute) + ":" + Pad2(t.second)
        == Pad2(t.day) + (" " + c);
    FieldOfPad2(t.day, 1, 31, " " + c);
    assert SpaceRun(" " + c) == 1 by {
      assert (" " + c)[1..] == c;
    }
    assert (" " + c)[1..] == c;
    ClockRoundTrip(t.hour, t.minute, t.second);
  }

  /** What the writers store in the EXIF date tags reads back as the same date and time:
      `strptime(t.strftime(FMT), FMT) == t` for four-digit years. */
  lemma ExifTextRoundTrip(t: Stamp)
    requires t.year >= 1000
    ensures ParseExifText(ExifText(t)) == Some(t)
  {
    DecimalOfFourDigits(t.year);
    var y := Decimal(t.year);
    var d := Pad2(t.day) + " " + Pad2(t.hour) + ":" + Pad2(t.minute) + ":" + Pad2(t.second);
    var mo := Pad2(t.month) + (":" + d);
    var s := ExifText(t);
    assert s == y + ":" + mo;
    assert s[..4] == y && s[4] == ':' && s[5..] == mo;
    assert DigitRun(s) == 4 by {
      assert s[1..][1..][1..][1..][0] == ':';
    }
    FieldOfPad2(t.month, 1, 12, ":" + d);
    assert (":" + d)[1..] == d;
    DayClockRoundTrip(t);
  }
}
