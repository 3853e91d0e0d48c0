/** The editor's heuristic date parser: `parse_date_with_preview` (the Tk date field's live
    preview) and the two `parse_natural_date` variants. Ordered rules for short digit strings
    and for "A/B" or "A-B" come first; anything else goes to dateutil's fuzzy parser, which
    is not modelled and is passed in as the function `fuzzy` (`None` when it raises). The
    current year and month come from the clock and are passed in as well. */
module DateParser {
  import opened Wrappers
  import opened PyText
  import opened Calendar

  /** The pair `(parsed_date, preview)` that `parse_date_with_preview` returns. */
  datatype Preview = Preview(date: Option<Stamp>, text: string)

  const OutOfRange: string := "Date out of valid range (1900-2100)"
  const InvalidFormat: string := "Invalid date format"
  const CurrentYearNote: string := " (assumed current year)"
  const CurrentMonthNote: string := " (assumed current month/year)"
  const YearNote: string := " (assumed year)"
  const FirstDayNote: string := " (assumed 1st day)"

  /** The outcome of a rule that can raise: a date with the note for its preview, no
      match (the next rule is tried), or an exception that escapes to the outer
      `except Exception`. */
  datatype Attempt = Parsed(date: Stamp, note: string) | NoMatch | Raised

  /** The range of years the parsers accept. */
  predicate InRange(t: Stamp) {
    1900 <= t.year <= 2100
  }

  /** The clock readings the parser consults: `datetime.now().year` and `.month`. */
  predicate ValidClock(currentYear: int, currentMonth: int) {
    1 <= currentYear <= 9999 && 1 <= currentMonth <= 12
  }

  /** Rule 1, shared by all three parsers: four digits naming a year in 1900..2100 mean
      1 January of that year. `None` means the rule does not apply. */
  function YearOnly(text: string): (r: Option<Stamp>)
    ensures r.Some? <==> IsDigitString(text) && |text| == 4 && 1900 <= DigitsValue(text) <= 2100
    ensures r.Some? ==> r.value == DateTime(DigitsValue(text), 1, 1, 0, 0, 0)
  {
    if IsDigitString(text) && |text| == 4 then
      PyIntOfDigits(text);
      var year := PyInt(text).value;
      if 1900 <= year <= 2100 then MakeDate(year, 1, 1) else None
    else None
  }

  /** Rule 2: one or two digits, guessed as a month, a day of the current month or a year.
      Returns the date and the note appended to its preview; `None` means the input falls
      through to the later rules (a month 0, a day the current month lacks, three or more
      digits). */
  function PartialDigits(text: string, currentYear: int, currentMonth: int): (r: Option<(Stamp, string)>)
    requires ValidClock(currentYear, currentMonth)
    ensures r.Some? ==> IsDigitString(text) && 1 <= |text| <= 2
  {
    if !IsDigitString(text) then None
    else
      PyIntOfDigits(text);
      var num := PyInt(text).value;
      if |text| == 1 then
        if 1 <= num <= 12 then Some((MakeDate(currentYear, num, 1).value, CurrentYearNote)) else None
      else if |text| == 2 then
        if 1 <= num <= 12 then Some((MakeDate(currentYear, num, 1).value, CurrentYearNote))
        else if 13 <= num <= 31 then
          match MakeDate(currentYear, currentMonth, num)
          case Some(t) => Some((t, CurrentMonthNote))
          case None => None
        else
          var year := if num <= 30 then 2000 + num else 1900 + num;
          if 1900 <= year <= 2100 then Some((MakeDate(year, 1, 1).value, YearNote)) else None
      else None
  }

  /** Rule 3: text containing '/' or '-' that splits (after turning '-' into '/') into
      exactly two integers A and B. A year B in 1900..2100 gives the 1st of month A of
      year B; otherwise A in 1..12 and B in 1..31 give day B of month A of the current year.
      Invalid combinations fall through (`NoMatch`), except that a month A too large for a
      C `int` with a year B makes `datetime` raise `OverflowError`, which the rule's
      `except ValueError` does not catch (`Raised`). */
  function TwoPart(text: string, currentYear: int): (r: Attempt)
    requires 1 <= currentYear <= 9999
    ensures !r.NoMatch? ==> '/' in text || '-' in text
    ensures r.Parsed? ==> r.note == FirstDayNote || r.note == CurrentYearNote
  {
    if '/' !in text && '-' !in text then NoMatch
    else
      var parts := Split(ReplaceChar(text, '-', '/'), '/');
      if |parts| != 2 then NoMatch
      else
        match (PyInt(parts[0]), PyInt(parts[1]))
        case (Some(a), Some(b)) =>
          if 1900 <= b <= 2100 then
            if !FitsCInt(a) then Raised
            else
              match MakeDate(b, a, 1)
              case Some(t) => Parsed(t, FirstDayNote)
              case None => NoMatch
          else if 1 <= a <= 12 && 1 <= b <= 31 then
            match MakeDate(currentYear, a, b)
            case Some(t) => Parsed(t, CurrentYearNote)
            case None => NoMatch
          else NoMatch
        case _ => NoMatch
  }

  /** Rule 4, the fallback: the fuzzy parser's result, kept only inside 1900..2100. */
  function Fallback(text: string, fuzzy: string -> Option<Stamp>): (r: Preview)
    ensures r.date.Some? ==> InRange(r.date.value) && r.text == LongDate(r.date.value)
    ensures r.date.None? ==> r.text == OutOfRange || r.text == InvalidFormat
    ensures fuzzy(text).None? ==> r == Preview(None, InvalidFormat)
    ensures fuzzy(text).Some? && InRange(fuzzy(text).value) ==> r.date == fuzzy(text)
    ensures fuzzy(text).Some? && !InRange(fuzzy(text).value) ==> r == Preview(None, OutOfRange)
  {
    match fuzzy(text)
    case None => Preview(None, InvalidFormat)
    case Some(t) => if InRange(t) then Preview(Some(t), LongDate(t)) else Preview(None, OutOfRange)
  }

  /** `parse_date_with_preview(text)`: the rules above in order on the stripped, lower-cased
      text; the fallback sees the stripped text with its case kept. It never raises: every
      failure ends in one of the two messages. */
  function ParseDateWithPreview(text: string, currentYear: int, currentMonth: int,
                                fuzzy: string -> Option<Stamp>): (r: Preview)
    requires ValidClock(currentYear, currentMonth)
    ensures r.date.None? ==> r.text == OutOfRange || r.text == InvalidFormat
  {
    var original := Strip(text);
    var lowered := AsciiLower(original);
    match YearOnly(lowered)
    case Some(t) => Preview(Some(t), LongDate(t))
    case None =>
      match PartialDigits(lowered, currentYear, currentMonth)
      case Some((t, note)) => Preview(Some(t), LongDate(t) + note)
      case None =>
        match TwoPart(lowered, currentYear)
        case Parsed(t, note) => Preview(Some(t), LongDate(t) + note)
        case NoMatch => Fallback(original, fuzzy)
        case Raised => Preview(None, InvalidFormat)
  }

  /** `parse_natural_date` of the Tk editor: the year rule, then the fuzzy parser on the
      stripped, lower-cased text, accepted only inside 1900..2100. */
  function ParseNaturalDateTk(text: string, fuzzy: string -> Option<Stamp>): (r: Option<Stamp>)
    ensures r.Some? ==> InRange(r.value)
    ensures var lowered := AsciiLower(Strip(text));
      YearOnly(lowered).None? ==>
        (r.Some? <==> fuzzy(lowered).Some? && InRange(fuzzy(lowered).value))
        && (r.Some? ==> r == fuzzy(lowered))
  {
    var lowered := AsciiLower(Strip(text));
    match YearOnly(lowered)
    case Some(t) => Some(t)
    case None =>
      match fuzzy(lowered)
      case Some(t) => if InRange(t) then Some(t) else None
      case None => None
  }

  /** `parse_natural_date` of the Qt editor: the same rules on the text as given. */
  function ParseNaturalDateQt(text: string, fuzzy: string -> Option<Stamp>): (r: Option<Stamp>)
    ensures r.Some? ==> InRange(r.value)
    ensures YearOnly(text).None? ==>
      (r.Some? <==> fuzzy(text).Some? && InRange(fuzzy(text).value))
      && (r.Some? ==> r == fuzzy(text))
  {
    match YearOnly(text)
    case Some(t) => Some(t)
    case None =>
      match fuzzy(text)
      case Some(t) => if InRange(t) then Some(t) else None
      case None => None
  }

  // ---------------------------------------------------------------------------------------
  // Properties of the rules

  lemma {:induction false} LowerOfDigits(s: string)
    requires IsDigitString(s)
    ensures AsciiLower(s) == s
  {
    assert forall i :: 0 <= i < |s| ==> AsciiLower(s)[i] == s[i];
  }

  /** The four-digit year rule: all three parsers give 1 January of that year, and the
      preview is the bare long date with no note. */
  lemma YearRule(text: string, currentYear: int, currentMonth: int, fuzzy: string -> Option<Stamp>)
    requires ValidClock(currentYear, currentMonth)
    requires IsDigitString(Strip(text)) && |Strip(text)| == 4
    requires 1900 <= DigitsValue(Strip(text)) <= 2100
    ensures var t := DateTime(DigitsValue(Strip(text)), 1, 1, 0, 0, 0);
      && Valid(t)
      && ParseDateWithPreview(text, currentYear, currentMonth, fuzzy) == Preview(Some(t), LongDate(t))
      && ParseNaturalDateTk(text, fuzzy) == Some(t)
      && ParseNaturalDateQt(Strip(text), fuzzy) == Some(t)
  {
    LowerOfDigits(Strip(text));
  }

  /** The month rule: one digit 1-9, or two digits with value 1-12, give the 1st of that
      month in the current year, noted "(assumed current year)". */
  lemma MonthRule(text: string, currentYear: int, currentMonth: int, fuzzy: string -> Option<Stamp>)
    requires ValidClock(currentYear, currentMonth)
    requires IsDigitString(Strip(text)) && 1 <= |Strip(text)| <= 2
    requires 1 <= DigitsValue(Strip(text)) <= 12
    ensures var t := DateTime(currentYear, DigitsValue(Strip(text)), 1, 0, 0, 0);
      && Valid(t)
      && ParseDateWithPreview(text, currentYear, currentMonth, fuzzy)
         == Preview(Some(t), LongDate(t) + CurrentYearNote)
  {
    LowerOfDigits(Strip(text));
    PyIntOfDigits(Strip(text));
  }

  /** Two digits 13-31 name a day of the current month, noted "(assumed current
      month/year)"; a day the current month does not have falls through to the fuzzy
      parser instead of failing. */
  lemma DayRule(text: string, currentYear: int, currentMonth: int, fuzzy: string -> Option<Stamp>)
    requires ValidClock(currentYear, currentMonth)
    requires IsDigitString(Strip(text)) && |Strip(text)| == 2
    requires 13 <= DigitsValue(Strip(text)) <= 31
    ensures var day := DigitsValue(Strip(text));
      var p := ParseDateWithPreview(text, currentYear, currentMonth, fuzzy);
      && (ValidDate(currentYear, currentMonth, day) ==>
            var t := DateTime(currentYear, currentMonth, day, 0, 0, 0);
            Valid(t) && p == Preview(Some(t), LongDate(t) + CurrentMonthNote))
      && (!ValidDate(currentYear, currentMonth, day) ==> p == Fallback(Strip(text), fuzzy))
  {
    var d := Strip(text);
    LowerOfDigits(d);
    PyIntOfDigits(d);
    assert '/' !in d && '-' !in d by {
      assert forall i :: 0 <= i < |d| ==> IsDigit(d[i]);
    }
  }

  /** The remaining two-digit inputs are years: "00" is 2000 and 32-99 are 1932-1999,
      noted "(assumed year)". */
  lemma TwoDigitYearRule(text: string, currentYear: int, currentMonth: int, fuzzy: string -> Option<Stamp>)
    requires ValidClock(currentYear, currentMonth)
    requires IsDigitString(Strip(text)) && |Strip(text)| == 2
    requires var n := DigitsValue(Strip(text)); n == 0 || 32 <= n
    ensures var n := DigitsValue(Strip(text));
      var t := DateTime(if n == 0 then 2000 else 1900 + n, 1, 1, 0, 0, 0);
      && Valid(t)
      && ParseDateWithPreview(text, currentYear, currentMonth, fuzzy) == Preview(Some(t), LongDate(t) + YearNote)
  {
    LowerOfDigits(Strip(text));
    PyIntOfDigits(Strip(text));
    TwoDigitsBelow100(Strip(text));
  }

  /** The two-part rule on "A/B" or "A-B": a year B in 1900..2100 gives the 1st of month A
      of year B, noted "(assumed 1st day)"; otherwise a month A and a day B in 1..31 give
      that day of the current year, noted "(assumed current year)"; a month A outside the
      C `int` range with such a year B raises; every other case, including a month or day
      that does not exist, falls through. */
  lemma TwoPartOf(x: string, sep: char, y: string, a: int, b: int, currentYear: int)
    requires 1 <= currentYear <= 9999
    requires sep == '/' || sep == '-'
    requires '/' !in x && '-' !in x && '/' !in y && '-' !in y
    requires PyInt(x) == Some(a) && PyInt(y) == Some(b)
    ensures var r := TwoPart(x + [sep] + y, currentYear);
      && (1900 <= b <= 2100 ==>
            r == if !FitsCInt(a) then Raised
                 else if ValidDate(b, a, 1) then Parsed(DateTime(b, a, 1, 0, 0, 0), FirstDayNote)
                 else NoMatch)
      && (!(1900 <= b <= 2100) && 1 <= a <= 12 && 1 <= b <= 31 ==>
            r == if ValidDate(currentYear, a, b) then Parsed(DateTime(currentYear, a, b, 0, 0, 0), CurrentYearNote)
                 else NoMatch)
      && (!(1900 <= b <= 2100) && !(1 <= a <= 12 && 1 <= b <= 31) ==> r == NoMatch)
  {
    TwoPartPieces(x, sep, y);
  }

  // "A/B" and "A-B" both split into the pieces A and B.
  lemma TwoPartPieces(x: string, sep: char, y: string)
    requires sep == '/' || sep == '-'
    requires '/' !in x && '-' !in x && '/' !in y && '-' !in y
    ensures sep in x + [sep] + y
    ensures Split(ReplaceChar(x + [sep] + y, '-', '/'), '/') == [x, y]
  {
    var d := x + [sep] + y;
    assert d[|x|] == sep;
    var replaced := ReplaceChar(d, '-', '/');
    assert replaced == x + ['/'] + y by {
      assert forall i :: 0 <= i < |d| ==> replaced[i] == (x + ['/'] + y)[i];
    }
    SplitAtOnlySeparator(x, y, '/');
  }

  /** Text with a separator skips the digit rules: the preview is the two-part rule's
      result, the fuzzy fallback on the stripped text when that rule falls through, or
      "Invalid date format" when it raises. */
  lemma SeparatorSkipsDigitRules(text: string, currentYear: int, currentMonth: int, fuzzy: string -> Option<Stamp>)
    requires ValidClock(currentYear, currentMonth)
    requires '/' in AsciiLower(Strip(text)) || '-' in AsciiLower(Strip(text))
    ensures ParseDateWithPreview(text, currentYear, currentMonth, fuzzy)
         == match TwoPart(AsciiLower(Strip(text)), currentYear)
            case Parsed(t, note) => Preview(Some(t), LongDate(t) + note)
            case NoMatch => Fallback(Strip(text), fuzzy)
            case Raised => Preview(None, InvalidFormat)
  {
    var d := AsciiLower(Strip(text));
    assert !IsDigitString(d);
  }

  /** Text that none of the three rules accepts, and on which the two-part rule does not
      raise, reaches the fuzzy parser with its case kept, whatever it is. */
  lemma FallbackReached(text: string, currentYear: int, currentMonth: int, fuzzy: string -> Option<Stamp>)
    requires ValidClock(currentYear, currentMonth)
    requires var lowered := AsciiLower(Strip(text));
      YearOnly(lowered).None? && PartialDigits(lowered, currentYear, currentMonth).None?
      && TwoPart(lowered, currentYear).NoMatch?
    ensures ParseDateWithPreview(text, currentYear, currentMonth, fuzzy) == Fallback(Strip(text), fuzzy)
  {
  }

  /** A month A too large for a C `int` with a year B in 1900..2100: `datetime(B, A, 1)`
      raises `OverflowError`, the rule's `except ValueError` lets it pass, and the outer
      handler answers "Invalid date format" without consulting the fuzzy parser. */
  lemma OverflowAborts(text: string, x: string, sep: char, y: string, a: int, b: int,
                       currentYear: int, currentMonth: int, fuzzy: string -> Option<Stamp>)
    requires ValidClock(currentYear, currentMonth)
    requires sep == '/' || sep == '-'
    requires '/' !in x && '-' !in x && '/' !in y && '-' !in y
    requires AsciiLower(Strip(text)) == x + [sep] + y
    requires PyInt(x) == Some(a) && PyInt(y) == Some(b)
    requires !FitsCInt(a) && 1900 <= b <= 2100
    ensures ParseDateWithPreview(text, currentYear, currentMonth, fuzzy) == Preview(None, InvalidFormat)
  {
    TwoPartOf(x, sep, y, a, b, currentYear);
    assert AsciiLower(Strip(text))[|x|] == sep;
    SeparatorSkipsDigitRules(text, currentYear, currentMonth, fuzzy);
  }

  /** For instance "9999999999/2000" is answered "Invalid date format" whatever the fuzzy
      parser would have made of it. */
  lemma OverflowExample(currentYear: int, currentMonth: int, fuzzy: string -> Option<Stamp>)
    requires ValidClock(currentYear, currentMonth)
    ensures ParseDateWithPreview("9999999999/2000", currentYear, currentMonth, fuzzy)
         == Preview(None, InvalidFormat)
  {
    ExampleLowered();
    ExampleParts();
    Year2000();
    TenNines();
    OverflowAborts("9999999999/2000", "9999999999", '/', "2000", 9999999999, 2000,
                   currentYear, currentMonth, fuzzy);
  }

  lemma ExampleLowered()
    ensures AsciiLower(Strip("9999999999/2000")) == "9999999999" + ['/'] + "2000"
  {
    StripUnchanged("9999999999/2000");
    LowerUnchanged("9999999999/2000");
  }

  lemma ExampleParts()
    ensures '/' !in "9999999999" && '-' !in "9999999999" && '/' !in "2000" && '-' !in "2000"
  {
  }

  lemma Year2000()
    ensures PyInt("2000") == Some(2000)
  {
    PyIntOfDigits("2000");
    assert "2000"[..3] == "200" && "200"[..2] == "20" && "20"[..1] == "2" && "2"[..0] == "";
  }

  lemma LowerUnchanged(text: string)
    requires forall i :: 0 <= i < |text| ==> !('A' <= text[i] <= 'Z')
    ensures AsciiLower(text) == text
  {
    assert forall i :: 0 <= i < |text| ==> AsciiLower(text)[i] == text[i];
  }

  // `DigitsValue` takes one digit off the end per step.
  lemma TenNines()
    ensures PyInt("9999999999") == Some(9999999999)
  {
    assert "9"[..0] == "";
    assert DigitsValue("9") == 9;
    assert "99"[..1] == "9";
    assert DigitsValue("99") == 99;
    assert "999"[..2] == "99";
    assert DigitsValue("999") == 999;
    assert "9999"[..3] == "999";
    assert DigitsValue("9999") == 9999;
    assert "99999"[..4] == "9999";
    assert DigitsValue("99999") == 99999;
    assert "999999"[..5] == "99999";
    assert DigitsValue("999999") == 999999;
    assert "9999999"[..6] == "999999";
    assert DigitsValue("9999999") == 9999999;
    assert "99999999"[..7] == "9999999";
    assert DigitsValue("99999999") == 99999999;
    assert "999999999"[..8] == "99999999";
    assert DigitsValue("999999999") == 999999999;
    assert "9999999999"[..9] == "999999999";
    assert DigitsValue("9999999999") == 9999999999;
    PyIntOfDigits("9999999999");
  }

  /** Ordinary text, made of more than digits and without a separator, goes straight to the
      fuzzy parser: the preview is its date when the year is in 1900..2100, and otherwise
      the message that says why not. */
  lemma WordsGoToFuzzy(text: string, currentYear: int, currentMonth: int, fuzzy: string -> Option<Stamp>)
    requires ValidClock(currentYear, currentMonth)
    requires var lowered := AsciiLower(Strip(text));
      !IsDigitString(lowered) && '/' !in lowered && '-' !in lowered
    ensures var p := ParseDateWithPreview(text, currentYear, currentMonth, fuzzy);
      var f := fuzzy(Strip(text));
      && (f.Some? && InRange(f.value) ==> p == Preview(f, LongDate(f.value)))
      && (f.Some? && !InRange(f.value) ==> p == Preview(None, OutOfRange))
      && (f.None? ==> p == Preview(None, InvalidFormat))
  {
    FallbackReached(text, currentYear, currentMonth, fuzzy);
  }

  /** A date in the preview comes with the long date followed by one of the notes, and its
      year is in 1900..2100 or is the current year. */
  lemma PartialDigitsShape(text: string, currentYear: int, currentMonth: int)
    requires ValidClock(currentYear, currentMonth)
    ensures var r := PartialDigits(text, currentYear, currentMonth);
      r.Some? ==> (InRange(r.value.0) || r.value.0.year == currentYear)
                  && r.value.1 in {CurrentYearNote, CurrentMonthNote, YearNote}
  {
    if IsDigitString(text) && |text| == 2 {
      TwoDigitsBelow100(text);
      PyIntOfDigits(text);
    }
  }

  lemma TwoPartShape(text: string, currentYear: int)
    requires 1 <= currentYear <= 9999
    ensures var r := TwoPart(text, currentYear);
      r.Parsed? ==> (InRange(r.date) || r.date.year == currentYear)
                    && r.note in {FirstDayNote, CurrentYearNote}
  {
  }

  /** The preview never fails: without a date it is one of the two messages; with a date
      it is the long date followed by one of the notes, and the year is in 1900..2100 or is
      the current year. */
  lemma PreviewShape(text: string, currentYear: int, currentMonth: int, fuzzy: string -> Option<Stamp>)
    requires ValidClock(currentYear, currentMonth)
    ensures var p := ParseDateWithPreview(text, currentYear, currentMonth, fuzzy);
      && (p.date.None? ==> p.text == OutOfRange || p.text == InvalidFormat)
      && (p.date.Some? ==>
            && (InRange(p.date.value) || p.date.value.year == currentYear)
            && |LongDate(p.date.value)| <= |p.text|
            && p.text[..|LongDate(p.date.value)|] == LongDate(p.date.value)
            && p.text[|LongDate(p.date.value)|..]
               in {"", CurrentYearNote, CurrentMonthNote, YearNote, FirstDayNote})
  {
    var lowered := AsciiLower(Strip(text));
    var p := ParseDateWithPreview(text, currentYear, currentMonth, fuzzy);
    PartialDigitsShape(lowered, currentYear, currentMonth);
    TwoPartShape(lowered, currentYear);
    if p.date.Some? {
      var long := LongDate(p.date.value);
      assert p.text == long + p.text[|long|..];
    }
  }
}
