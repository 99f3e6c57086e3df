/** `_parse_date`: the normalisation of a scraped date cell to `YYYY-MM-DD`, by trying
    the formats of `DATE_INPUT_FORMATS` in order with `datetime.strptime`. */
module Dates {
  import opened Wrappers
  import opened Text

  datatype Date = Date(year: nat, month: nat, day: nat)

  /** Gregorian leap years. */
  predicate IsLeapYear(year: nat) {
    year % 4 == 0 && (year % 100 != 0 || year % 400 == 0)
  }

  function DaysInMonth(year: nat, month: nat): (n: nat)
    requires 1 <= month <= 12
    ensures 28 <= n <= 31
    ensures month == 2 ==> (n == 29 <==> IsLeapYear(year))
    ensures month != 2 ==> (n == 30 <==> month in {4, 6, 9, 11})
    ensures month == 2 && !IsLeapYear(year) ==> n == 28
    ensures month in {1, 3, 5, 7, 8, 10, 12} ==> n == 31
  {
    if month == 2 then (if IsLeapYear(year) then 29 else 28)
    else if month in {4, 6, 9, 11} then 30
    else 31
  }

  /** The dates a Python `datetime` can hold: years 1 to 9999, days within the month. */
  predicate ValidDate(d: Date) {
    1 <= d.year <= 9999 && 1 <= d.month <= 12 && 1 <= d.day <= DaysInMonth(d.year, d.month)
  }

  /** The month names `%b` accepts, as strptime keeps them (lower case). */
  const MonthAbbreviations: seq<string> :=
    ["jan", "feb", "mar", "apr", "may", "jun", "jul", "aug", "sep", "oct", "nov", "dec"]

  /** The month number of a `%b` token, matched without regard to letter case. */
  function MonthNumber(token: string): (m: Option<nat>)
    ensures m.Some? ==> 1 <= m.value <= 12 && Lower(token) == MonthAbbreviations[m.value - 1]
    ensures m.None? ==> forall i :: 0 <= i < 12 ==> Lower(token) != MonthAbbreviations[i]
  {
    FindMonth(Lower(token), 0)
  }

  function FindMonth(lowered: string, from: nat): (m: Option<nat>)
    requires from <= 12
    ensures m.Some? ==> from < m.value <= 12 && lowered == MonthAbbreviations[m.value - 1]
    ensures m.None? ==> forall i :: from <= i < 12 ==> lowered != MonthAbbreviations[i]
    decreases 12 - from
  {
    if from == 12 then None
    else if lowered == MonthAbbreviations[from] then Some(from + 1)
    else FindMonth(lowered, from + 1)
  }

  /** A date text cut into the pieces a strptime pattern matches:
      `%d`, a whitespace run, `%b`, an optional `,`, a whitespace run, `%Y`.
      (strptime lets each space of a format match one or more whitespace characters.) */
  datatype DateText = DateText(day: string, gap1: string, month: string, comma: bool, gap2: string, year: string)
  {
    predicate WellFormed() {
      && 1 <= |day| <= 2 && All(day, IsDigit)
      && gap1 != [] && All(gap1, IsSpace)
      && |month| == 3 && MonthNumber(month).Some?
      && gap2 != [] && All(gap2, IsSpace)
      && |year| == 4 && All(year, IsDigit)
    }

    function Render(): string {
      day + gap1 + month + (if comma then "," else "") + gap2 + year
    }

    /** The calendar date the pieces name (not necessarily a valid one). */
    function Denotes(): Date
      requires WellFormed()
    {
      Date(DigitsValue(year), MonthNumber(month).value, DigitsValue(day))
    }
  }

  /** The pattern part of `datetime.strptime(t, fmt)`: cut `t` into the pieces of the
      format `"%d %b, %Y"` (`comma`) or `"%d %b %Y"`, consuming the whole text. A day of
      three or more digits, a missing gap, an unknown month, a misplaced comma, a year
      that is not four digits or trailing text all fail. Unlike the `%d` pattern, any one
      or two digits pass here (`0`, `00`, `32` to `99`); such days are refused afterwards
      by `ValidDate`, so the outcome of a parse is the same. */
  function Tokenize(t: string, comma: bool): (r: Option<DateText>)
    ensures r.Some? ==> r.value.WellFormed() && r.value.comma == comma
  {
    var day := Span(t, IsDigit);
    if |day.0| < 1 || |day.0| > 2 then None
    else
      var gap1 := Span(day.1, IsSpace);
      if gap1.0 == [] || |gap1.1| < 3 || MonthNumber(gap1.1[..3]).None? then None
      else
        var afterMonth := gap1.1[3..];
        if comma && (afterMonth == [] || afterMonth[0] != ',') then None
        else
          var gap2 := Span(if comma then afterMonth[1..] else afterMonth, IsSpace);
          if gap2.0 == [] || |gap2.1| != 4 || !All(gap2.1, IsDigit) then None
          else Some(DateText(day.0, gap1.0, gap1.1[..3], comma, gap2.0, gap2.1))
  }

  /** What `Tokenize` cuts out are the pieces of a well-formed date text that
      render back to the input. */
  lemma TokenizeSound(t: string, comma: bool)
    requires Tokenize(t, comma).Some?
    ensures var dt := Tokenize(t, comma).value;
      dt.WellFormed() && dt.comma == comma && dt.Render() == t
  {
    TokenizeRendersBack(t, comma);
  }

  lemma TokenizeRendersBack(t: string, comma: bool)
    requires Tokenize(t, comma).Some?
    ensures Tokenize(t, comma).value.Render() == t
  {
    var day := Span(t, IsDigit);
    var gap1 := Span(day.1, IsSpace);
    var afterMonth := gap1.1[3..];
    var rest := if comma then afterMonth[1..] else afterMonth;
    var gap2 := Span(rest, IsSpace);
    var sep := if comma then "," else "";
    var dt := DateText(day.0, gap1.0, gap1.1[..3], comma, gap2.0, gap2.1);
    assert Tokenize(t, comma).value == dt;
    CutsJoin(t, comma, day, gap1, afterMonth, rest, gap2, sep);
    Assemble(t, day.0, day.1, gap1.0, gap1.1, dt.month, afterMonth, sep, rest, gap2.0, gap2.1);
  }

  /** The cuts `Tokenize` makes, each glued back to what it was cut from. */
  lemma CutsJoin(t: string, comma: bool, day: (string, string), gap1: (string, string),
                 afterMonth: string, rest: string, gap2: (string, string), sep: string)
    requires day == Span(t, IsDigit) && gap1 == Span(day.1, IsSpace)
    requires |gap1.1| >= 3 && afterMonth == gap1.1[3..]
    requires comma ==> afterMonth != [] && afterMonth[0] == ','
    requires rest == (if comma then afterMonth[1..] else afterMonth)
    requires gap2 == Span(rest, IsSpace) && sep == (if comma then "," else "")
    ensures t == day.0 + day.1 && day.1 == gap1.0 + gap1.1 && gap1.1 == gap1.1[..3] + afterMonth
    ensures afterMonth == sep + rest && rest == gap2.0 + gap2.1
  {
    SpanJoin(t, IsDigit);
    SpanJoin(day.1, IsSpace);
    SplitAt(gap1.1, 3);
    SepJoin(comma, afterMonth, rest, sep);
    SpanJoin(rest, IsSpace);
  }

  lemma SpanJoin(s: string, p: char -> bool)
    ensures Span(s, p).0 + Span(s, p).1 == s
  {
  }

  lemma SepJoin(comma: bool, afterMonth: string, rest: string, sep: string)
    requires comma ==> afterMonth != [] && afterMonth[0] == ','
    requires rest == (if comma then afterMonth[1..] else afterMonth)
    requires sep == (if comma then "," else "")
    ensures afterMonth == sep + rest
  {
    if comma {
      CommaFirst(afterMonth);
    } else {
      assert sep == [];
    }
  }

  lemma CommaFirst(s: string)
    requires s != [] && s[0] == ','
    ensures s == "," + s[1..]
  {
    assert ("," + s[1..])[0] == s[0];
  }

  lemma Assemble(t: string, a: string, r1: string, b: string, r2: string, c: string, r3: string,
                 d: string, r4: string, e: string, f: string)
    requires t == a + r1 && r1 == b + r2 && r2 == c + r3 && r3 == d + r4 && r4 == e + f
    ensures t == a + b + c + d + e + f
  {
  }

  /** `datetime.strftime("%Y-%m-%d")`. */
  function Iso(d: Date): (r: string)
    requires ValidDate(d)
    ensures |r| == 10 && r[4] == '-' && r[7] == '-'
  {
    PadDigits(d.year, 4) + "-" + PadDigits(d.month, 2) + "-" + PadDigits(d.day, 2)
  }

  /** The formats of `DATE_INPUT_FORMATS`. */
  datatype DateFormat = DayMonthCommaYear | DayMonthYear  // "%d %b, %Y", "%d %b %Y"

  const DateInputFormats: seq<DateFormat> := [DayMonthCommaYear, DayMonthYear]

  /** One `strptime` attempt followed by `strftime`: the text must fit the format and
      name a real date (the `ValueError` otherwise is caught by the caller). */
  function Attempt(t: string, format: DateFormat): (r: Option<string>)
    ensures r.Some? ==> IsIsoDate(r.value)
  {
    match Tokenize(t, format == DayMonthCommaYear)
    case None => None
    case Some(dt) => if ValidDate(dt.Denotes()) then Some(Iso(dt.Denotes())) else None
  }

  /** The first format that succeeds decides; none succeeding gives `None`. */
  function FirstSuccess(t: string, formats: seq<DateFormat>): (r: Option<string>)
    ensures r.Some? ==> IsIsoDate(r.value)
  {
    if formats == [] then None
    else
      var first := Attempt(t, formats[0]);
      if first.Some? then first else FirstSuccess(t, formats[1..])
  }

  /** No answer exactly when no format fits. */
  lemma {:induction false} FirstSuccessNone(t: string, formats: seq<DateFormat>)
    ensures FirstSuccess(t, formats).None? <==> forall i :: 0 <= i < |formats| ==> Attempt(t, formats[i]).None?
  {
    if formats != [] && Attempt(t, formats[0]).None? {
      FirstSuccessNone(t, formats[1..]);
      assert forall i :: 1 <= i < |formats| ==> formats[1..][i - 1] == formats[i];
    }
  }

  /** `_parse_date`: a normalised date when either format fits the stripped text. */
  function ParseDate(s: string): (r: Option<string>)
    ensures r.Some? ==> IsIsoDate(r.value)
  {
    FirstSuccess(Strip(s), DateInputFormats)
  }

  // ---------------------------------------------------------------------------
  // Properties

  /** Cutting a well-formed date text gives its pieces back, and the text does not
      fit the other format. */
  lemma TokenizeRender(dt: DateText)
    requires dt.WellFormed()
    ensures Tokenize(dt.Render(), dt.comma) == Some(dt)
    ensures Tokenize(dt.Render(), !dt.comma) == None
  {
    TokenizeRenderSame(dt);
    TokenizeRenderOther(dt);
  }

  lemma TokenizeRenderSame(dt: DateText)
    requires dt.WellFormed()
    ensures Tokenize(dt.Render(), dt.comma) == Some(dt)
  {
    var tail := (if dt.comma then "," else "") + (dt.gap2 + dt.year);
    RenderCuts(dt);
    if dt.comma {
      assert tail[0] == ',' && tail[1..] == dt.gap2 + dt.year;
    } else {
      assert tail == dt.gap2 + dt.year;
    }
  }

  lemma TokenizeRenderOther(dt: DateText)
    requires dt.WellFormed()
    ensures Tokenize(dt.Render(), !dt.comma) == None
  {
    var tail := (if dt.comma then "," else "") + (dt.gap2 + dt.year);
    RenderCuts(dt);
    if dt.comma {
      assert tail[0] == ',';
      assert Span(tail, IsSpace).0 == [];
    } else {
      assert tail == dt.gap2 + dt.year;
      assert tail[0] == dt.gap2[0];
    }
  }

  /** Where the greedy cuts of `Tokenize` fall on a rendered date text. */
  lemma RenderCuts(dt: DateText)
    requires dt.WellFormed()
    ensures var tail := (if dt.comma then "," else "") + (dt.gap2 + dt.year);
      && Span(dt.Render(), IsDigit) == (dt.day, dt.gap1 + (dt.month + tail))
      && Span(dt.gap1 + (dt.month + tail), IsSpace) == (dt.gap1, dt.month + tail)
      && (dt.month + tail)[..3] == dt.month && (dt.month + tail)[3..] == tail
      && Span(dt.gap2 + dt.year, IsSpace) == (dt.gap2, dt.year)
  {
    var sep := if dt.comma then "," else "";
    var tail := sep + (dt.gap2 + dt.year);
    var rest1 := dt.gap1 + (dt.month + tail);
    Assemble(dt.Render(), dt.day, rest1, dt.gap1, dt.month + tail, dt.month, tail, sep, dt.gap2 + dt.year, dt.gap2, dt.year);
    assert rest1[0] == dt.gap1[0];
    SpanConcat(dt.day, rest1, IsDigit);
    MonthLetters(dt.month);
    assert (dt.month + tail)[0] == dt.month[0];
    SpanConcat(dt.gap1, dt.month + tail, IsSpace);
    assert !IsSpace(dt.year[0]);
    SpanConcat(dt.gap2, dt.year, IsSpace);
  }

  /** Month tokens are letters, so neither whitespace nor digits. */
  lemma MonthLetters(token: string)
    requires MonthNumber(token).Some?
    ensures |token| == 3 && !IsSpace(token[0]) && !IsDigit(token[0])
  {
    var m := MonthNumber(token).value;
    assert |Lower(token)| == |token|;
    assert Lower(token)[0] == ToLower(token[0]);
    assert 'a' <= MonthAbbreviations[m - 1][0] <= 'z';
  }

  /** Both accepted formats, in any letter case and with any whitespace runs, give the
      zero-padded ISO date when the date is real, and `None` when it is not (the
      30th of February, the 29th of February outside a leap year, day 0, year 0). */
  lemma ParseRendered(dt: DateText)
    requires dt.WellFormed()
    ensures ParseDate(dt.Render()) == if ValidDate(dt.Denotes()) then Some(Iso(dt.Denotes())) else None
  {
    var t := dt.Render();
    RenderTrimmed(dt);
    ParseDateOrder(t);
    AttemptRendered(dt);
  }

  /** A rendered date text starts and ends with a digit, so stripping keeps it. */
  lemma RenderTrimmed(dt: DateText)
    requires dt.WellFormed()
    ensures Strip(dt.Render()) == dt.Render()
  {
    var t := dt.Render();
    assert t[0] == dt.day[0];
    assert t[|t| - 1] == dt.year[3];
    AllAt(dt.year, IsDigit, 3);
    StripTrimmed(t);
  }

  /** The format a date text was written in succeeds exactly on real dates; the other
      one fails. */
  lemma AttemptRendered(dt: DateText)
    requires dt.WellFormed()
    ensures var same := if dt.comma then DayMonthCommaYear else DayMonthYear;
      Attempt(dt.Render(), same) == if ValidDate(dt.Denotes()) then Some(Iso(dt.Denotes())) else None
    ensures var other := if dt.comma then DayMonthYear else DayMonthCommaYear;
      Attempt(dt.Render(), other) == None
  {
    TokenizeRender(dt);
  }

  /** `_parse_date` tries `"%d %b, %Y"` first and falls back to `"%d %b %Y"`. */
  lemma ParseDateOrder(s: string)
    ensures var t := Strip(s);
      ParseDate(s) == if Attempt(t, DayMonthCommaYear).Some? then Attempt(t, DayMonthCommaYear)
                      else Attempt(t, DayMonthYear)
  {
    var t := Strip(s);
    assert DateInputFormats[0] == DayMonthCommaYear;
    assert DateInputFormats[1..] == [DayMonthYear];
    assert FirstSuccess(t, []) == None;
    assert FirstSuccess(t, [DayMonthYear])
        == if Attempt(t, DayMonthYear).Some? then Attempt(t, DayMonthYear) else FirstSuccess(t, []);
  }

  /** Anything `_parse_date` accepts is, once stripped, one of the two formats naming a
      real date, and the answer is that date in ISO form: every other input gives `None`. */
  lemma ParseSound(s: string)
    requires ParseDate(s).Some?
    ensures exists dt: DateText :: dt.WellFormed() && dt.Render() == Strip(s)
              && ValidDate(dt.Denotes()) && ParseDate(s).value == Iso(dt.Denotes())
  {
    var t := Strip(s);
    ParseDateOrder(s);
    var comma := Attempt(t, DayMonthCommaYear).Some?;
    var format := if comma then DayMonthCommaYear else DayMonthYear;
    assert Attempt(t, format).Some? && ParseDate(s) == Attempt(t, format);
    AttemptSome(t, format);
    TokenizeSound(t, comma);
    var dt := Tokenize(t, comma).value;
    assert dt.WellFormed() && dt.Render() == t;
  }

  /** `s` is the `YYYY-MM-DD` text of a real date. */
  ghost predicate IsIsoDate(s: string) {
    exists d: Date :: ValidDate(d) && Iso(d) == s
  }

  lemma AttemptSome(t: string, format: DateFormat)
    requires Attempt(t, format).Some?
    ensures var r := Tokenize(t, format == DayMonthCommaYear);
      r.Some? && ValidDate(r.value.Denotes()) && Attempt(t, format).value == Iso(r.value.Denotes())
  {
  }

  /** The ISO text of a date spells out its year, month and day in fixed positions. */
  lemma IsoFields(d: Date)
    requires ValidDate(d)
    ensures var r := Iso(d);
      && |r| == 10 && r[4] == '-' && r[7] == '-'
      && All(r[..4], IsDigit) && All(r[5..7], IsDigit) && All(r[8..], IsDigit)
      && DigitsValue(r[..4]) == d.year && DigitsValue(r[5..7]) == d.month && DigitsValue(r[8..]) == d.day
  {
    Pow10Small();
    PadSmall(d.year, 4);
    PadSmall(d.month, 2);
    PadSmall(d.day, 2);
    DashedSlices(PadDigits(d.year, 4), PadDigits(d.month, 2), PadDigits(d.day, 2));
  }

  lemma Pow10Small()
    ensures Pow10(2) == 100 && Pow10(4) == 10000
  {
    assert Pow10(1) == 10;
    assert Pow10(3) == 1000;
  }

  lemma PadSmall(n: nat, width: nat)
    requires n < Pow10(width)
    ensures DigitsValue(PadDigits(n, width)) == n
  {
  }

  lemma DashedSlices(y: string, m: string, d: string)
    requires |y| == 4 && |m| == 2 && |d| == 2
    ensures var r := y + "-" + m + "-" + d;
      |r| == 10 && r[4] == '-' && r[7] == '-' && r[..4] == y && r[5..7] == m && r[8..] == d
  {
  }

  /** Different dates get different keys in the daily map. */
  lemma IsoInjective(d1: Date, d2: Date)
    requires ValidDate(d1) && ValidDate(d2) && Iso(d1) == Iso(d2)
    ensures d1 == d2
  {
    IsoFields(d1);
    IsoFields(d2);
  }

  /** The `%Y` digits of the input reappear unchanged as the first four characters
      of the answer. */
  lemma ParseKeepsYearDigits(dt: DateText)
    requires dt.WellFormed() && ValidDate(dt.Denotes())
    ensures Iso(dt.Denotes())[..4] == dt.year
  {
    PadDigitsValue(dt.year);
    IsoFields(dt.Denotes());
  }

  /** The two examples of the accepted formats. */
  lemma ParseExamples()
    ensures ParseDate("03 Sep, 2025") == Some("2025-09-03")
    ensures ParseDate("03 Sep 2025") == Some("2025-09-03")
  {
    ExampleText(true);
    ExampleText(false);
    ParseRendered(DateText("03", " ", "Sep", true, " ", "2025"));
    ParseRendered(DateText("03", " ", "Sep", false, " ", "2025"));
    IsoExample();
  }

  lemma ExampleText(comma: bool)
    ensures var dt := DateText("03", " ", "Sep", comma, " ", "2025");
      && dt.WellFormed() && dt.Denotes() == Date(2025, 9, 3) && ValidDate(dt.Denotes())
      && dt.Render() == if comma then "03 Sep, 2025" else "03 Sep 2025"
  {
    ExampleWellFormed(comma);
    ExampleRender(comma);
    ExampleYear();
    assert DigitsValue("03") == 3;
  }

  lemma ExampleWellFormed(comma: bool)
    ensures DateText("03", " ", "Sep", comma, " ", "2025").WellFormed()
    ensures MonthNumber("Sep") == Some(9)
  {
    MonthOf("Sep", "sep", 9);
  }

  lemma ExampleRender(comma: bool)
    ensures DateText("03", " ", "Sep", comma, " ", "2025").Render()
         == if comma then "03 Sep, 2025" else "03 Sep 2025"
  {
  }

  lemma ExampleYear()
    ensures DigitsValue("2025") == 2025
  {
    assert "2025"[..3] == "202" && "202"[..2] == "20" && "20"[..1] == "2";
    assert DigitsValue("2") == 2;
    assert DigitsValue("20") == 20;
    assert DigitsValue("202") == 202;
  }

  lemma IsoExample()
    ensures Iso(Date(2025, 9, 3)) == "2025-09-03"
  {
    PadYear();
    PadTwo(9, '9');
    PadTwo(3, '3');
  }

  lemma PadYear()
    ensures PadDigits(2025, 4) == "2025"
  {
    assert PadDigits(2, 1) == PadDigits(0, 0) + [DigitChar(2)];
    assert PadDigits(20, 2) == PadDigits(2, 1) + [DigitChar(0)];
    assert PadDigits(202, 3) == PadDigits(20, 2) + [DigitChar(2)];
  }

  lemma PadTwo(n: nat, c: char)
    requires n < 10 && c == DigitChar(n)
    ensures PadDigits(n, 2) == ['0', c]
  {
    assert PadDigits(0, 1) == PadDigits(0, 0) + [DigitChar(0)];
  }

  lemma MonthOf(token: string, lowered: string, m: nat)
    requires |token| == 3 && lowered == [ToLower(token[0]), ToLower(token[1]), ToLower(token[2])]
    requires 1 <= m <= 12 && lowered == MonthAbbreviations[m - 1]
    ensures MonthNumber(token) == Some(m)
  {
    assert Lower(token) == lowered;
    FirstMonth(lowered, m);
  }

  /** Month names are distinct, so the search stops at the one that matches. */
  lemma FirstMonth(lowered: string, m: nat)
    requires 1 <= m <= 12 && lowered == MonthAbbreviations[m - 1]
    ensures FindMonth(lowered, 0) == Some(m)
  {
    var r := FindMonth(lowered, 0);
    assert lowered == MonthAbbreviations[m - 1];
    MonthsDistinct(r.value - 1, m - 1);
  }

  /** No two months share an abbreviation. */
  lemma MonthsDistinct(i: nat, j: nat)
    requires i < 12 && j < 12 && MonthAbbreviations[i] == MonthAbbreviations[j]
    ensures i == j
  {
    var a := MonthAbbreviations[i];
    var b := MonthAbbreviations[j];
    assert a[1] == b[1] && a[2] == b[2];
  }

  /** The leap-year rule decides whether the 29th of February exists; year 0000 is leap
      by the rule but is not a year a `datetime` can hold. */
  lemma ParseLeapDay(year: string)
    requires |year| == 4 && All(year, IsDigit)
    ensures ParseDate("29 Feb " + year).Some? <==> 1 <= DigitsValue(year) && IsLeapYear(DigitsValue(year))
  {
    var dt := DateText("29", " ", "Feb", false, " ", year);
    assert dt.Render() == "29 Feb " + year;
    MonthOf("Feb", "feb", 2);
    assert DigitsValue("29") == 29;
    PadDigitsValue(year);
    assert Pow10(4) == 10000;
    assert All(" ", IsSpace);
    ParseRendered(dt);
  }
}
