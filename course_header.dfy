/** The course-header test of `calculate_attendance`: the regular expression
    `^\s*([A-Z]{2,}\d+)\s*[-:–]\s*(.+)$` applied with `re.match` to a row's
    stripped text, giving the course code (group 1) and the stripped name (group 2). */
module CourseHeader {
  import opened Wrappers
  import opened Text

  datatype Course = Course(code: string, name: string)

  /** The separator class `[-:–]`: hyphen, colon or en dash. */
  predicate IsSeparator(c: char) {
    c == '-' || c == ':' || c as int == 0x2013
  }

  /** What `.` matches without `re.DOTALL`. */
  predicate NotNewline(c: char) {
    c != '\n'
  }

  /** `[A-Z]{2,}\d+`: two or more capital letters, then one or more digits. */
  predicate IsCourseCode(code: string) {
    var letters := Span(code, IsUpper);
    |letters.0| >= 2 && letters.1 != [] && All(letters.1, IsDigit)
  }

  /** `\s*(.+)$` on what follows the separator, with the backtracking of `re`: the
      group is what is left after the whitespace, up to the end of the text or to a
      final line feed (where `$` also matches), and no line feed may come before that.
      When only whitespace is left, `\s*` gives back its last character (or the one
      before a final line feed) to `.+`. */
  function NameGroup(rest: string): (r: Option<string>)
    ensures r.Some? ==> r.value != [] && All(r.value, NotNewline)
  {
    var gap := Span(rest, IsSpace);
    var t := gap.1;
    if t != [] then
      if All(t, NotNewline) then Some(t)
      else if t[|t| - 1] == '\n' && All(t[..|t| - 1], NotNewline) then Some(t[..|t| - 1])
      else None
    else if gap.0 == [] then None
    else if gap.0[|gap.0| - 1] != '\n' then Some([gap.0[|gap.0| - 1]])
    else if |gap.0| >= 2 && gap.0[|gap.0| - 2] != '\n' then Some([gap.0[|gap.0| - 2]])
    else None
  }

  /** `re.match(pattern, text)` with `group(1).strip()` and `group(2).strip()`. The
      greedy runs `[A-Z]{2,}` and `\d+` cannot give anything back that the next part
      of the pattern would accept, so cutting at the end of each run is exact. The code
      it returns is a course code and the name is already stripped. */
  function MatchHeader(text: string): (r: Option<Course>)
    ensures r.Some? ==> IsCourseCode(r.value.code) && Strip(r.value.name) == r.value.name
  {
    MatchLetters(Span(text, IsSpace).1)
  }

  /** `[A-Z]{2,}` and what follows, after the leading whitespace. */
  function MatchLetters(s: string): (r: Option<Course>)
    ensures r.Some? ==> IsCourseCode(r.value.code) && Strip(r.value.name) == r.value.name
  {
    var letters := Span(s, IsUpper);
    if |letters.0| < 2 then None else MatchDigits(letters.0, letters.1)
  }

  /** `\d+` after the capital letters, completing the code. */
  function MatchDigits(letters: string, s: string): (r: Option<Course>)
    requires |letters| >= 2 && All(letters, IsUpper)
    ensures r.Some? ==> IsCourseCode(r.value.code) && Strip(r.value.name) == r.value.name
  {
    var digits := Span(s, IsDigit);
    if digits.0 == [] then None
    else
      CodeCuts(letters, digits.0);
      MatchSeparator(letters + digits.0, digits.1)
  }

  /** `\s*[-:–]\s*(.+)$` after the code. */
  function MatchSeparator(code: string, s: string): (r: Option<Course>)
    ensures r.Some? ==> r.value.code == code && Strip(r.value.name) == r.value.name
  {
    var gap := Span(s, IsSpace);
    if gap.1 == [] || !IsSeparator(gap.1[0]) then None
    else
      match NameGroup(gap.1[1..])
      case None => None
      case Some(name) =>
        StripIdempotent(name);
        Some(Course(code, Strip(name)))
  }

  /** A header line cut into the pieces of the pattern. */
  datatype HeaderText = HeaderText(lead: string, letters: string, digits: string, gap1: string,
                                   sep: char, gap2: string, name: string)
  {
    predicate WellFormed() {
      && All(lead, IsSpace)
      && |letters| >= 2 && All(letters, IsUpper)
      && digits != [] && All(digits, IsDigit)
      && All(gap1, IsSpace) && IsSeparator(sep) && All(gap2, IsSpace)
      && name != [] && !IsSpace(name[0]) && All(name, NotNewline)
    }

    function Render(): string {
      lead + letters + digits + gap1 + [sep] + gap2 + name
    }
  }

  // ---------------------------------------------------------------------------
  // Properties

  /** Every header line is recognised, with its code and its stripped name. */
  lemma MatchRendered(h: HeaderText)
    requires h.WellFormed()
    ensures MatchHeader(h.Render()) == Some(Course(h.letters + h.digits, Strip(h.name)))
  {
    var afterSep := h.gap2 + h.name;
    var afterDigits := h.gap1 + ([h.sep] + afterSep);
    var afterLetters := h.digits + afterDigits;
    var afterLead := h.letters + afterLetters;
    HeaderSplit(h.Render(), h, afterLead, afterLetters, afterDigits, [h.sep] + afterSep, afterSep);
    assert afterLead[0] == h.letters[0];
    LeadStage(h.lead, afterLead);
    assert afterLetters[0] == h.digits[0];
    LettersStage(h.letters, afterLetters);
    if h.gap1 != [] {
      assert afterDigits[0] == h.gap1[0];
    } else {
      assert afterDigits[0] == h.sep;
    }
    DigitsStage(h.letters, h.digits, afterDigits);
    SeparatorStage(h.letters + h.digits, h.gap1, h.sep, afterSep);
    NameGroupOf(h.gap2, h.name);
  }

  /** The leading whitespace is skipped. */
  lemma LeadStage(lead: string, s: string)
    requires All(lead, IsSpace) && (s == [] || !IsSpace(s[0]))
    ensures MatchHeader(lead + s) == MatchLetters(s)
  {
    SpanConcat(lead, s, IsSpace);
  }

  /** A run of two or more capitals is the start of the code. */
  lemma LettersStage(letters: string, s: string)
    requires |letters| >= 2 && All(letters, IsUpper) && (s == [] || !IsUpper(s[0]))
    ensures MatchLetters(letters + s) == MatchDigits(letters, s)
  {
    SpanConcat(letters, s, IsUpper);
  }

  /** The digit run that follows ends the code. */
  lemma DigitsStage(letters: string, digits: string, s: string)
    requires |letters| >= 2 && All(letters, IsUpper)
    requires digits != [] && All(digits, IsDigit) && (s == [] || !IsDigit(s[0]))
    ensures MatchDigits(letters, digits + s) == MatchSeparator(letters + digits, s)
  {
    SpanConcat(digits, s, IsDigit);
  }

  /** Whitespace and a separator hand the rest to the name group. */
  lemma SeparatorStage(code: string, gap: string, sep: char, rest: string)
    requires All(gap, IsSpace) && IsSeparator(sep)
    ensures MatchSeparator(code, gap + ([sep] + rest))
         == if NameGroup(rest).Some? then Some(Course(code, Strip(NameGroup(rest).value))) else None
  {
    SpanConcat(gap, [sep] + rest, IsSpace);
    assert ([sep] + rest)[1..] == rest;
  }

  /** After the separator, whitespace followed by a name on one line gives that name. */
  lemma NameGroupOf(gap: string, name: string)
    requires All(gap, IsSpace) && name != [] && !IsSpace(name[0]) && All(name, NotNewline)
    ensures NameGroup(gap + name) == Some(name)
  {
    SpanConcat(gap, name, IsSpace);
  }

  lemma CodeCuts(letters: string, digits: string)
    requires |letters| >= 2 && All(letters, IsUpper) && digits != [] && All(digits, IsDigit)
    ensures IsCourseCode(letters + digits)
  {
    SpanConcat(letters, digits, IsUpper);
  }

  /** On a stripped text (the only kind the scan gives it) the matcher accepts nothing
      but header lines: whatever it accepts is a rendered header, and the course it
      returns is that header's code and stripped name. */
  lemma MatchSound(text: string)
    requires text == [] || !IsSpace(text[|text| - 1])
    requires MatchHeader(text).Some?
    ensures exists h: HeaderText :: h.WellFormed() && h.Render() == text
              && MatchHeader(text) == Some(Course(h.letters + h.digits, Strip(h.name)))
  {
    var lead, afterLead := LeadSound(text);
    var letters, afterLetters := LettersSound(afterLead);
    var digits, afterDigits := DigitsSound(letters, afterLetters);
    var gap1, sep, afterSep := SeparatorSound(letters + digits, afterDigits);
    var gap2 := Span(afterSep, IsSpace).0;
    var name := Span(afterSep, IsSpace).1;
    var h := HeaderText(lead, letters, digits, gap1, sep, gap2, name);
    HeaderSplit(text, h, afterLead, afterLetters, afterDigits, [sep] + afterSep, afterSep);
    var pre := lead + letters + digits + gap1 + [sep];
    HeaderPrefix(text, h, pre, afterSep);
    NameGroupTrimmed(text, pre, afterSep, gap2, name);
    assert h.WellFormed();
  }

  lemma LeadSound(text: string) returns (lead: string, s: string)
    ensures text == lead + s && All(lead, IsSpace) && (s == [] || !IsSpace(s[0]))
    ensures MatchHeader(text) == MatchLetters(s)
  {
    lead, s := Span(text, IsSpace).0, Span(text, IsSpace).1;
  }

  lemma LettersSound(s: string) returns (letters: string, rest: string)
    requires MatchLetters(s).Some?
    ensures s == letters + rest && |letters| >= 2 && All(letters, IsUpper)
    ensures MatchLetters(s) == MatchDigits(letters, rest)
  {
    letters, rest := Span(s, IsUpper).0, Span(s, IsUpper).1;
  }

  lemma DigitsSound(letters: string, s: string) returns (digits: string, rest: string)
    requires |letters| >= 2 && All(letters, IsUpper)
    requires MatchDigits(letters, s).Some?
    ensures s == digits + rest && digits != [] && All(digits, IsDigit)
    ensures MatchDigits(letters, s) == MatchSeparator(letters + digits, rest)
  {
    digits, rest := Span(s, IsDigit).0, Span(s, IsDigit).1;
  }

  lemma SeparatorSound(code: string, s: string) returns (gap: string, sep: char, rest: string)
    requires MatchSeparator(code, s).Some?
    ensures s == gap + ([sep] + rest) && All(gap, IsSpace) && IsSeparator(sep)
    ensures NameGroup(rest).Some? && MatchSeparator(code, s) == Some(Course(code, Strip(NameGroup(rest).value)))
  {
    var cut := Span(s, IsSpace);
    assert cut.1 != [] && IsSeparator(cut.1[0]);
    gap, sep, rest := cut.0, cut.1[0], cut.1[1..];
    assert NameGroup(rest).Some?;
    SeparatorJoin(s, gap, cut.1);
  }

  lemma SeparatorJoin(s: string, gap: string, tail: string)
    requires s == gap + tail && tail != []
    ensures s == gap + ([tail[0]] + tail[1..])
  {
    assert tail == [tail[0]] + tail[1..];
  }

  /** The pieces cut by `MatchHeader` render back to the text. */
  lemma HeaderSplit(text: string, h: HeaderText, r1: string, r2: string, r3: string, r4: string, r5: string)
    requires text == h.lead + r1 && r1 == h.letters + r2 && r2 == h.digits + r3
    requires r3 == h.gap1 + r4 && r4 == [h.sep] + r5 && r5 == h.gap2 + h.name
    ensures h.Render() == text
  {
  }

  lemma HeaderPrefix(text: string, h: HeaderText, pre: string, rest: string)
    requires h.Render() == text && rest == h.gap2 + h.name
    requires pre == h.lead + h.letters + h.digits + h.gap1 + [h.sep]
    ensures text == pre + rest
  {
  }

  /** With no trailing whitespace, what follows the separator is whitespace and then a
      one-line name. */
  lemma NameGroupTrimmed(text: string, pre: string, rest: string, gap: string, name: string)
    requires text == [] || !IsSpace(text[|text| - 1])
    requires text == pre + rest && rest == gap + name && All(gap, IsSpace)
    requires name == [] || !IsSpace(name[0])
    requires NameGroup(rest).Some?
    ensures name != [] && All(name, NotNewline) && NameGroup(rest) == Some(name)
  {
    SpanConcat(gap, name, IsSpace);
    if name == [] {
      assert rest == gap;
      assert text[|text| - 1] == rest[|rest| - 1];
      AllAt(gap, IsSpace, |gap| - 1);
    } else {
      assert text[|text| - 1] == name[|name| - 1] by {
        assert rest[|rest| - 1] == name[|name| - 1];
      }
    }
  }

  /** A text whose first character is neither whitespace nor a capital letter (a data
      row starting with its serial number, say) is never a header. */
  lemma NoHeaderWithoutCapital(text: string)
    requires text != [] && !IsSpace(text[0]) && !IsUpper(text[0])
    ensures MatchHeader(text) == None
  {
    assert Span(text, IsSpace).0 == [];
    assert Span(text, IsUpper).0 == [];
  }

  /** A typical course header line. */
  lemma HeaderExample(text: string)
    requires text == "ACSD29 - Engineering Design Project"
    ensures MatchHeader(text) == Some(Course("ACSD29", "Engineering Design Project"))
  {
    var h := HeaderText("", "ACSD", "29", " ", '-', " ", "Engineering Design Project");
    ExampleRender(h);
    ExampleMatch(h);
  }

  lemma ExampleMatch(h: HeaderText)
    requires h == HeaderText("", "ACSD", "29", " ", '-', " ", "Engineering Design Project")
    ensures MatchHeader(h.Render()) == Some(Course("ACSD29", "Engineering Design Project"))
  {
    ExampleWellFormed(h);
    ExampleParts(h);
    MatchRendered(h);
  }

  lemma ExampleParts(h: HeaderText)
    requires h == HeaderText("", "ACSD", "29", " ", '-', " ", "Engineering Design Project")
    ensures h.letters + h.digits == "ACSD29" && Strip(h.name) == "Engineering Design Project"
  {
    StripTrimmed(h.name);
  }

  lemma ExampleRender(h: HeaderText)
    requires h == HeaderText("", "ACSD", "29", " ", '-', " ", "Engineering Design Project")
    ensures h.Render() == "ACSD29 - Engineering Design Project"
  {
  }

  lemma ExampleWellFormed(h: HeaderText)
    requires h == HeaderText("", "ACSD", "29", " ", '-', " ", "Engineering Design Project")
    ensures h.WellFormed()
  {
    assert All("ACSD", IsUpper) by {
      assert All("D", IsUpper) && All("SD", IsUpper) && All("CSD", IsUpper);
    }
    assert All("29", IsDigit) by {
      assert All("9", IsDigit);
    }
    assert All(" ", IsSpace);
    ExampleName(h.name);
  }

  lemma ExampleName(name: string)
    requires name == "Engineering Design Project"
    ensures All(name, NotNewline)
  {
    assert |name| == 26;
    assert forall i :: 0 <= i < |name| ==> name[i] != '\n';
    AllIntro(name, NotNewline);
  }
}
