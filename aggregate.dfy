/** The row scan of `calculate_attendance`: one left-to-right pass over the scraped
    table rows that tracks the current course, the per-subject and per-day counters and
    the two running totals. This module states the scan as functions; the method in
    module `Attendance` runs it with loops and is proved equal to `Run`. */
module Aggregate {
  import opened Wrappers
  import opened Text
  import opened Dates
  import opened CourseHeader
  import opened Sums

  /** A table row: the text of the whole row and the texts of its `td` cells. */
  datatype Row = Row(text: string, cells: seq<string>)

  /** The counters kept per date. */
  datatype Tally = Tally(present: nat, absent: nat)

  /** The status label of a subject; it stays `""` unless the subject is short. */
  datatype Standing = Unflagged | Condonation | Shortage
  {
    function Label(): string {
      match this
      case Unflagged => ""
      case Condonation => "Condonation"
      case Shortage => "Shortage"
    }
  }

  /** A subject entry; `percentage` is in hundredths of a percent. */
  datatype Subject = Subject(name: string, present: nat, absent: nat, percentage: nat, status: Standing)

  /** How a data row's status cell is counted. */
  datatype Mark = Present | Absent | Unmarked

  /** What a data row contributes: its normalised date and its mark. */
  datatype Entry = Entry(date: string, mark: Mark)

  /** The branch of the scan loop a row takes. */
  datatype RowKind = Blank | Header(course: Course) | Data(entry: Entry) | Skipped

  /** The state carried through the scan. `subjectOrder` and `dayOrder` are the
      insertion orders of the `subjects` and `daily` dictionaries. */
  datatype State = State(current: Option<Course>,
                         subjects: map<string, Subject>, subjectOrder: seq<string>,
                         daily: map<string, Tally>, dayOrder: seq<string>,
                         totalPresent: nat, totalAbsent: nat)

  const Initial := State(None, map[], [], map[], [], 0, 0)

  function NewSubject(name: string): Subject {
    Subject(name, 0, 0, 0, Unflagged)
  }

  /** `ensure_subject`: add a zeroed subject unless the code is already known. */
  function EnsureSubject(st: State, code: string, name: string): (r: State)
    ensures code in r.subjects && r.subjects.Keys == st.subjects.Keys + {code}
    ensures forall k :: k in st.subjects ==> r.subjects[k] == st.subjects[k]
    ensures code !in st.subjects ==> r.subjects[code] == NewSubject(name)
  {
    if code in st.subjects then st
    else st.(subjects := st.subjects[code := NewSubject(name)], subjectOrder := st.subjectOrder + [code])
  }

  /** `[td.text.strip() for td in tds]`. */
  function StripAll(cells: seq<string>): seq<string> {
    seq(|cells|, i requires 0 <= i < |cells| => Strip(cells[i]))
  }

  /** `any("S.NO" in c.upper() for c in cols)`: the row repeats the table heading. */
  function MentionsSerial(cols: seq<string>): (b: bool)
    ensures b <==> exists i :: 0 <= i < |cols| && Contains(Upper(cols[i]), "S.NO")
  {
    if cols == [] then false
    else Contains(Upper(cols[0]), "S.NO") || MentionsSerial(cols[1..])
  }

  /** The status cell, tested for `PRESENT` before `ABSENT`, case-insensitively. */
  function Classify(status: string): (m: Mark)
    ensures m == Present <==> Contains(Upper(status), "PRESENT")
    ensures m == Absent <==> !Contains(Upper(status), "PRESENT") && Contains(Upper(status), "ABSENT")
  {
    var up := Upper(status);
    if Contains(up, "PRESENT") then Present
    else if Contains(up, "ABSENT") then Absent
    else Unmarked
  }

  /** Only the letters of the status cell matter, not their case. */
  lemma ClassifyIgnoresCase(status: string)
    ensures Classify(Lower(status)) == Classify(status)
  {
    UpperOfLower(status);
  }

  /** The tests a non-header row must pass to be counted: five or more cells, no
      `S.NO` heading cell, a serial number starting with a digit and a date that
      parses. Cells 1 and 4 hold the date and the status. */
  function DataEntry(cells: seq<string>): (r: Option<Entry>)
    ensures r.Some? ==> IsIsoDate(r.value.date)
  {
    if |cells| < 5 then None
    else
      var cols := StripAll(cells);
      if MentionsSerial(cols) then None
      else if cols[0] == [] || !IsDigit(cols[0][0]) then None
      else
        match ParseDate(cols[1])
        case None => None
        case Some(key) =>
          Some(Entry(key, Classify(cols[4])))
  }

  /** Which branch of the loop body a row takes, in the order the body tests them. */
  function Kind(row: Row): (r: RowKind)
    ensures r.Data? ==> IsIsoDate(r.entry.date)
    ensures r.Header? ==> IsCourseCode(r.course.code)
  {
    var text := Strip(row.text);
    if text == [] then Blank
    else
      match MatchHeader(text)
      case Some(c) => Header(c)
      case None =>
        match DataEntry(row.cells)
        case None => Skipped
        case Some(e) => Data(e)
  }

  function PresentCount(mark: Mark): nat {
    if mark == Present then 1 else 0
  }

  function AbsentCount(mark: Mark): nat {
    if mark == Absent then 1 else 0
  }

  /** A tally with one more row of the given mark. */
  function Bump(t: Tally, mark: Mark): Tally {
    Tally(t.present + PresentCount(mark), t.absent + AbsentCount(mark))
  }

  /** A subject with one more row of the given mark. */
  function Credited(s: Subject, mark: Mark): Subject {
    s.(present := s.present + PresentCount(mark), absent := s.absent + AbsentCount(mark))
  }

  /** Credit a present or absent row to the current subject, if a header was seen. */
  function Credit(st: State, mark: Mark): (r: State)
    ensures r.current == st.current && r.daily == st.daily && r.dayOrder == st.dayOrder
    ensures r.totalPresent == st.totalPresent && r.totalAbsent == st.totalAbsent
    ensures st.current.None? ==> r == st
    ensures st.current.Some? && st.current.value.code in st.subjects ==> r.subjectOrder == st.subjectOrder
  {
    if st.current.Some? && st.current.value.code != [] then
      var c := st.current.value;
      var st1 := EnsureSubject(st, c.code, c.name);
      st1.(subjects := st1.subjects[c.code := Credited(st1.subjects[c.code], mark)])
    else st
  }

  /** `result["daily"][date_key] = {"present": 0, "absent": 0}` for a new date. */
  function OpenDay(st: State, date: string): (r: State)
    ensures date in r.daily
    ensures date in st.daily ==> r == st
    ensures date !in st.daily ==> r.daily == st.daily[date := Tally(0, 0)] && r.dayOrder == st.dayOrder + [date]
    ensures r.current == st.current && r.subjects == st.subjects && r.subjectOrder == st.subjectOrder
    ensures r.totalPresent == st.totalPresent && r.totalAbsent == st.totalAbsent
  {
    if date in st.daily then st
    else st.(daily := st.daily[date := Tally(0, 0)], dayOrder := st.dayOrder + [date])
  }

  /** Count a present or absent row on an open date and in the totals. */
  function Count(st: State, date: string, mark: Mark): (r: State)
    requires date in st.daily
    ensures r.current == st.current && r.subjects == st.subjects && r.subjectOrder == st.subjectOrder
    ensures date in r.daily && r.dayOrder == st.dayOrder
    ensures r.totalPresent + st.daily[date].present == st.totalPresent + r.daily[date].present
    ensures r.totalAbsent + st.daily[date].absent == st.totalAbsent + r.daily[date].absent
    ensures r.daily[date].present + r.daily[date].absent
            == st.daily[date].present + st.daily[date].absent + (if mark == Unmarked then 0 else 1)
  {
    st.(daily := st.daily[date := Bump(st.daily[date], mark)],
        totalPresent := st.totalPresent + PresentCount(mark),
        totalAbsent := st.totalAbsent + AbsentCount(mark))
  }

  /** A data row: open its date with zero counts if new, then count its mark. */
  function Record(st: State, e: Entry): (r: State)
    ensures e.date in r.daily
    ensures r.totalPresent + r.totalAbsent
            == st.totalPresent + st.totalAbsent + (if e.mark == Unmarked then 0 else 1)
  {
    var st1 := OpenDay(st, e.date);
    if e.mark == Unmarked then st1
    else Credit(Count(st1, e.date, e.mark), e.mark)
  }

  /** What a row of the given kind does to the state. */
  function Apply(st: State, kind: RowKind): (r: State)
    ensures st.daily.Keys <= r.daily.Keys && st.subjects.Keys <= r.subjects.Keys
    ensures st.totalPresent <= r.totalPresent && st.totalAbsent <= r.totalAbsent
    ensures r.totalPresent + r.totalAbsent <= st.totalPresent + st.totalAbsent + 1
    ensures !kind.Data? ==> r.daily == st.daily && r.totalPresent == st.totalPresent
                            && r.totalAbsent == st.totalAbsent
    ensures kind.Data? ==> kind.entry.date in r.daily
  {
    match kind
    case Blank => st
    case Skipped => st
    case Header(c) => EnsureSubject(st.(current := Some(c)), c.code, c.name)
    case Data(e) => Record(st, e)
  }

  /** One iteration of the scan loop. */
  function Step(st: State, row: Row): (r: State)
    ensures Strip(row.text) == [] ==> r == st
    ensures !Kind(row).Data? ==> r.daily == st.daily && r.totalPresent == st.totalPresent
                                 && r.totalAbsent == st.totalAbsent
  {
    Apply(st, Kind(row))
  }

  /** The branch each row takes. */
  function Kinds(rows: seq<Row>): seq<RowKind> {
    Mapped(Kind, rows)
  }

  /** The scan over rows of the given kinds, from the state `st`. */
  function Scan(st: State, kinds: seq<RowKind>): (r: State)
    ensures st.daily.Keys <= r.daily.Keys && st.subjects.Keys <= r.subjects.Keys
    ensures st.totalPresent <= r.totalPresent && st.totalAbsent <= r.totalAbsent
    ensures r.totalPresent + r.totalAbsent <= st.totalPresent + st.totalAbsent + |kinds|
  {
    if kinds == [] then st else Apply(Scan(st, kinds[..|kinds| - 1]), kinds[|kinds| - 1])
  }

  /** The scan over `rows`, from the state `st`. */
  function Run(st: State, rows: seq<Row>): (r: State)
    ensures st.daily.Keys <= r.daily.Keys && st.subjects.Keys <= r.subjects.Keys
    ensures r.totalPresent + r.totalAbsent <= st.totalPresent + st.totalAbsent + |rows|
  {
    Scan(st, Kinds(rows))
  }
}
