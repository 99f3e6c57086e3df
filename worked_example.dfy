/** The attendance page of one course with two classes, run through the whole
    aggregator: a course header, a present row on 3 September 2025 and an absent row
    on 4 September 2025. */
module WorkedExample {
  import opened Wrappers
  import opened Text
  import opened Dates
  import opened CourseHeader
  import opened Aggregate
  import opened RowFacts
  import opened Finalise

  const HeaderText29 := "ACSD29 - Engineering Design Project"
  const HeaderRow := Row(HeaderText29, [HeaderText29])
  const FirstClass := Row("1 03 Sep, 2025 6 topic PRESENT", ["1", "03 Sep, 2025", "6", "topic", "PRESENT"])
  const SecondClass := Row("2 04 Sep, 2025 6 topic ABSENT", ["2", "04 Sep, 2025", "6", "topic", "ABSENT"])

  const Course29 := Course("ACSD29", "Engineering Design Project")
  const Third := "2025-09-03"
  const Fourth := "2025-09-04"

  /** One subject at 50%, which is a shortage; one green and one red day; the overall
      summary succeeds with one present and one absent row. */
  lemma ExampleReport(rows: seq<Row>)
    requires rows == [HeaderRow, FirstClass, SecondClass]
    ensures var r := Finish(Run(Initial, rows));
      && r.subjects == map["ACSD29" := Subject("Engineering Design Project", 1, 1, 5000, Shortage)]
      && r.daily == map[Third := Tally(1, 0), Fourth := Tally(0, 1)]
      && r.overall == Overall(1, 1, 5000, true, None)
      && r.streak == map[Third := Green, Fourth := Red]
  {
    var k1, k2, k3 := Header(Course29), Data(Entry(Third, Present)), Data(Entry(Fourth, Absent));
    KindsOfRows(rows, k1, k2, k3);
    ScanThree(Initial, k1, k2, k3);
    var st := ScanOfExample(k1, k2, k3);
    FinishExample(st);
  }

  /** The branch each of the three rows takes. */
  lemma KindsOfRows(rows: seq<Row>, k1: RowKind, k2: RowKind, k3: RowKind)
    requires rows == [HeaderRow, FirstClass, SecondClass]
    requires k1 == Header(Course29)
    requires k2 == Data(Entry(Third, Present)) && k3 == Data(Entry(Fourth, Absent))
    ensures Kinds(rows) == [k1, k2, k3]
  {
    HeaderKind();
    FirstKind();
    SecondKind();
    KindsOfThree(rows, k1, k2, k3);
  }

  lemma KindsOfThree(rows: seq<Row>, k1: RowKind, k2: RowKind, k3: RowKind)
    requires |rows| == 3 && Kind(rows[0]) == k1 && Kind(rows[1]) == k2 && Kind(rows[2]) == k3
    ensures Kinds(rows) == [k1, k2, k3]
  {
    KindsAt(rows, k1, k2, k3);
    ThreeOf(Kinds(rows), k1, k2, k3);
  }

  lemma KindsAt(rows: seq<Row>, k1: RowKind, k2: RowKind, k3: RowKind)
    requires |rows| == 3 && Kind(rows[0]) == k1 && Kind(rows[1]) == k2 && Kind(rows[2]) == k3
    ensures |Kinds(rows)| == 3 && Kinds(rows)[0] == k1 && Kinds(rows)[1] == k2 && Kinds(rows)[2] == k3
  {
  }

  lemma ThreeOf(ks: seq<RowKind>, k1: RowKind, k2: RowKind, k3: RowKind)
    requires |ks| == 3 && ks[0] == k1 && ks[1] == k2 && ks[2] == k3
    ensures ks == [k1, k2, k3]
  {
  }

  lemma ScanThree(st: State, k1: RowKind, k2: RowKind, k3: RowKind)
    ensures Scan(st, [k1, k2, k3]) == Apply(Apply(Apply(st, k1), k2), k3)
  {
    assert [k1, k2, k3] == [k1, k2] + [k3];
    assert [k1, k2] == [k1] + [k2];
    assert [k1] == [] + [k1];
    ScanSnoc(st, [k1, k2], k3);
    ScanSnoc(st, [k1], k2);
    ScanSnoc(st, [], k1);
  }

  /** The state after the header, the present row and the absent row. */
  lemma ScanOfExample(k1: RowKind, k2: RowKind, k3: RowKind) returns (st: State)
    requires k1 == Header(Course29)
    requires k2 == Data(Entry(Third, Present)) && k3 == Data(Entry(Fourth, Absent))
    ensures Apply(Apply(Apply(Initial, k1), k2), k3) == st
    ensures st.subjects == map["ACSD29" := Subject("Engineering Design Project", 1, 1, 0, Unflagged)]
    ensures st.daily == map[Third := Tally(1, 0), Fourth := Tally(0, 1)]
    ensures st.totalPresent == 1 && st.totalAbsent == 1
  {
    var s := NewSubject(Course29.name);
    var st1 := State(Some(Course29), map["ACSD29" := s], ["ACSD29"], map[], [], 0, 0);
    AfterHeader(k1, st1);
    var st2 := State(Some(Course29), map["ACSD29" := s.(present := 1)], ["ACSD29"],
                     map[Third := Tally(1, 0)], [Third], 1, 0);
    AfterPresent(st1, k2, st2);
    st := State(Some(Course29), map["ACSD29" := s.(present := 1, absent := 1)], ["ACSD29"],
                map[Third := Tally(1, 0), Fourth := Tally(0, 1)], [Third, Fourth], 1, 1);
    AfterAbsent(st2, k3, st);
  }

  lemma AfterHeader(k1: RowKind, st1: State)
    requires k1 == Header(Course29)
    requires st1 == State(Some(Course29), map["ACSD29" := NewSubject(Course29.name)], ["ACSD29"], map[], [], 0, 0)
    ensures Apply(Initial, k1) == st1
  {
  }

  lemma AfterPresent(st1: State, k2: RowKind, st2: State)
    requires st1 == State(Some(Course29), map["ACSD29" := NewSubject(Course29.name)], ["ACSD29"], map[], [], 0, 0)
    requires k2 == Data(Entry(Third, Present))
    requires st2 == State(Some(Course29), map["ACSD29" := NewSubject(Course29.name).(present := 1)], ["ACSD29"],
                          map[Third := Tally(1, 0)], [Third], 1, 0)
    ensures Apply(st1, k2) == st2
  {
    var o := OpenDay(st1, Third);
    assert o == st1.(daily := map[Third := Tally(0, 0)], dayOrder := [Third]);
    var c := Count(o, Third, Present);
    assert c == o.(daily := map[Third := Tally(1, 0)], totalPresent := 1);
    assert EnsureSubject(c, "ACSD29", Course29.name) == c;
    assert Credit(c, Present) == st2;
  }

  lemma AfterAbsent(st2: State, k3: RowKind, st: State)
    requires st2 == State(Some(Course29), map["ACSD29" := NewSubject(Course29.name).(present := 1)], ["ACSD29"],
                          map[Third := Tally(1, 0)], [Third], 1, 0)
    requires k3 == Data(Entry(Fourth, Absent))
    requires st == State(Some(Course29), map["ACSD29" := NewSubject(Course29.name).(present := 1, absent := 1)],
                         ["ACSD29"], map[Third := Tally(1, 0), Fourth := Tally(0, 1)], [Third, Fourth], 1, 1)
    ensures Apply(st2, k3) == st
  {
    DatesDiffer();
    var o := OpenDay(st2, Fourth);
    assert o == st2.(daily := map[Third := Tally(1, 0), Fourth := Tally(0, 0)], dayOrder := [Third, Fourth]);
    var c := Count(o, Fourth, Absent);
    assert c == o.(daily := map[Third := Tally(1, 0), Fourth := Tally(0, 1)], totalAbsent := 1);
    assert EnsureSubject(c, "ACSD29", Course29.name) == c;
    assert Credit(c, Absent) == st;
  }

  lemma DatesDiffer()
    ensures Third != Fourth
  {
    assert Third[9] != Fourth[9];
  }

  /** The finalisation pass on that state. */
  lemma FinishExample(st: State)
    requires st.subjects == map["ACSD29" := Subject("Engineering Design Project", 1, 1, 0, Unflagged)]
    requires st.daily == map[Third := Tally(1, 0), Fourth := Tally(0, 1)]
    requires st.totalPresent == 1 && st.totalAbsent == 1
    ensures var r := Finish(st);
      && r.subjects == map["ACSD29" := Subject("Engineering Design Project", 1, 1, 5000, Shortage)]
      && r.daily == map[Third := Tally(1, 0), Fourth := Tally(0, 1)]
      && r.overall == Overall(1, 1, 5000, true, None)
      && r.streak == map[Third := Green, Fourth := Red]
  {
    assert RoundedPercent(1, 2) == 5000;
    var r := Finish(st);
    assert r.subjects.Keys == {"ACSD29"};
    DatesDiffer();
    assert r.streak.Keys == {Third, Fourth};
  }

  // ---------------------------------------------------------------------------
  // The rows one by one

  lemma HeaderKind()
    ensures Kind(HeaderRow) == Header(Course29)
  {
    HeaderTextTrimmed(HeaderText29);
    HeaderExample(HeaderText29);
  }

  lemma HeaderTextTrimmed(s: string)
    requires s == "ACSD29 - Engineering Design Project"
    ensures Strip(s) == s
  {
    StripTrimmed(s);
  }

  lemma FirstKind()
    ensures Kind(FirstClass) == Data(Entry(Third, Present))
  {
    var cells := FirstClass.cells;
    ClassCells(cells, "1", "03 Sep, 2025", "PRESENT");
    ParseExamples();
    PresentStatus("PRESENT");
    DataEntryOf(cells, Third);
    DataRowKind(FirstClass, Entry(Third, Present));
  }

  lemma SecondKind()
    ensures Kind(SecondClass) == Data(Entry(Fourth, Absent))
  {
    var cells := SecondClass.cells;
    ClassCells(cells, "2", "04 Sep, 2025", "ABSENT");
    ParseFourth();
    AbsentStatus("ABSENT");
    DataEntryOf(cells, Fourth);
    DataRowKind(SecondClass, Entry(Fourth, Absent));
  }

  lemma PresentStatus(s: string)
    requires s == "PRESENT"
    ensures Classify(s) == Present
  {
    assert Upper(s) == s;
    assert s[..7] == s;
  }

  lemma AbsentStatus(s: string)
    requires s == "ABSENT"
    ensures Classify(s) == Absent
  {
    assert Upper(s) == s;
    assert !Contains(s, "PRESENT");
    assert s[..6] == s;
  }

  /** The cells of a class row: trimmed, free of `S.NO`, a serial digit first. */
  lemma ClassCells(cells: seq<string>, serial: string, date: string, status: string)
    requires serial == "1" || serial == "2"
    requires date == "03 Sep, 2025" || date == "04 Sep, 2025"
    requires status == "PRESENT" || status == "ABSENT"
    requires cells == [serial, date, "6", "topic", status]
    ensures StripAll(cells) == cells && !MentionsSerial(cells)
    ensures IsDigit(cells[0][0])
  {
    forall i | 0 <= i < |cells|
      ensures Strip(cells[i]) == cells[i] && !Contains(Upper(cells[i]), "S.NO")
    {
      PlainCell(cells[i]);
    }
    assert StripAll(cells) == cells;
  }

  /** A cell that starts and ends with a letter or digit and holds no full stop. */
  lemma PlainCell(c: string)
    requires c in ["1", "2", "03 Sep, 2025", "04 Sep, 2025", "6", "topic", "PRESENT", "ABSENT"]
    ensures Strip(c) == c && !Contains(Upper(c), "S.NO")
  {
    assert c != [] && !IsSpace(c[0]) && !IsSpace(c[|c| - 1]);
    StripTrimmed(c);
    assert forall i :: 0 <= i < |c| ==> c[i] != '.';
    NoDot(c);
  }

  /** A text without a full stop cannot hold `S.NO`, in any letter case. */
  lemma NoDot(s: string)
    requires forall i :: 0 <= i < |s| ==> s[i] != '.'
    ensures !Contains(Upper(s), "S.NO")
  {
    NoDotNoSerial(Upper(s));
  }

  lemma {:induction false} NoDotNoSerial(s: string)
    requires forall i :: 0 <= i < |s| ==> s[i] != '.'
    ensures !Contains(s, "S.NO")
    decreases |s|
  {
    if 4 <= |s| {
      assert s[..4] != "S.NO" by {
        assert s[..4][1] == s[1];
      }
      NoDotNoSerial(s[1..]);
    }
  }

  /** The data-row tests, passed. */
  lemma DataEntryOf(cells: seq<string>, date: string)
    requires |cells| >= 5 && StripAll(cells) == cells && !MentionsSerial(cells)
    requires cells[0] != [] && IsDigit(cells[0][0]) && ParseDate(cells[1]) == Some(date)
    ensures DataEntry(cells) == Some(Entry(date, Classify(cells[4])))
  {
  }

  /** A row whose text starts with a digit is not a header, so its cells decide. */
  lemma DataRowKind(row: Row, e: Entry)
    requires row == FirstClass || row == SecondClass
    requires DataEntry(row.cells) == Some(e)
    ensures Kind(row) == Data(e)
  {
    var t := row.text;
    assert t[0] == '1' || t[0] == '2';
    assert !IsSpace(t[|t| - 1]);
    StripTrimmed(t);
    NoHeaderWithoutCapital(t);
  }

  /** `"04 Sep, 2025"` is the fourth of September 2025. */
  lemma ParseFourth()
    ensures ParseDate("04 Sep, 2025") == Some(Fourth)
  {
    var dt := DateText("04", " ", "Sep", true, " ", "2025");
    FourthText(dt);
    ParseRendered(dt);
    IsoFourth();
  }

  lemma FourthText(dt: DateText)
    requires dt == DateText("04", " ", "Sep", true, " ", "2025")
    ensures dt.WellFormed() && dt.Denotes() == Date(2025, 9, 4) && ValidDate(dt.Denotes())
    ensures dt.Render() == "04 Sep, 2025"
  {
    MonthOf("Sep", "sep", 9);
    ExampleYear();
    assert DigitsValue("04") == 4;
  }

  lemma IsoFourth()
    ensures Iso(Date(2025, 9, 4)) == Fourth
  {
    PadYear();
    PadTwo(9, '9');
    PadTwo(4, '4');
  }
}
