/** What each kind of row does to the scan, and what the whole scan computes,
    stated against independent counts over the rows. */
module RowFacts {
  import opened Wrappers
  import opened Text
  import opened Dates
  import opened CourseHeader
  import opened Sums
  import opened Aggregate
  import opened ScanFacts

  // ---------------------------------------------------------------------------
  // Single rows

  /** The counts of a date, zero before its first row. */
  function TallyOn(daily: map<string, Tally>, date: string): Tally {
    if date in daily then daily[date] else Tally(0, 0)
  }

  /** A row that is blank or fails the data-row tests contributes nothing. */
  predicate Inert(row: Row) {
    Kind(row).Blank? || Kind(row).Skipped?
  }

  /** The rows the scan skips: not a header, and fewer than five cells, a `S.NO`
      heading cell, a serial cell that is empty or does not start with a digit, or a
      date cell that does not parse. */
  lemma RejectedRowInert(row: Row)
    requires Strip(row.text) != [] && MatchHeader(Strip(row.text)).None?
    requires |row.cells| < 5
          || (var cols := StripAll(row.cells);
              MentionsSerial(cols) || cols[0] == [] || !IsDigit(cols[0][0]) || ParseDate(cols[1]).None?)
    ensures Inert(row) && forall st :: Step(st, row) == st
  {
  }

  /** A header row makes its course current and registers it; it never touches the
      daily counts, the totals, or the entries of known subjects. */
  lemma HeaderStep(st: State, row: Row, c: Course)
    requires Kind(row) == Header(c)
    ensures var r := Step(st, row);
      && r.current == Some(c)
      && r.daily == st.daily && r.dayOrder == st.dayOrder
      && r.totalPresent == st.totalPresent && r.totalAbsent == st.totalAbsent
      && r.subjects.Keys == st.subjects.Keys + {c.code}
      && (forall k :: k in st.subjects ==> r.subjects[k] == st.subjects[k])
      && (c.code !in st.subjects ==> r.subjects[c.code] == NewSubject(c.name)
                                      && r.subjectOrder == st.subjectOrder + [c.code])
      && (c.code in st.subjects ==> r.subjectOrder == st.subjectOrder)
  {
    StepIs(st, row, Header(c));
    EnsureSubjectFields(st.(current := Some(c)), c.code, c.name);
  }

  lemma StepIs(st: State, row: Row, k: RowKind)
    requires Kind(row) == k
    ensures Step(st, row) == Apply(st, k)
  {
  }

  /** `ensure_subject` touches nothing but the subjects. */
  lemma EnsureSubjectFields(st: State, code: string, name: string)
    ensures var r := EnsureSubject(st, code, name);
      && r.current == st.current && r.daily == st.daily && r.dayOrder == st.dayOrder
      && r.totalPresent == st.totalPresent && r.totalAbsent == st.totalAbsent
      && (code in st.subjects ==> r == st)
      && (code !in st.subjects ==> r.subjectOrder == st.subjectOrder + [code])
  {
  }

  /** A repeated header only switches the current course. */
  lemma RepeatedHeader(st: State, row: Row, c: Course)
    requires Kind(row) == Header(c) && c.code in st.subjects
    ensures Step(st, row) == st.(current := Some(c))
  {
    StepIs(st, row, Header(c));
  }

  /** A counted row opens its date with zero counts if it is new, adds its mark to
      that date and to the totals (at most one of the two), and credits the current
      subject, if any. Nothing else changes. */
  lemma DataStep(st: State, row: Row, e: Entry)
    requires st.current.Some? ==> IsCourseCode(st.current.value.code) && st.current.value.code in st.subjects
    requires Kind(row) == Data(e)
    ensures var r := Step(st, row);
      var before := TallyOn(st.daily, e.date);
      && r.current == st.current
      && r.daily == st.daily[e.date := Bump(before, e.mark)]
      && r.dayOrder == (if e.date in st.daily then st.dayOrder else st.dayOrder + [e.date])
      && r.totalPresent == st.totalPresent + PresentCount(e.mark)
      && r.totalAbsent == st.totalAbsent + AbsentCount(e.mark)
      && r.totalPresent + r.totalAbsent <= st.totalPresent + st.totalAbsent + 1
      && r.subjectOrder == st.subjectOrder
      && r.subjects == (if st.current.Some? && e.mark != Unmarked
                        then st.subjects[st.current.value.code := Credited(st.subjects[st.current.value.code], e.mark)]
                        else st.subjects)
  {
    StepIs(st, row, Data(e));
    RecordDays(st, e);
    RecordSubjects(st, e);
  }

  /** A data row whose status is neither present nor absent still opens its date: the
      entry exists afterwards, with the counts it had (zero for a new date), and
      nothing else changes. */
  lemma UnmarkedStep(st: State, row: Row, e: Entry)
    requires Kind(row) == Data(e) && e.mark == Unmarked
    ensures var r := Step(st, row);
      && e.date in r.daily && r.daily[e.date] == TallyOn(st.daily, e.date)
      && (e.date !in st.daily ==> r.daily[e.date] == Tally(0, 0))
      && r.current == st.current && r.subjects == st.subjects && r.subjectOrder == st.subjectOrder
      && r.totalPresent == st.totalPresent && r.totalAbsent == st.totalAbsent
  {
    StepIs(st, row, Data(e));
    RecordUnmarked(st, e);
    OpenDayFields(st, e.date);
    if e.date in st.daily {
      TallyOnPresent(st.daily, e.date);
    } else {
      TallyOnAbsent(st.daily, e.date);
      LookupSame(st.daily, e.date, Tally(0, 0));
    }
  }

  /** What a counted row does to the dates and the totals. */
  lemma RecordDays(st: State, e: Entry)
    ensures var r := Record(st, e);
      var before := TallyOn(st.daily, e.date);
      && r.current == st.current
      && r.daily == st.daily[e.date := Bump(before, e.mark)]
      && r.dayOrder == (if e.date in st.daily then st.dayOrder else st.dayOrder + [e.date])
      && r.totalPresent == st.totalPresent + PresentCount(e.mark)
      && r.totalAbsent == st.totalAbsent + AbsentCount(e.mark)
  {
    if e.mark == Unmarked {
      RecordDaysUnmarked(st, e);
    } else {
      RecordDaysMarked(st, e);
    }
  }

  lemma RecordDaysUnmarked(st: State, e: Entry)
    requires e.mark == Unmarked
    ensures var r := Record(st, e);
      && r.current == st.current
      && r.daily == st.daily[e.date := Bump(TallyOn(st.daily, e.date), e.mark)]
      && r.dayOrder == (if e.date in st.daily then st.dayOrder else st.dayOrder + [e.date])
      && r.totalPresent == st.totalPresent + PresentCount(e.mark)
      && r.totalAbsent == st.totalAbsent + AbsentCount(e.mark)
  {
    assert PresentCount(e.mark) == 0 && AbsentCount(e.mark) == 0;
    RecordUnmarked(st, e);
    OpenUnmarked(st, e.date, e.mark);
  }

  lemma OpenUnmarked(st: State, date: string, mark: Mark)
    requires mark == Unmarked
    ensures var r := OpenDay(st, date);
      && r.current == st.current
      && r.daily == st.daily[date := Bump(TallyOn(st.daily, date), mark)]
      && r.dayOrder == (if date in st.daily then st.dayOrder else st.dayOrder + [date])
      && r.totalPresent == st.totalPresent + PresentCount(mark)
      && r.totalAbsent == st.totalAbsent + AbsentCount(mark)
  {
    var r := OpenDay(st, date);
    assert PresentCount(mark) == 0 && AbsentCount(mark) == 0;
    UnmarkedDay(st.daily, date, mark);
    if date in st.daily {
      assert r == st;
    } else {
      assert r.daily == st.daily[date := Tally(0, 0)];
    }
  }

  lemma RecordUnmarked(st: State, e: Entry)
    requires e.mark == Unmarked
    ensures Record(st, e) == OpenDay(st, e.date)
  {
  }

  lemma RecordDaysMarked(st: State, e: Entry)
    requires e.mark != Unmarked
    ensures var r := Record(st, e);
      && r.current == st.current
      && r.daily == st.daily[e.date := Bump(TallyOn(st.daily, e.date), e.mark)]
      && r.dayOrder == (if e.date in st.daily then st.dayOrder else st.dayOrder + [e.date])
      && r.totalPresent == st.totalPresent + PresentCount(e.mark)
      && r.totalAbsent == st.totalAbsent + AbsentCount(e.mark)
  {
    var st1 := OpenDay(st, e.date);
    OpenDayFields(st, e.date);
    var counted := Count(st1, e.date, e.mark);
    assert Record(st, e) == Credit(counted, e.mark);
    CreditFields(counted, e.mark);
    assert counted.daily == st1.daily[e.date := Bump(st1.daily[e.date], e.mark)];
    BumpOpened(st.daily, st1.daily, e.date, e.mark);
  }

  /** An unmarked row leaves its date's counts as they were (zero for a new date). */
  lemma UnmarkedDay(daily: map<string, Tally>, date: string, mark: Mark)
    requires mark == Unmarked
    ensures daily[date := Bump(TallyOn(daily, date), mark)] == if date in daily then daily else daily[date := Tally(0, 0)]
  {
    var t := TallyOn(daily, date);
    BumpUnmarked(t, mark);
    if date in daily {
      TallyOnPresent(daily, date);
      UpdateSame(daily, date, Bump(t, mark), daily[date]);
      SelfUpdate(daily, date);
    } else {
      TallyOnAbsent(daily, date);
      UpdateSame(daily, date, Bump(t, mark), Tally(0, 0));
    }
  }

  /** A solver hint for `UnmarkedDay`: an unmarked row bumps nothing. */
  lemma BumpUnmarked(t: Tally, mark: Mark)
    requires mark == Unmarked
    ensures Bump(t, mark) == t
  {
  }

  /** A solver hint for `UnmarkedStep`, `UnmarkedDay` and `BumpOpened`: a known date reads its own tally. */
  lemma TallyOnPresent(daily: map<string, Tally>, date: string)
    requires date in daily
    ensures TallyOn(daily, date) == daily[date]
  {
  }

  /** A solver hint for `UnmarkedStep`, `UnmarkedDay` and `BumpOpened`: a new date reads 0/0. */
  lemma TallyOnAbsent(daily: map<string, Tally>, date: string)
    requires date !in daily
    ensures TallyOn(daily, date) == Tally(0, 0)
  {
  }

  /** A solver hint for `UnmarkedDay`: writing back an entry's own value leaves the map as it was. */
  lemma SelfUpdate(m: map<string, Tally>, k: string)
    requires k in m
    ensures m[k := m[k]] == m
  {
    assert m[k := m[k]].Keys == m.Keys;
  }

  /** Counting on the opened entry is counting on the entry, zero if it was new. */
  lemma BumpOpened(daily: map<string, Tally>, open: map<string, Tally>, date: string, mark: Mark)
    requires open == if date in daily then daily else daily[date := Tally(0, 0)]
    ensures open[date := Bump(open[date], mark)] == daily[date := Bump(TallyOn(daily, date), mark)]
  {
    if date in daily {
      TallyOnPresent(daily, date);
      UpdateSame(daily, date, Bump(open[date], mark), Bump(TallyOn(daily, date), mark));
    } else {
      TallyOnAbsent(daily, date);
      assert open[date] == Tally(0, 0);
      Override(daily, date, Tally(0, 0), Bump(Tally(0, 0), mark));
      UpdateSame(daily, date, Bump(TallyOn(daily, date), mark), Bump(Tally(0, 0), mark));
    }
  }

  /** A solver hint for `BumpOpened`: the second write to a key wins. */
  lemma Override(m: map<string, Tally>, k: string, a: Tally, b: Tally)
    ensures m[k := a][k := b] == m[k := b]
  {
    assert m[k := a][k := b].Keys == m[k := b].Keys;
  }

  /** A solver hint for `UnmarkedDay` and `BumpOpened`: equal values give equal updated maps. */
  lemma UpdateSame(m: map<string, Tally>, k: string, a: Tally, b: Tally)
    requires a == b
    ensures m[k := a] == m[k := b]
  {
  }

  /** A solver hint for `UnmarkedStep`, `RecordDaysMarked` and `RecordSubjects`: the whole new state of `OpenDay`, field by field. */
  lemma OpenDayFields(st: State, date: string)
    ensures var r := OpenDay(st, date);
      && r.current == st.current && r.subjects == st.subjects && r.subjectOrder == st.subjectOrder
      && r.totalPresent == st.totalPresent && r.totalAbsent == st.totalAbsent
      && r.daily == (if date in st.daily then st.daily else st.daily[date := Tally(0, 0)])
      && r.dayOrder == (if date in st.daily then st.dayOrder else st.dayOrder + [date])
  {
  }

  /** Crediting a subject touches nothing but the subjects. */
  lemma CreditFields(st: State, mark: Mark)
    ensures var r := Credit(st, mark);
      && r.current == st.current && r.daily == st.daily && r.dayOrder == st.dayOrder
      && r.totalPresent == st.totalPresent && r.totalAbsent == st.totalAbsent
  {
  }

  /** What a counted row does to the subjects. */
  lemma RecordSubjects(st: State, e: Entry)
    requires st.current.Some? ==> IsCourseCode(st.current.value.code) && st.current.value.code in st.subjects
    ensures var r := Record(st, e);
      && r.subjectOrder == st.subjectOrder
      && r.subjects == (if st.current.Some? && e.mark != Unmarked
                        then st.subjects[st.current.value.code := Credited(st.subjects[st.current.value.code], e.mark)]
                        else st.subjects)
  {
    OpenDayFields(st, e.date);
    if e.mark != Unmarked {
      var counted := Count(OpenDay(st, e.date), e.date, e.mark);
      CreditShape(counted, e.mark);
    }
  }

  lemma CreditShape(st: State, mark: Mark)
    requires st.current.Some? ==> IsCourseCode(st.current.value.code) && st.current.value.code in st.subjects
    ensures var r := Credit(st, mark);
      && r.subjectOrder == st.subjectOrder
      && r.subjects == (if st.current.Some?
                        then st.subjects[st.current.value.code := Credited(st.subjects[st.current.value.code], mark)]
                        else st.subjects)
  {
    if st.current.Some? {
      var c := st.current.value;
      assert c.code != [];
      assert EnsureSubject(st, c.code, c.name) == st;
    }
  }

  // ---------------------------------------------------------------------------
  // Whole runs

  lemma KindsConcat(a: seq<Row>, b: seq<Row>)
    ensures Kinds(a + b) == Kinds(a) + Kinds(b)
  {
    MappedConcat(Kind, a, b);
  }

  /** The scan of two batches of rows is the scan of the second from where the first
      left off. */
  lemma RunConcat(st: State, a: seq<Row>, b: seq<Row>)
    ensures Run(st, a + b) == Run(Run(st, a), b)
  {
    KindsConcat(a, b);
    ScanConcat(st, Kinds(a), Kinds(b));
  }

  lemma {:induction false} ScanConcat(st: State, a: seq<RowKind>, b: seq<RowKind>)
    ensures Scan(st, a + b) == Scan(Scan(st, a), b)
  {
    if b == [] {
      assert a + b == a;
    } else {
      assert (a + b)[..|a + b| - 1] == a + b[..|b| - 1];
      assert (a + b)[|a + b| - 1] == b[|b| - 1];
      ScanConcat(st, a, b[..|b| - 1]);
    }
  }

  /** One more row is one more step of the scan. */
  lemma RunSnoc(st: State, rows: seq<Row>, i: nat)
    requires i < |rows|
    ensures Run(st, rows[..i + 1]) == Step(Run(st, rows[..i]), rows[i])
  {
    assert rows[..i + 1] == rows[..i] + [rows[i]];
    KindsConcat(rows[..i], [rows[i]]);
    MappedSingle(Kind, rows[i]);
    ScanSnoc(st, Kinds(rows[..i]), Kind(rows[i]));
  }

  lemma ScanSnoc(st: State, kinds: seq<RowKind>, k: RowKind)
    ensures Scan(st, kinds + [k]) == Apply(Scan(st, kinds), k)
  {
    assert (kinds + [k])[..|kinds|] == kinds;
  }

  /** Rows that are blank or rejected can be dropped from anywhere in the input. */
  lemma InertRowAnywhere(st: State, a: seq<Row>, row: Row, b: seq<Row>)
    requires Inert(row)
    ensures Run(st, a + [row] + b) == Run(st, a + b)
  {
    RunConcat(st, a + [row], b);
    RunConcat(st, a, [row]);
    RunConcat(st, a, b);
    InertRun(Run(st, a), row);
  }

  lemma InertRun(st: State, row: Row)
    requires Inert(row)
    ensures Run(st, [row]) == st
  {
    MappedSingle(Kind, row);
    ScanInert(st, Kind(row));
  }

  lemma ScanInert(st: State, k: RowKind)
    requires k.Blank? || k.Skipped?
    ensures Scan(st, [k]) == st
  {
    assert [k][..0] == [];
  }

  /** The number of counted rows dated `date` with the given mark. */
  function MarksOn(kinds: seq<RowKind>, date: string, mark: Mark): nat {
    if kinds == [] then 0
    else
      var last := kinds[|kinds| - 1];
      MarksOn(kinds[..|kinds| - 1], date, mark) + (if last.Data? && last.entry.date == date && last.entry.mark == mark then 1 else 0)
  }

  /** The number of counted rows with the given mark. */
  function Marks(kinds: seq<RowKind>, mark: Mark): nat {
    if kinds == [] then 0
    else
      var last := kinds[|kinds| - 1];
      Marks(kinds[..|kinds| - 1], mark) + (if last.Data? && last.entry.mark == mark then 1 else 0)
  }

  /** The number of counted rows dated `date`, whatever their mark. */
  function RowsOn(kinds: seq<RowKind>, date: string): nat {
    if kinds == [] then 0
    else
      var last := kinds[|kinds| - 1];
      RowsOn(kinds[..|kinds| - 1], date) + (if last.Data? && last.entry.date == date then 1 else 0)
  }

  /** The totals count the present and the absent rows. */
  lemma {:induction false} ScanTotals(kinds: seq<RowKind>)
    ensures Scan(Initial, kinds).totalPresent == Marks(kinds, Present)
    ensures Scan(Initial, kinds).totalAbsent == Marks(kinds, Absent)
  {
    if kinds != [] {
      var init := kinds[..|kinds| - 1];
      ScanTotals(init);
      ApplyTotals(Scan(Initial, init), kinds[|kinds| - 1]);
    }
  }

  lemma ApplyTotals(st: State, k: RowKind)
    ensures Apply(st, k).totalPresent == st.totalPresent + (if k.Data? && k.entry.mark == Present then 1 else 0)
    ensures Apply(st, k).totalAbsent == st.totalAbsent + (if k.Data? && k.entry.mark == Absent then 1 else 0)
  {
    if k.Data? {
      ApplyData(st, k.entry);
      RecordDays(st, k.entry);
    }
  }

  lemma ApplyHeader(st: State, c: Course)
    ensures Apply(st, Header(c)) == EnsureSubject(st.(current := Some(c)), c.code, c.name)
  {
  }

  lemma ApplyData(st: State, e: Entry)
    ensures Apply(st, Data(e)) == Record(st, e)
  {
  }

  /** The daily entry of `date` after `n` counted rows on it, `p` present and `a`
      absent: present exactly when `n > 0`, and then holding `p` and `a`. */
  ghost predicate DayRecord(daily: map<string, Tally>, date: string, n: nat, p: nat, a: nat) {
    && (date in daily <==> n > 0)
    && TallyOn(daily, date) == Tally(p, a)
  }

  /** The daily dictionary after a row of the given kind. */
  function NextDaily(daily: map<string, Tally>, k: RowKind): map<string, Tally> {
    if k.Data? then daily[k.entry.date := Bump(TallyOn(daily, k.entry.date), k.entry.mark)] else daily
  }

  /** A date has an entry exactly when some counted row carries it, and its counts are
      the numbers of present and absent rows on that date. */
  lemma {:induction false} ScanDays(kinds: seq<RowKind>, date: string)
    ensures DayRecord(Scan(Initial, kinds).daily, date, RowsOn(kinds, date),
                      MarksOn(kinds, date, Present), MarksOn(kinds, date, Absent))
  {
    if kinds != [] {
      var init := kinds[..|kinds| - 1];
      var k := kinds[|kinds| - 1];
      var st := Scan(Initial, init);
      ScanDays(init, date);
      ApplyDaily(st, k);
      if k.Data? && k.entry.date == date {
        CountsHere(kinds, date);
        DayHere(st.daily, k.entry, RowsOn(init, date), MarksOn(init, date, Present), MarksOn(init, date, Absent));
      } else {
        CountsElsewhere(kinds, date);
        DayElsewhere(st.daily, k, date, RowsOn(init, date), MarksOn(init, date, Present), MarksOn(init, date, Absent));
      }
    }
  }

  lemma DayHere(daily: map<string, Tally>, e: Entry, n: nat, p: nat, a: nat)
    requires DayRecord(daily, e.date, n, p, a)
    ensures DayRecord(NextDaily(daily, Data(e)), e.date, n + 1, p + PresentCount(e.mark), a + AbsentCount(e.mark))
  {
    var t := Bump(TallyOn(daily, e.date), e.mark);
    BumpCounts(TallyOn(daily, e.date), p, a, e.mark);
    LookupSame(daily, e.date, t);
  }

  lemma DayElsewhere(daily: map<string, Tally>, k: RowKind, date: string, n: nat, p: nat, a: nat)
    requires DayRecord(daily, date, n, p, a) && !(k.Data? && k.entry.date == date)
    ensures DayRecord(NextDaily(daily, k), date, n, p, a)
  {
    if k.Data? {
      LookupOther(daily, k.entry.date, Bump(TallyOn(daily, k.entry.date), k.entry.mark), date);
    }
  }

  lemma CountsHere(kinds: seq<RowKind>, date: string)
    requires kinds != [] && kinds[|kinds| - 1].Data? && kinds[|kinds| - 1].entry.date == date
    ensures var init := kinds[..|kinds| - 1];
      var mark := kinds[|kinds| - 1].entry.mark;
      && RowsOn(kinds, date) == RowsOn(init, date) + 1
      && MarksOn(kinds, date, Present) == MarksOn(init, date, Present) + PresentCount(mark)
      && MarksOn(kinds, date, Absent) == MarksOn(init, date, Absent) + AbsentCount(mark)
  {
  }

  lemma CountsElsewhere(kinds: seq<RowKind>, date: string)
    requires kinds != [] && !(kinds[|kinds| - 1].Data? && kinds[|kinds| - 1].entry.date == date)
    ensures var init := kinds[..|kinds| - 1];
      && RowsOn(kinds, date) == RowsOn(init, date)
      && MarksOn(kinds, date, Present) == MarksOn(init, date, Present)
      && MarksOn(kinds, date, Absent) == MarksOn(init, date, Absent)
  {
  }

  /** A solver hint for `UnmarkedStep` and `DayHere`: the written key reads the written value. */
  lemma LookupSame(m: map<string, Tally>, k: string, v: Tally)
    ensures k in m[k := v] && m[k := v][k] == v
  {
  }

  /** A solver hint for `DayElsewhere`: writing one key leaves every other key as it was. */
  lemma LookupOther(m: map<string, Tally>, k: string, v: Tally, d: string)
    requires d != k
    ensures (d in m[k := v] <==> d in m) && (d in m ==> m[k := v][d] == m[d])
  {
  }

  /** Only a counted row changes the daily dictionary, and only at its own date. */
  lemma ApplyDaily(st: State, k: RowKind)
    ensures Apply(st, k).daily == NextDaily(st.daily, k)
  {
    match k
    case Blank =>
    case Skipped =>
    case Header(c) =>
      ApplyHeader(st, c);
      EnsureSubjectFields(st.(current := Some(c)), c.code, c.name);
    case Data(e) => ApplyDataDaily(st, e);
  }

  lemma ApplyDataDaily(st: State, e: Entry)
    ensures Apply(st, Data(e)).daily == NextDaily(st.daily, Data(e))
  {
    ApplyData(st, e);
    RecordDays(st, e);
  }

  lemma BumpCounts(before: Tally, p: nat, a: nat, mark: Mark)
    requires before == Tally(p, a)
    ensures Bump(before, mark) == Tally(p + PresentCount(mark), a + AbsentCount(mark))
  {
  }

  /** The overall totals are the numbers of present and absent rows. */
  lemma RunTotals(rows: seq<Row>)
    ensures Run(Initial, rows).totalPresent == Marks(Kinds(rows), Present)
    ensures Run(Initial, rows).totalAbsent == Marks(Kinds(rows), Absent)
  {
    ScanTotals(Kinds(rows));
  }

  /** The daily entries are the dates of the counted rows, with their counts. */
  lemma RunDays(rows: seq<Row>, date: string)
    ensures date in Run(Initial, rows).daily <==> RowsOn(Kinds(rows), date) > 0
    ensures date in Run(Initial, rows).daily ==>
      Run(Initial, rows).daily[date] == Tally(MarksOn(Kinds(rows), date, Present), MarksOn(Kinds(rows), date, Absent))
  {
    ScanDays(Kinds(rows), date);
  }
}
