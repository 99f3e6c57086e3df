/** What the row scan keeps true and what each kind of row does to its state. */
module ScanFacts {
  import opened Wrappers
  import opened Text
  import opened Dates
  import opened CourseHeader
  import opened Sums
  import opened Aggregate

  function DayPresent(t: Tally): nat { t.present }
  function DayAbsent(t: Tally): nat { t.absent }
  function SubjectPresent(s: Subject): nat { s.present }
  function SubjectAbsent(s: Subject): nat { s.absent }

  /** A subject the finalisation pass has not touched yet. */
  predicate Unfinalised(s: Subject) {
    s.percentage == 0 && s.status == Unflagged
  }

  /** The subjects dictionary: keys in insertion order, the current course among them,
      nothing finalised yet. */
  ghost predicate SubjectsKept(st: State) {
    && Keyed(st.subjectOrder, st.subjects)
    && (st.current.Some? ==> IsCourseCode(st.current.value.code) && st.current.value.code in st.subjects)
    && forall k :: k in st.subjects ==> Unfinalised(st.subjects[k])
  }

  /** The daily dictionary: keys in insertion order, each a normalised date, and the
      running totals equal to the sums of its counts. */
  ghost predicate DaysKept(st: State) {
    && Keyed(st.dayOrder, st.daily)
    && (forall d :: d in st.daily ==> IsIsoDate(d))
    && st.totalPresent == Total(st.daily, st.dayOrder, DayPresent)
    && st.totalAbsent == Total(st.daily, st.dayOrder, DayAbsent)
  }

  /** No subject is credited more rows than the totals count. */
  ghost predicate SubjectsBounded(st: State) {
    && Keyed(st.subjectOrder, st.subjects)
    && Total(st.subjects, st.subjectOrder, SubjectPresent) <= st.totalPresent
    && Total(st.subjects, st.subjectOrder, SubjectAbsent) <= st.totalAbsent
  }

  /** The invariant of the scan. */
  ghost predicate Consistent(st: State) {
    SubjectsKept(st) && DaysKept(st) && SubjectsBounded(st)
  }

  lemma InitialConsistent()
    ensures Consistent(Initial)
  {
  }

  /** `ensure_subject` keeps the subjects keyed, adds nothing to their sums and leaves
      the rest of the state alone. */
  lemma EnsureSubjectKeeps(st: State, code: string, name: string)
    requires Keyed(st.subjectOrder, st.subjects)
    ensures var r := EnsureSubject(st, code, name);
      && Keyed(r.subjectOrder, r.subjects)
      && Total(r.subjects, r.subjectOrder, SubjectPresent) == Total(st.subjects, st.subjectOrder, SubjectPresent)
      && Total(r.subjects, r.subjectOrder, SubjectAbsent) == Total(st.subjects, st.subjectOrder, SubjectAbsent)
      && r.current == st.current && r.daily == st.daily && r.dayOrder == st.dayOrder
      && r.totalPresent == st.totalPresent && r.totalAbsent == st.totalAbsent
  {
    if code !in st.subjects {
      var s := NewSubject(name);
      KeyedAppend(st.subjectOrder, st.subjects, code, s);
      TotalAppend(st.subjects, st.subjectOrder, SubjectPresent, code, s);
      TotalAppend(st.subjects, st.subjectOrder, SubjectAbsent, code, s);
    }
  }

  lemma HeaderConsistent(st: State, c: Course)
    requires Consistent(st) && IsCourseCode(c.code)
    ensures Consistent(EnsureSubject(st.(current := Some(c)), c.code, c.name))
  {
    var st1 := st.(current := Some(c));
    var r := EnsureSubject(st1, c.code, c.name);
    EnsureSubjectKeeps(st1, c.code, c.name);
    EnsureSubjectUnfinalised(st1, c.code, c.name);
    DaysUnchanged(st, r);
  }

  lemma EnsureSubjectUnfinalised(st: State, code: string, name: string)
    requires forall k :: k in st.subjects ==> Unfinalised(st.subjects[k])
    ensures var r := EnsureSubject(st, code, name);
      forall k :: k in r.subjects ==> Unfinalised(r.subjects[k])
  {
  }

  /** The daily part of the invariant depends on nothing else. */
  lemma DaysUnchanged(st: State, r: State)
    requires DaysKept(st)
    requires r.daily == st.daily && r.dayOrder == st.dayOrder
    requires r.totalPresent == st.totalPresent && r.totalAbsent == st.totalAbsent
    ensures DaysKept(r)
  {
  }

  /** Opening a new date adds a zero tally at the end of the order. */
  lemma OpenDayKeeps(st: State, date: string)
    requires DaysKept(st) && IsIsoDate(date)
    ensures var r := OpenDay(st, date);
      DaysKept(r) && date in r.daily && r.subjects == st.subjects && r.subjectOrder == st.subjectOrder
      && r.current == st.current
  {
    if date !in st.daily {
      var t := Tally(0, 0);
      KeyedAppend(st.dayOrder, st.daily, date, t);
      TotalAppend(st.daily, st.dayOrder, DayPresent, date, t);
      TotalAppend(st.daily, st.dayOrder, DayAbsent, date, t);
      OpenDates(st.daily, date, t);
      DaysFrom(OpenDay(st, date), st.daily[date := t], st.dayOrder + [date]);
    }
  }

  lemma OpenDates(daily: map<string, Tally>, date: string, t: Tally)
    requires (forall d :: d in daily ==> IsIsoDate(d)) && IsIsoDate(date)
    ensures forall d :: d in daily[date := t] ==> IsIsoDate(d)
  {
  }

  lemma DaysFrom(r: State, daily: map<string, Tally>, order: seq<string>)
    requires r.daily == daily && r.dayOrder == order
    requires Keyed(order, daily) && (forall d :: d in daily ==> IsIsoDate(d))
    requires r.totalPresent == Total(daily, order, DayPresent)
    requires r.totalAbsent == Total(daily, order, DayAbsent)
    ensures DaysKept(r)
  {
  }

  /** Counting a mark on an open date adds it to that date's tally and to the totals. */
  lemma CountKeeps(st: State, date: string, mark: Mark)
    requires DaysKept(st) && date in st.daily
    ensures var r := Count(st, date, mark);
      DaysKept(r) && r.subjects == st.subjects && r.subjectOrder == st.subjectOrder
      && r.current == st.current
  {
    var t := Bump(st.daily[date], mark);
    TotalUpdate(st.daily, st.dayOrder, DayPresent, date, t);
    TotalUpdate(st.daily, st.dayOrder, DayAbsent, date, t);
    assert forall d :: d in st.daily[date := t] <==> d in st.daily;
  }

  /** Crediting the current subject adds at most the mark to the subject sums. */
  lemma CreditKeeps(st: State, mark: Mark)
    requires SubjectsKept(st)
    ensures var r := Credit(st, mark);
      && SubjectsKept(r)
      && Total(r.subjects, r.subjectOrder, SubjectPresent) <= Total(st.subjects, st.subjectOrder, SubjectPresent) + PresentCount(mark)
      && Total(r.subjects, r.subjectOrder, SubjectAbsent) <= Total(st.subjects, st.subjectOrder, SubjectAbsent) + AbsentCount(mark)
      && r.daily == st.daily && r.dayOrder == st.dayOrder
      && r.totalPresent == st.totalPresent && r.totalAbsent == st.totalAbsent
  {
    if st.current.Some? && st.current.value.code != [] {
      var c := st.current.value;
      assert EnsureSubject(st, c.code, c.name) == st;
      var s' := Credited(st.subjects[c.code], mark);
      TotalUpdate(st.subjects, st.subjectOrder, SubjectPresent, c.code, s');
      TotalUpdate(st.subjects, st.subjectOrder, SubjectAbsent, c.code, s');
      assert forall k :: k in st.subjects[c.code := s'] <==> k in st.subjects;
    }
  }

  lemma RecordConsistent(st: State, e: Entry)
    requires Consistent(st) && IsIsoDate(e.date)
    ensures Consistent(Record(st, e))
  {
    var st1 := OpenDay(st, e.date);
    OpenDayKeeps(st, e.date);
    if e.mark != Unmarked {
      var counted := Count(st1, e.date, e.mark);
      CountKeeps(st1, e.date, e.mark);
      CreditKeeps(counted, e.mark);
      CountedConsistent(st1, counted, Credit(counted, e.mark), e.mark);
    }
  }

  /** The subject bound survives a count followed by a credit. */
  lemma CountedConsistent(st: State, counted: State, r: State, mark: Mark)
    requires Consistent(st) && DaysKept(counted) && SubjectsKept(r) && DaysKept(r)
    requires counted.subjects == st.subjects && counted.subjectOrder == st.subjectOrder
    requires counted.totalPresent == st.totalPresent + PresentCount(mark)
    requires counted.totalAbsent == st.totalAbsent + AbsentCount(mark)
    requires r.totalPresent == counted.totalPresent && r.totalAbsent == counted.totalAbsent
    requires Total(r.subjects, r.subjectOrder, SubjectPresent) <= Total(counted.subjects, counted.subjectOrder, SubjectPresent) + PresentCount(mark)
    requires Total(r.subjects, r.subjectOrder, SubjectAbsent) <= Total(counted.subjects, counted.subjectOrder, SubjectAbsent) + AbsentCount(mark)
    ensures Consistent(r)
  {
  }

  lemma ApplyConsistent(st: State, kind: RowKind)
    requires Consistent(st)
    requires kind.Data? ==> IsIsoDate(kind.entry.date)
    requires kind.Header? ==> IsCourseCode(kind.course.code)
    ensures Consistent(Apply(st, kind))
  {
    match kind
    case Blank =>
    case Skipped =>
    case Header(c) => HeaderConsistent(st, c);
    case Data(e) => RecordConsistent(st, e);
  }

  /** What `Kind` guarantees about the rows it classifies. */
  ghost predicate Plausible(kind: RowKind) {
    && (kind.Data? ==> IsIsoDate(kind.entry.date))
    && (kind.Header? ==> IsCourseCode(kind.course.code))
  }

  lemma StepConsistent(st: State, row: Row)
    requires Consistent(st)
    ensures Consistent(Step(st, row))
  {
    ApplyConsistent(st, Kind(row));
  }

  lemma {:induction false} ScanConsistent(kinds: seq<RowKind>)
    requires forall i :: 0 <= i < |kinds| ==> Plausible(kinds[i])
    ensures Consistent(Scan(Initial, kinds))
  {
    if kinds == [] {
      InitialConsistent();
    } else {
      var init := kinds[..|kinds| - 1];
      assert forall i :: 0 <= i < |init| ==> init[i] == kinds[i];
      ScanConsistent(init);
      ApplyConsistent(Scan(Initial, init), kinds[|kinds| - 1]);
    }
  }

  lemma KindsPlausible(rows: seq<Row>)
    ensures forall i :: 0 <= i < |Kinds(rows)| ==> Plausible(Kinds(rows)[i])
  {
    forall i | 0 <= i < |Kinds(rows)|
      ensures Plausible(Kinds(rows)[i])
    {
      assert Kinds(rows)[i] == Kind(rows[i]);
    }
  }

  /** The invariant holds after every prefix of the rows. */
  lemma RunConsistent(rows: seq<Row>)
    ensures Consistent(Run(Initial, rows))
  {
    KindsPlausible(rows);
    ScanConsistent(Kinds(rows));
  }
}
