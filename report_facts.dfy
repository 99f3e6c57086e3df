/** What the dictionary `calculate_attendance` returns says about its input rows. */
module ReportFacts {
  import opened Wrappers
  import opened Sums
  import opened Aggregate
  import opened ScanFacts
  import opened RowFacts
  import opened Finalise

  /** The overall summary counts every present and absent row, and reports failure
      exactly when there is none. */
  lemma ReportSummary(rows: seq<Row>)
    ensures var o := Finish(Run(Initial, rows)).overall;
      var p := Marks(Kinds(rows), Present);
      var a := Marks(Kinds(rows), Absent);
      && (o.success <==> p + a > 0)
      && (o.success ==> o.present == p && o.absent == a && o.message == None
                        && o.percentage == RoundedPercent(p, p + a) && o.percentage <= 10000)
      && (!o.success ==> o == Overall(0, 0, 0, false, Some("No attendance rows found.")))
  {
    var st := Run(Initial, rows);
    RunTotals(rows);
    FinishFields(st);
    SummaryOf(st.totalPresent, st.totalAbsent);
    assert Finish(st).overall == Summary(st.totalPresent, st.totalAbsent);
  }

  lemma SummaryOf(p: nat, a: nat)
    ensures var o := Summary(p, a);
      && (o.success <==> p + a > 0)
      && (o.success ==> o.present == p && o.absent == a && o.message == None
                        && o.percentage == RoundedPercent(p, p + a) && o.percentage <= 10000)
      && (!o.success ==> o == Overall(0, 0, 0, false, Some("No attendance rows found.")))
  {
  }

  lemma FinishFields(st: State)
    ensures var r := Finish(st);
      && r.subjects == FinaliseAll(st.subjects) && r.subjectOrder == st.subjectOrder
      && r.overall == Summary(st.totalPresent, st.totalAbsent)
      && r.daily == st.daily && r.dayOrder == st.dayOrder && r.streak == Streak(st.daily)
  {
  }

  /** The overall counts are the sums of the daily counts. */
  lemma ReportTotalsAreDailySums(rows: seq<Row>)
    ensures var r := Finish(Run(Initial, rows));
      && Keyed(r.dayOrder, r.daily)
      && (r.overall.success ==>
            r.overall.present == Total(r.daily, r.dayOrder, DayPresent)
            && r.overall.absent == Total(r.daily, r.dayOrder, DayAbsent))
  {
    RunConsistent(rows);
    FinishFields(Run(Initial, rows));
  }

  /** The streak has one colour per daily entry, that is per date of a counted row,
      and a date is red exactly when some row on it is absent. */
  lemma ReportStreak(rows: seq<Row>, date: string)
    ensures var r := Finish(Run(Initial, rows));
      && r.streak.Keys == r.daily.Keys
      && (date in r.streak <==> RowsOn(Kinds(rows), date) > 0)
      && (date in r.streak ==>
            (r.streak[date] == Red <==> MarksOn(Kinds(rows), date, Absent) > 0)
            && r.streak[date].Label() == (if MarksOn(Kinds(rows), date, Absent) > 0 then "red" else "green"))
  {
    RunDays(rows, date);
    FinishFields(Run(Initial, rows));
  }

  /** A finalised subject: no percentage and no flag without rows, otherwise the rounded
      percentage of present rows and the flag its thresholds give. */
  ghost predicate Graded(s: Subject) {
    var t := s.present + s.absent;
    && (t == 0 ==> s.percentage == 0 && s.status == Unflagged)
    && (t > 0 ==> s.percentage == RoundedPercent(s.present, t) && s.percentage <= 10000)
    && (t > 0 ==>
          && (s.status == Shortage <==> 20000 * s.present < 12999 * t)
          && (s.status == Condonation <==> 12999 * t <= 20000 * s.present < 14999 * t)
          && (s.status == Unflagged <==> 14999 * t <= 20000 * s.present))
  }

  /** Every subject in the report is finalised by the threshold rules: a subject with
      no counted rows keeps percentage 0 and no status; the others carry their rounded
      percentage, and their status follows from the exact ratio. */
  lemma ReportSubject(rows: seq<Row>, code: string)
    requires code in Finish(Run(Initial, rows)).subjects
    ensures Graded(Finish(Run(Initial, rows)).subjects[code])
  {
    var st := Run(Initial, rows);
    RunConsistent(rows);
    FinishFields(st);
    var scanned := st.subjects[code];
    assert Unfinalised(scanned);
    FinalisedSubject(scanned);
    assert Finish(st).subjects[code] == FinaliseSubject(scanned);
  }

  lemma FinalisedSubject(scanned: Subject)
    requires Unfinalised(scanned)
    ensures Graded(FinaliseSubject(scanned))
  {
    if scanned.present + scanned.absent > 0 {
      Thresholds(scanned);
    }
  }

  /** The subjects are listed once each in the order first seen, and together they are
      credited no more rows than the overall counts. */
  lemma ReportSubjectTotals(rows: seq<Row>)
    ensures var r := Finish(Run(Initial, rows));
      && Keyed(r.subjectOrder, r.subjects)
      && Total(r.subjects, r.subjectOrder, SubjectPresent) <= Marks(Kinds(rows), Present)
      && Total(r.subjects, r.subjectOrder, SubjectAbsent) <= Marks(Kinds(rows), Absent)
  {
    var st := Run(Initial, rows);
    RunConsistent(rows);
    RunTotals(rows);
    var r := Finish(st);
    FinishFields(st);
    TotalSame(r.subjects, st.subjects, st.subjectOrder, SubjectPresent);
    TotalSame(r.subjects, st.subjects, st.subjectOrder, SubjectAbsent);
  }
}
