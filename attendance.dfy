/** `calculate_attendance`: the scan over the table rows followed by the
    finalisation pass, written as the loops the program runs. */
module Attendance {
  import opened Wrappers
  import opened Text
  import opened Dates
  import opened CourseHeader
  import opened Sums
  import opened Aggregate
  import opened ScanFacts
  import opened RowFacts
  import opened Finalise

  method CalculateAttendance(rows: seq<Row>) returns (result: Report)
    ensures result == Finish(Run(Initial, rows))
  {
    var current: Option<Course> := None;
    var subjects: map<string, Subject> := map[];
    var subjectOrder: seq<string> := [];
    var daily: map<string, Tally> := map[];
    var dayOrder: seq<string> := [];
    var totalPresent: nat := 0;
    var totalAbsent: nat := 0;

    for i := 0 to |rows|
      invariant State(current, subjects, subjectOrder, daily, dayOrder, totalPresent, totalAbsent)
                == Run(Initial, rows[..i])
    {
      var text := Strip(rows[i].text);
      if text == [] {
        BlankRowStep(rows, i);
        continue;
      }

      var header := MatchHeader(text);
      if header.Some? {
        HeaderRowStep(rows, i, header.value);
        current := header;
        var code, name := header.value.code, header.value.name;
        if code !in subjects {
          subjects := subjects[code := NewSubject(name)];
          subjectOrder := subjectOrder + [code];
        }
        continue;
      }

      var tds := rows[i].cells;
      if |tds| < 5 {
        RejectedRowStep(rows, i);
      } else {
        var cols := StripAll(tds);
        if MentionsSerial(cols) {
          RejectedRowStep(rows, i);
          continue;
        }
        var sno, dateCol, statusCol := cols[0], cols[1], cols[4];
        if sno == [] || !IsDigit(sno[0]) {
          RejectedRowStep(rows, i);
          continue;
        }
        var dateKey := ParseDate(dateCol);
        if dateKey.None? {
          RejectedRowStep(rows, i);
          continue;
        }
        var key := dateKey.value;
        DataRowStep(rows, i, Entry(key, Classify(statusCol)));
        subjects, subjectOrder, daily, dayOrder, totalPresent, totalAbsent :=
          CountRow(current, subjects, subjectOrder, daily, dayOrder, totalPresent, totalAbsent, key, Classify(statusCol));
      }
    }
    assert rows[..|rows|] == rows;
    RunConsistent(rows);

    subjects := FinaliseSubjects(subjects, subjectOrder);

    // Overall summary.
    var overall := Overall(0, 0, 0, false, None);
    var overallTotal := totalPresent + totalAbsent;
    if overallTotal > 0 {
      overall := Overall(totalPresent, totalAbsent, RoundedPercent(totalPresent, overallTotal), true, None);
    } else {
      overall := overall.(message := Some(NoRowsMessage));
    }

    var streak := Streaks(daily, dayOrder);

    result := Report(subjects, subjectOrder, overall, daily, dayOrder, streak);
  }

  /** The loop over the subjects: each one with a non-zero total gets its percentage
      and, below the thresholds, its status. */
  method FinaliseSubjects(subjects: map<string, Subject>, subjectOrder: seq<string>)
    returns (finalised: map<string, Subject>)
    requires Keyed(subjectOrder, subjects)
    ensures finalised == FinaliseAll(subjects)
  {
    finalised := subjects;
    for j := 0 to |subjectOrder|
      invariant finalised.Keys == subjects.Keys
      invariant forall code :: code in finalised ==>
        finalised[code] == if code in subjectOrder[..j] then FinaliseSubject(subjects[code]) else subjects[code]
    {
      var code := subjectOrder[j];
      NoDupPrefix(subjectOrder, j);
      assert subjectOrder[..j + 1] == subjectOrder[..j] + [code];
      var sub := finalised[code];
      var t := sub.present + sub.absent;
      if t > 0 {
        sub := sub.(percentage := RoundedPercent(sub.present, t));
        if sub.percentage < 6500 {
          sub := sub.(status := Shortage);
        } else if sub.percentage < 7500 {
          sub := sub.(status := Condonation);
        }
      }
      finalised := finalised[code := sub];
    }
    assert subjectOrder[..|subjectOrder|] == subjectOrder;
  }

  /** The loop over the dates: red for a day with an absence, green otherwise. */
  method Streaks(daily: map<string, Tally>, dayOrder: seq<string>) returns (streak: map<string, Colour>)
    requires Keyed(dayOrder, daily)
    ensures streak == Streak(daily)
  {
    streak := map[];
    for j := 0 to |dayOrder|
      invariant forall date :: date in streak <==> date in dayOrder[..j]
      invariant forall date :: date in streak ==> date in daily && streak[date] == DayColour(daily[date])
    {
      var date := dayOrder[j];
      assert dayOrder[..j + 1] == dayOrder[..j] + [date];
      streak := streak[date := if daily[date].absent > 0 then Red else Green];
    }
    assert dayOrder[..|dayOrder|] == dayOrder;
  }

  /** The branch for a data row with date `key`: give the date a zero entry if it is
      new, then count the status cell as present, absent or neither. */
  method CountRow(current: Option<Course>, subjects: map<string, Subject>, subjectOrder: seq<string>,
                  daily: map<string, Tally>, dayOrder: seq<string>, totalPresent: nat, totalAbsent: nat,
                  key: string, mark: Mark)
    returns (subjects': map<string, Subject>, subjectOrder': seq<string>,
             daily': map<string, Tally>, dayOrder': seq<string>, totalPresent': nat, totalAbsent': nat)
    ensures State(current, subjects', subjectOrder', daily', dayOrder', totalPresent', totalAbsent')
            == Record(State(current, subjects, subjectOrder, daily, dayOrder, totalPresent, totalAbsent),
                      Entry(key, mark))
  {
    ghost var before := State(current, subjects, subjectOrder, daily, dayOrder, totalPresent, totalAbsent);
    subjects', subjectOrder', daily', dayOrder', totalPresent', totalAbsent' :=
      subjects, subjectOrder, daily, dayOrder, totalPresent, totalAbsent;
    if key !in daily' {
      daily' := daily'[key := Tally(0, 0)];
      dayOrder' := dayOrder' + [key];
    }
    ghost var open := State(current, subjects', subjectOrder', daily', dayOrder', totalPresent', totalAbsent');
    assert open == OpenDay(before, key);
    if mark != Unmarked {
      subjects', subjectOrder', daily', totalPresent', totalAbsent' :=
        CountMark(current, subjects', subjectOrder', daily', dayOrder', totalPresent', totalAbsent', key, mark);
      RecordMarked(before, key, mark);
    }
  }

  /** A present row adds one to its date, to the present total and to the current
      subject (if a header was seen); an absent row does the same with the absent
      counters. */
  method CountMark(current: Option<Course>, subjects: map<string, Subject>, subjectOrder: seq<string>,
                   daily: map<string, Tally>, dayOrder: seq<string>, totalPresent: nat, totalAbsent: nat,
                   key: string, mark: Mark)
    returns (subjects': map<string, Subject>, subjectOrder': seq<string>,
             daily': map<string, Tally>, totalPresent': nat, totalAbsent': nat)
    requires key in daily && mark != Unmarked
    ensures State(current, subjects', subjectOrder', daily', dayOrder, totalPresent', totalAbsent')
            == Credit(Count(State(current, subjects, subjectOrder, daily, dayOrder, totalPresent, totalAbsent), key, mark), mark)
  {
    ghost var open := State(current, subjects, subjectOrder, daily, dayOrder, totalPresent, totalAbsent);
    subjects', subjectOrder', daily', totalPresent', totalAbsent' :=
      subjects, subjectOrder, daily, totalPresent, totalAbsent;
    var tally := daily'[key];
    if mark == Present {
      daily' := daily'[key := Tally(tally.present + 1, tally.absent)];
      totalPresent' := totalPresent' + 1;
      BumpPresent(tally);
    } else {
      daily' := daily'[key := Tally(tally.present, tally.absent + 1)];
      totalAbsent' := totalAbsent' + 1;
      BumpAbsent(tally);
    }
    ghost var counted := State(current, subjects', subjectOrder', daily', dayOrder, totalPresent', totalAbsent');
    assert counted == Count(open, key, mark);
    if current.Some? && current.value.code != [] {
      var code := current.value.code;
      if code !in subjects' {
        subjects' := subjects'[code := NewSubject(current.value.name)];
        subjectOrder' := subjectOrder' + [code];
      }
      ghost var ensured := State(current, subjects', subjectOrder', daily', dayOrder, totalPresent', totalAbsent');
      assert ensured == EnsureSubject(counted, code, current.value.name);
      var subject := subjects'[code];
      if mark == Present {
        subjects' := subjects'[code := subject.(present := subject.present + 1)];
        CreditedPresent(subject);
      } else {
        subjects' := subjects'[code := subject.(absent := subject.absent + 1)];
        CreditedAbsent(subject);
      }
      CreditApplies(counted, mark);
    } else {
      CreditSkips(counted, mark);
    }
  }

  lemma BlankRowStep(rows: seq<Row>, i: nat)
    requires i < |rows| && Strip(rows[i].text) == []
    ensures Run(Initial, rows[..i + 1]) == Run(Initial, rows[..i])
  {
    RunSnoc(Initial, rows, i);
  }

  lemma HeaderRowStep(rows: seq<Row>, i: nat, c: Course)
    requires i < |rows| && Strip(rows[i].text) != [] && MatchHeader(Strip(rows[i].text)) == Some(c)
    ensures var st := Run(Initial, rows[..i]);
      Run(Initial, rows[..i + 1]) == EnsureSubject(st.(current := Some(c)), c.code, c.name)
  {
    RunSnoc(Initial, rows, i);
  }

  lemma RejectedRowStep(rows: seq<Row>, i: nat)
    requires i < |rows| && Strip(rows[i].text) != [] && MatchHeader(Strip(rows[i].text)).None?
    requires |rows[i].cells| < 5
          || (var cols := StripAll(rows[i].cells);
              MentionsSerial(cols) || cols[0] == [] || !IsDigit(cols[0][0]) || ParseDate(cols[1]).None?)
    ensures Run(Initial, rows[..i + 1]) == Run(Initial, rows[..i])
  {
    RunSnoc(Initial, rows, i);
    RejectedRowInert(rows[i]);
  }

  lemma DataRowStep(rows: seq<Row>, i: nat, e: Entry)
    requires i < |rows| && Strip(rows[i].text) != [] && MatchHeader(Strip(rows[i].text)).None?
    requires |rows[i].cells| >= 5
    requires var cols := StripAll(rows[i].cells);
      && !MentionsSerial(cols) && cols[0] != [] && IsDigit(cols[0][0])
      && ParseDate(cols[1]) == Some(e.date) && Classify(cols[4]) == e.mark
    ensures Run(Initial, rows[..i + 1]) == Record(Run(Initial, rows[..i]), e)
  {
    RunSnoc(Initial, rows, i);
  }

  lemma RecordMarked(st: State, key: string, mark: Mark)
    requires mark != Unmarked
    ensures Record(st, Entry(key, mark)) == Credit(Count(OpenDay(st, key), key, mark), mark)
  {
  }

  lemma CreditApplies(st: State, mark: Mark)
    requires st.current.Some? && st.current.value.code != []
    ensures var c := st.current.value;
      var ensured := EnsureSubject(st, c.code, c.name);
      Credit(st, mark) == ensured.(subjects := ensured.subjects[c.code := Credited(ensured.subjects[c.code], mark)])
  {
  }

  lemma CreditSkips(st: State, mark: Mark)
    requires !(st.current.Some? && st.current.value.code != [])
    ensures Credit(st, mark) == st
  {
  }

  /** A solver hint for `CountMark`: crediting a present row adds one to the subject's present count. */
  lemma CreditedPresent(s: Subject)
    ensures Credited(s, Present) == s.(present := s.present + 1)
  {
  }

  /** A solver hint for `CountMark`: crediting an absent row adds one to the subject's absent count. */
  lemma CreditedAbsent(s: Subject)
    ensures Credited(s, Absent) == s.(absent := s.absent + 1)
  {
  }

  /** A solver hint for `CountMark`: a present row adds one to the day's present count. */
  lemma BumpPresent(t: Tally)
    ensures Bump(t, Present) == Tally(t.present + 1, t.absent)
  {
  }

  /** A solver hint for `CountMark`: an absent row adds one to the day's absent count. */
  lemma BumpAbsent(t: Tally)
    ensures Bump(t, Absent) == Tally(t.present, t.absent + 1)
  {
  }
}
