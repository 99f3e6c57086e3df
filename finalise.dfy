/** The pass after the scan: each subject's percentage and status, the overall
    summary and the per-day colour. Percentages are kept in hundredths of a
    percent, so `64.99` is `6499`. */
module Finalise {
  import opened Wrappers
  import opened Aggregate

  /** `round(part / whole * 100.0, 2)` in hundredths: the nearest whole number of
      hundredths to `10000 * part / whole`, a half rounding up. */
  function RoundedPercent(part: nat, whole: nat): (r: nat)
    requires whole > 0
    ensures 2 * whole * r <= 20000 * part + whole < 2 * whole * r + 2 * whole
    ensures part <= whole ==> r <= 10000
  {
    QuotientBounds(part, whole);
    (20000 * part + whole) / (2 * whole)
  }

  lemma QuotientBounds(part: nat, whole: nat)
    requires whole > 0
    ensures var r := (20000 * part + whole) / (2 * whole);
      && 2 * whole * r <= 20000 * part + whole < 2 * whole * r + 2 * whole
      && (part <= whole ==> r <= 10000)
  {
    var n := 20000 * part + whole;
    var d := 2 * whole;
    var r := n / d;
    assert n == d * r + n % d;
    if part <= whole && r > 10000 {
      MulMonotone(d, 10001, r);
      assert false;
    }
  }

  lemma MulMonotone(d: nat, a: nat, b: nat)
    requires a <= b
    ensures d * a <= d * b
  {
  }

  /** The rounded percentage is the only one with that property. */
  lemma RoundedPercentUnique(part: nat, whole: nat, r: nat)
    requires whole > 0
    requires 2 * whole * r <= 20000 * part + whole < 2 * whole * r + 2 * whole
    ensures r == RoundedPercent(part, whole)
  {
    var q := RoundedPercent(part, whole);
    var d := 2 * whole;
    if r < q {
      MulMonotone(d, r + 1, q);
    } else if q < r {
      MulMonotone(d, q + 1, r);
    }
  }

  /** A rounded percentage is below `bound` hundredths exactly when the exact
      ratio is below `bound - 1/2` hundredths. */
  lemma RoundedBelow(part: nat, whole: nat, bound: nat)
    requires whole > 0
    ensures RoundedPercent(part, whole) < bound <==> 20000 * part + whole < 2 * whole * bound
  {
    var r := RoundedPercent(part, whole);
    var d := 2 * whole;
    if r < bound {
      MulMonotone(d, r + 1, bound);
    } else {
      MulMonotone(d, bound, r);
    }
  }

  /** Below 65% is a shortage and below 75% calls for condonation; otherwise the
      status is left as it was. */
  function Grade(pct: nat, status: Standing): (r: Standing)
    ensures r == Shortage <==> pct < 6500 || (7500 <= pct && status == Shortage)
    ensures r == Condonation <==> 6500 <= pct < 7500 || (7500 <= pct && status == Condonation)
    ensures 7500 <= pct ==> r == status
  {
    if pct < 6500 then Shortage
    else if pct < 7500 then Condonation
    else status
  }

  /** The body of the loop over the subjects. */
  function FinaliseSubject(s: Subject): (r: Subject)
    ensures r.name == s.name && r.present == s.present && r.absent == s.absent
    ensures s.present + s.absent == 0 ==> r == s
    ensures s.present + s.absent > 0 ==> r.percentage == RoundedPercent(s.present, s.present + s.absent)
  {
    var t := s.present + s.absent;
    if t == 0 then s
    else
      var pct := RoundedPercent(s.present, t);
      s.(percentage := pct, status := Grade(pct, s.status))
  }

  /** Every subject, finalised. */
  function FinaliseAll(subjects: map<string, Subject>): (r: map<string, Subject>)
    ensures r.Keys == subjects.Keys
    ensures forall code :: code in r ==> r[code] == FinaliseSubject(subjects[code])
  {
    map code | code in subjects :: FinaliseSubject(subjects[code])
  }

  /** `result["overall"]`; `message` is present only when nothing was counted. */
  datatype Overall = Overall(present: nat, absent: nat, percentage: nat, success: bool, message: Option<string>)

  const NoRowsMessage := "No attendance rows found."

  /** The overall summary from the two running totals. */
  function Summary(present: nat, absent: nat): (o: Overall)
    ensures o.success <==> present + absent > 0
    ensures o.success ==> o.present == present && o.absent == absent && o.message == None
                          && o.percentage == RoundedPercent(present, present + absent)
    ensures !o.success ==> o == Overall(0, 0, 0, false, Some(NoRowsMessage))
  {
    var total := present + absent;
    if total > 0 then Overall(present, absent, RoundedPercent(present, total), true, None)
    else Overall(0, 0, 0, false, Some(NoRowsMessage))
  }

  /** The colour of a day in the streak. */
  datatype Colour = Red | Green
  {
    function Label(): string {
      match this
      case Red => "red"
      case Green => "green"
    }
  }

  function DayColour(t: Tally): Colour {
    if t.absent > 0 then Red else Green
  }

  /** `result["streak"]`: one colour per date of the daily dictionary. */
  function Streak(daily: map<string, Tally>): (r: map<string, Colour>)
    ensures r.Keys == daily.Keys
    ensures forall date :: date in r ==> (r[date] == Red <==> daily[date].absent > 0)
  {
    map date | date in daily :: DayColour(daily[date])
  }

  /** The dictionary `calculate_attendance` returns; `subjectOrder` and `dayOrder`
      give the iteration order of `subjects`, and of `daily` and `streak`. */
  datatype Report = Report(subjects: map<string, Subject>, subjectOrder: seq<string>,
                           overall: Overall,
                           daily: map<string, Tally>, dayOrder: seq<string>,
                           streak: map<string, Colour>)

  /** The report built from the state the scan ends in. */
  function Finish(st: State): (r: Report)
    ensures r.daily == st.daily && r.dayOrder == st.dayOrder && r.streak.Keys == st.daily.Keys
    ensures r.subjects.Keys == st.subjects.Keys && r.subjectOrder == st.subjectOrder
    ensures r.overall.success <==> st.totalPresent + st.totalAbsent > 0
  {
    Report(FinaliseAll(st.subjects), st.subjectOrder,
           Summary(st.totalPresent, st.totalAbsent),
           st.daily, st.dayOrder, Streak(st.daily))
  }

  /** The status of a subject seen with a non-zero total, in terms of its exact
      present/total ratio: a shortage below 64.995%, condonation from there to
      below 74.995%, and no flag from 74.995% up — the rounded value is compared. */
  lemma Thresholds(s: Subject)
    requires s.status == Unflagged && s.present + s.absent > 0
    ensures var t := s.present + s.absent;
      var r := FinaliseSubject(s);
      && (r.status == Shortage <==> 20000 * s.present < 12999 * t)
      && (r.status == Condonation <==> 12999 * t <= 20000 * s.present < 14999 * t)
      && (r.status == Unflagged <==> 14999 * t <= 20000 * s.present)
  {
    var t := s.present + s.absent;
    RoundedBelow(s.present, t, 6500);
    RoundedBelow(s.present, t, 7500);
  }
}
