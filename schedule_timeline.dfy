/**
 * The review schedule timeline of components/review-schedule-timeline.tsx:
 * eight constant phases whose day is a number or a label, and the date each
 * one shows. Dates are day numbers; the locale formatting is not modelled.
 */
module ScheduleTimeline {
  import opened Text

  /** `day: number | string` of a phase. */
  datatype DayOffset = Days(n: int) | Label(s: string)

  /** A phase of the timeline; its name and description are display text only. */
  datatype Phase = Phase(day: DayOffset)

  const Phases: seq<Phase> := [
    Phase(Days(1)),
    Phase(Label("2-4")),
    Phase(Days(11)),
    Phase(Label("18, 25, 32")),
    Phase(Days(62)),
    Phase(Label("92, 122, 152")),
    Phase(Days(517)),
    Phase(Label("Years 2, 3, 4"))]

  /** What `calculateDate` returns: a date, or the label itself. */
  datatype Shown = ShownDate(day: int) | ShownLabel(s: string)

  /** `calculateDate`: a numeric offset `d` counts from the start date as
      day 1, so the date shown is `d - 1` days after it; a label is passed
      through. The start date is a value here, so the copy the code makes
      before `setDate` leaves it as it was. */
  function CalculateDate(startDay: int, d: DayOffset): (r: Shown)
    ensures d.Days? ==> r == ShownDate(startDay + d.n - 1)
    ensures d.Label? ==> r == ShownLabel(d.s)
  {
    match d
    case Days(n) => ShownDate(startDay + n - 1)
    case Label(s) => ShownLabel(s)
  }

  /** Day 1 is the start date itself, and the offset moves the date one for
      one. */
  lemma CalculateDateShifts(startDay: int, a: int, b: int)
    ensures CalculateDate(startDay, Days(1)) == ShownDate(startDay)
    ensures CalculateDate(startDay, Days(b)).day - CalculateDate(startDay, Days(a)).day == b - a
  {
  }

  /** The argument at the call site: a label is cut at its first comma and
      trimmed, a number is passed as is. */
  function CallSiteArg(d: DayOffset): (r: DayOffset)
    ensures d.Days? ==> r == d
    ensures d.Label? ==> r.Label? && r.s == Trim(Split(d.s, ",")[0])
  {
    match d
    case Days(_) => d
    case Label(s) => Label(Trim(Split(s, ",")[0]))
  }

  lemma WeeklyFirstPiece()
    ensures Split("18, 25, 32", ",")[0] == "18"
  {
    var s := "18, 25, 32";
    assert s[..2] == "18";
    SplitFirst(s, ',', 2);
  }

  /** "18, 25, 32" is shown by its first day, "18". */
  lemma WeeklyReviewsShowFirstDay()
    ensures CallSiteArg(Label("18, 25, 32")) == Label("18")
  {
    WeeklyFirstPiece();
    var p := "18";
    assert !IsSpace(p[0]) && !IsSpace(p[1]);
    TrimUnchanged(p);
  }

  /** The numeric phase days, in phase order. */
  function NumericDays(ps: seq<Phase>): (r: seq<int>)
    ensures |r| <= |ps|
  {
    if ps == [] then []
    else (if ps[0].day.Days? then [ps[0].day.n] else []) + NumericDays(ps[1..])
  }

  predicate StrictlyIncreasing(xs: seq<int>) {
    forall i, j | 0 <= i < j < |xs| :: xs[i] < xs[j]
  }

  /** Numeric days of a concatenation. */
  lemma {:induction false} NumericDaysAppend(a: seq<Phase>, b: seq<Phase>)
    ensures NumericDays(a + b) == NumericDays(a) + NumericDays(b)
    decreases |a|
  {
    if a == [] {
      assert a + b == b;
    } else {
      var head := if a[0].day.Days? then [a[0].day.n] else [];
      assert (a + b)[0] == a[0];
      assert (a + b)[1..] == a[1..] + b;
      NumericDaysAppend(a[1..], b);
      calc {
        NumericDays(a + b);
        head + NumericDays(a[1..] + b);
        head + (NumericDays(a[1..]) + NumericDays(b));
        (head + NumericDays(a[1..])) + NumericDays(b);
        NumericDays(a) + NumericDays(b);
      }
    }
  }

  /** The numeric phases are days 1, 11, 62 and 517. */
  lemma PhaseDays()
    ensures NumericDays(Phases) == [1, 11, 62, 517]
  {
    var ps := Phases;
    assert ps == ps[..4] + ps[4..];
    assert NumericDays(ps[..4][2..]) == [11] by {
      assert ps[..4][2..][1..][1..] == [];
    }
    assert NumericDays(ps[..4]) == [1, 11];
    assert NumericDays(ps[4..][2..]) == [517] by {
      assert ps[4..][2..][1..][1..] == [];
    }
    assert NumericDays(ps[4..]) == [62, 517];
    NumericDaysAppend(ps[..4], ps[4..]);
  }

  /** The numeric phase days strictly increase, so their dates do too. */
  lemma NumericPhasesIncrease(startDay: int)
    ensures StrictlyIncreasing(NumericDays(Phases))
    ensures forall i, j | 0 <= i < j < 4 ::
      CalculateDate(startDay, Days(NumericDays(Phases)[i])).day < CalculateDate(startDay, Days(NumericDays(Phases)[j])).day
  {
    PhaseDays();
    var d := NumericDays(Phases);
    assert d == [1, 11, 62, 517];
    forall i, j | 0 <= i < j < 4
      ensures CalculateDate(startDay, Days(d[i])).day < CalculateDate(startDay, Days(d[j])).day
    {
      CalculateDateShifts(startDay, d[i], d[j]);
    }
  }
}
