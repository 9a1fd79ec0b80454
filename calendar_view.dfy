/**
 * The month grid of components/advanced-calendar-view.tsx. Dates are day
 * numbers; the weekday of day `k` of the month is counted on from the weekday
 * of the first. The sample item counts come from `Math.random` and are chosen
 * nondeterministically within the ranges the code draws from.
 */
module CalendarView {
  import opened Wrappers

  /** One grid cell: a blank before the first of the month, or a day with
      its date and number of items due. */
  datatype Cell = Cell(day: Option<nat>, items: nat, date: Option<int>)

  const Blank: Cell := Cell(None, 0, None)

  /** `date.getDay()` for day `k` (from 1) of a month whose first falls on
      weekday `firstDay`. */
  function Weekday(firstDay: nat, k: nat): (w: nat)
    requires k >= 1
    ensures w < 7
  {
    (firstDay + k - 1) % 7
  }

  predicate IsWeekend(weekday: nat) {
    weekday == 0 || weekday == 6
  }

  /** The ranges of lines 34-35: `floor(random * 5)` at the weekend and
      `floor(random * 15) + 5` on other days. */
  predicate ItemsInRange(items: nat, weekday: nat) {
    if IsWeekend(weekday) then items <= 4 else 5 <= items <= 19
  }

  /** The cell of day `k`. */
  predicate DayCell(c: Cell, k: nat, firstDay: nat, monthStart: int)
    requires k >= 1
  {
    c.day == Some(k) && c.date == Some(monthStart + k - 1) && ItemsInRange(c.items, Weekday(firstDay, k))
  }

  /** `generateCalendarData` for a month of `daysInMonth` days starting on
      day number `monthStart`, whose first falls on weekday `firstDay`: the
      blanks, then cell `firstDay + k - 1` holding day `k`. */
  method GenerateCalendarData(firstDay: nat, daysInMonth: nat, monthStart: int) returns (cells: seq<Cell>)
    ensures |cells| == firstDay + daysInMonth
    ensures forall i | 0 <= i < firstDay :: cells[i] == Blank
    ensures forall i | firstDay <= i < |cells| :: DayCell(cells[i], i - firstDay + 1, firstDay, monthStart)
  {
    cells := [];
    for i := 0 to firstDay
      invariant |cells| == i
      invariant forall j | 0 <= j < i :: cells[j] == Blank
    {
      cells := cells + [Blank];
    }
    for day := 1 to daysInMonth + 1
      invariant |cells| == firstDay + day - 1
      invariant forall j | 0 <= j < firstDay :: cells[j] == Blank
      invariant forall i | firstDay <= i < |cells| :: DayCell(cells[i], i - firstDay + 1, firstDay, monthStart)
    {
      var items: nat;
      if IsWeekend(Weekday(firstDay, day)) {
        items :| items <= 4;
      } else {
        items :| 5 <= items <= 19;
      }
      cells := cells + [Cell(Some(day), items, Some(monthStart + day - 1))];
    }
  }

  /** The badge colours of `getItemsColor`. */
  datatype Color = Gray | Green | Yellow | Red

  function ItemsColor(items: int): (c: Color)
    ensures c == Gray <==> items == 0
    ensures c == Green <==> items != 0 && items < 5
    ensures c == Yellow <==> 5 <= items < 10
    ensures c == Red <==> items >= 10
  {
    if items == 0 then Gray
    else if items < 5 then Green
    else if items < 10 then Yellow
    else Red
  }

  function ColorRank(c: Color): nat {
    match c
    case Gray => 0
    case Green => 1
    case Yellow => 2
    case Red => 3
  }

  /** More items never give a calmer colour. */
  lemma ItemsColorMonotone(a: nat, b: nat)
    requires a <= b
    ensures ColorRank(ItemsColor(a)) <= ColorRank(ItemsColor(b))
  {
  }

  /** Every weekend cell of a generated grid is green or gray, every weekday
      cell yellow or red. */
  lemma {:induction false} GeneratedColors(c: Cell, k: nat, firstDay: nat, monthStart: int)
    requires k >= 1 && DayCell(c, k, firstDay, monthStart)
    ensures IsWeekend(Weekday(firstDay, k)) ==> ItemsColor(c.items) in {Gray, Green}
    ensures !IsWeekend(Weekday(firstDay, k)) ==> ItemsColor(c.items) in {Yellow, Red}
  {
    assert ItemsInRange(c.items, Weekday(firstDay, k));
  }

  /** A sample entry of the date dialog. */
  datatype SampleItem = SampleItem(title: string, subject: string, reviewStage: string)

  const SampleItems: seq<SampleItem> := [
    SampleItem("JavaScript Closures", "JavaScript", "daily"),
    SampleItem("React Hooks", "React", "weekly"),
    SampleItem("CSS Grid Layout", "CSS", "monthly"),
    SampleItem("Node.js Event Loop", "Node.js", "daily"),
    SampleItem("Database Indexing", "Database", "weekly")]

  /** `getItemsForDate`, with `draw` = `floor(random * 3)`: nothing for no
      date, otherwise the first three to five sample items. */
  function ItemsForDate(date: Option<int>, draw: nat): (r: seq<SampleItem>)
    requires draw < 3
    ensures date.None? ==> r == []
    ensures date.Some? ==> 3 <= |r| <= 5 && r == SampleItems[..|r|]
  {
    if date.None? then [] else SampleItems[..draw + 3]
  }

  /** The dialog state of the view. */
  class CalendarPage {
    var selectedDate: Option<int>
    var showDateDialog: bool

    constructor ()
      ensures selectedDate.None? && !showDateDialog
    {
      selectedDate := None;
      showDateDialog := false;
    }

    /** `handleDateClick`: a blank cell does nothing; a day is selected and
        the dialog opened. */
    method DateClick(date: Option<int>)
      modifies this
      ensures date.None? ==> selectedDate == old(selectedDate) && showDateDialog == old(showDateDialog)
      ensures date.Some? ==> selectedDate == date && showDateDialog
    {
      if date.Some? {
        selectedDate := date;
        showDateDialog := true;
      }
    }
  }
}
