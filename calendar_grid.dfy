/**
 * `calendarData` of the calendar page: a flat month grid whose leading blank cells
 * align day 1 under its weekday column (Sunday first), followed by one cell per day
 * with that day's upcoming events and an "is today" flag.
 */
module CalendarGrid {
  import opened Seqs
  import opened Text
  import opened Dates
  import opened Events

  datatype Cell = Cell(date: int, hasEvents: bool, events: seq<Event>, isToday: bool)

  /** The placeholder pushed before day 1. */
  const Blank: Cell := Cell(0, false, [], false)

  /** The `YYYY-MM-DD` key built from the grid's year, `month + 1` and the day, zero-padded. */
  function DateKey(year: int, month: int, day: int): string
    requires 0 <= month < 12 && day >= 1
  {
    IntToString(year) + "-" + PadStart(NatToString(month + 1), 2, '0') + "-"
      + PadStart(NatToString(day), 2, '0')
  }

  /**
   * `upcomingEvents.filter(e => e.date === key)`. Written out by recursion rather than
   * through `Filter` with a closure over `key`, which keeps the grid's proofs small;
   * `EventsOnIsFilter` shows the two agree.
   */
  function EventsOn(es: seq<Event>, key: string): seq<Event> {
    if es == [] then []
    else (if es[0].date == key then [es[0]] else []) + EventsOn(es[1..], key)
  }

  predicate HasDate(key: string, e: Event) {
    e.date == key
  }

  /** The day filter is the generic filter by date. */
  lemma {:induction false} EventsOnIsFilter(es: seq<Event>, key: string)
    ensures EventsOn(es, key) == Filter(es, (e: Event) => HasDate(key, e))
  {
    if es != [] {
      EventsOnIsFilter(es[1..], key);
    }
  }

  /** The cell pushed for `day`. */
  function DayCell(year: int, month: int, upcoming: seq<Event>, today: Date, day: int): Cell
    requires 0 <= month < 12 && day >= 1
  {
    var dayEvents := EventsOn(upcoming, DateKey(year, month, day));
    Cell(day, |dayEvents| > 0, dayEvents,
         today.day == day && today.month == month && today.year == year)
  }

  /** The cells of days 1 .. DaysInMonth, in order. */
  function MonthCells(year: int, month: int, upcoming: seq<Event>, today: Date): (cells: seq<Cell>)
    requires 0 <= month < 12
  {
    seq(DaysInMonth(year, month), i requires 0 <= i => DayCell(year, month, upcoming, today, i + 1))
  }

  /**
   * The first `lead + n` cells of a grid whose day 1 falls in column `lead`:
   * `lead` blanks, then the first `n` of the day cells `cells`.
   */
  predicate GridPrefix(days: seq<Cell>, lead: nat, n: nat, cells: seq<Cell>)
    requires n <= |cells|
  {
    |days| == lead + n &&
    (forall k :: 0 <= k < lead ==> days[k] == Blank) &&
    (forall k :: lead <= k < |days| ==> days[k] == cells[k - lead])
  }

  /** `days` is the grid of month `month` of `year`. */
  predicate IsCalendarGrid(days: seq<Cell>, year: int, month: int, upcoming: seq<Event>, today: Date)
    requires 0 <= month < 12
  {
    GridPrefix(days, Weekday(year, month, 1), DaysInMonth(year, month), MonthCells(year, month, upcoming, today))
  }

  /** The first loop of `calendarData`: one blank per weekday before day 1. */
  method LeadingBlanks(n: nat) returns (days: seq<Cell>)
    ensures |days| == n
    ensures forall k :: 0 <= k < n ==> days[k] == Blank
  {
    days := [];
    for i := 0 to n
      invariant |days| == i
      invariant forall k :: 0 <= k < i ==> days[k] == Blank
    {
      days := days + [Blank];
    }
  }

  /** Pushing the next day cell extends the prefix by one day. */
  lemma GridPrefixStep(days: seq<Cell>, lead: nat, n: nat, cells: seq<Cell>)
    requires n < |cells|
    requires GridPrefix(days, lead, n, cells)
    ensures GridPrefix(days + [cells[n]], lead, n + 1, cells)
  {
    var extended := days + [cells[n]];
    forall k | 0 <= k < |days|
      ensures extended[k] == days[k]
    {
    }
  }

  /** `calendarData`: the blanks, then the second loop, one cell per day. */
  method BuildGrid(year: int, month: int, upcoming: seq<Event>, today: Date) returns (days: seq<Cell>)
    requires 0 <= month < 12
    ensures IsCalendarGrid(days, year, month, upcoming, today)
  {
    var daysInMonth := DaysInMonth(year, month);
    var startDayOfWeek := Weekday(year, month, 1);
    days := LeadingBlanks(startDayOfWeek);
    ghost var cells := MonthCells(year, month, upcoming, today);
    for day := 1 to daysInMonth + 1
      invariant GridPrefix(days, startDayOfWeek, day - 1, cells)
    {
      var dateStr := DateKey(year, month, day);
      var dayEvents := EventsOn(upcoming, dateStr);
      var isToday := today.day == day && today.month == month && today.year == year;
      var cell := Cell(day, |dayEvents| > 0, dayEvents, isToday);
      assert cell == cells[day - 1];
      GridPrefixStep(days, startDayOfWeek, day - 1, cells);
      days := days + [cell];
    }
  }

  /** Two days of one month never share a key. */
  lemma DateKeyDayInjective(year: int, month: int, d1: int, d2: int)
    requires 0 <= month < 12 && 1 <= d1 < 100 && 1 <= d2 < 100
    requires DateKey(year, month, d1) == DateKey(year, month, d2)
    ensures d1 == d2
  {
    var prefix := IntToString(year) + "-" + PadStart(NatToString(month + 1), 2, '0') + "-";
    var p1, p2 := PadStart(NatToString(d1), 2, '0'), PadStart(NatToString(d2), 2, '0');
    TwoDigits(d1);
    TwoDigits(d2);
    assert (prefix + p1)[|prefix|..] == p1;
    assert (prefix + p2)[|prefix|..] == p2;
    TwoDigitsInjective(d1, d2);
  }

  /** The key of 4 November 2025 is the form's date string of that day. */
  lemma DateKeyExample()
    ensures DateKey(2025, 10, 4) == "2025-11-04"
  {
  }

  /** Day cells numbered 1, 2, ... in order, each flagged as having events iff its list is non-empty. */
  predicate NumberedCells(cells: seq<Cell>) {
    forall k :: 0 <= k < |cells| ==> cells[k].date == k + 1 && (cells[k].hasEvents <==> cells[k].events != [])
  }

  /** Day cells whose "today" flag is set exactly on the day `today`, when it lies in that month. */
  predicate TodayCells(cells: seq<Cell>, year: int, month: int, today: Date) {
    forall k :: 0 <= k < |cells| ==>
      (cells[k].isToday <==> today.year == year && today.month == month && today.day == k + 1)
  }

  /** The cell of day `k + 1`, and the facts the grid lemmas need about all of them. */
  lemma MonthCellsFacts(year: int, month: int, upcoming: seq<Event>, today: Date)
    requires 0 <= month < 12
    ensures |MonthCells(year, month, upcoming, today)| == DaysInMonth(year, month)
    ensures NumberedCells(MonthCells(year, month, upcoming, today))
    ensures TodayCells(MonthCells(year, month, upcoming, today), year, month, today)
  {
  }

  /** Cell `i` of a grid prefix: a blank before the lead, else day cell `i - lead`. */
  lemma PrefixCellAt(days: seq<Cell>, lead: nat, n: nat, cells: seq<Cell>, i: int)
    requires n <= |cells| && GridPrefix(days, lead, n, cells)
    requires 0 <= i < |days|
    ensures i < lead ==> days[i] == Blank
    ensures i >= lead ==> i - lead < n && days[i] == cells[i - lead]
  {
  }

  /** Shape of any complete grid over numbered day cells. */
  lemma PrefixShape(days: seq<Cell>, lead: nat, cells: seq<Cell>)
    requires NumberedCells(cells) && GridPrefix(days, lead, |cells|, cells)
    ensures forall i :: 0 <= i < lead ==> days[i] == Blank
    ensures forall i, j :: lead <= i < j < |days| ==> 1 <= days[i].date < days[j].date
    ensures forall i :: lead <= i < |days| ==> days[i].date == i - lead + 1
    ensures forall i :: 0 <= i < |days| ==> (days[i].hasEvents <==> days[i].events != [])
  {
  }

  /** The "today" cells of any complete grid over day cells flagged by `TodayCells`. */
  lemma PrefixToday(days: seq<Cell>, lead: nat, cells: seq<Cell>, year: int, month: int, today: Date)
    requires NumberedCells(cells) && TodayCells(cells, year, month, today)
    requires GridPrefix(days, lead, |cells|, cells)
    ensures forall i :: 0 <= i < |days| && days[i].isToday ==>
      i == lead + today.day - 1 && today.year == year && today.month == month && days[i].date == today.day
    ensures (exists i :: 0 <= i < |days| && days[i].isToday) <==>
      today.year == year && today.month == month && 1 <= today.day <= |cells|
  {
    if today.year == year && today.month == month && 1 <= today.day <= |cells| {
      assert days[lead + today.day - 1].isToday;
    }
  }

  /**
   * Shape of the grid: first the blanks, then the days 1 .. DaysInMonth in increasing
   * order, each once, each marked as having events iff its list is non-empty.
   */
  lemma GridShape(days: seq<Cell>, year: int, month: int, upcoming: seq<Event>, today: Date)
    requires 0 <= month < 12
    requires IsCalendarGrid(days, year, month, upcoming, today)
    ensures |days| == Weekday(year, month, 1) + DaysInMonth(year, month)
    ensures forall i :: 0 <= i < Weekday(year, month, 1) ==>
      days[i].date == 0 && !days[i].hasEvents && days[i].events == [] && !days[i].isToday
    ensures forall i, j :: Weekday(year, month, 1) <= i < j < |days| ==> 1 <= days[i].date < days[j].date
    ensures forall i :: Weekday(year, month, 1) <= i < |days| ==> days[i].date == i - Weekday(year, month, 1) + 1
    ensures forall i :: 0 <= i < |days| ==> (days[i].hasEvents <==> days[i].events != [])
  {
    MonthCellsFacts(year, month, upcoming, today);
    PrefixShape(days, Weekday(year, month, 1), MonthCells(year, month, upcoming, today));
  }

  /**
   * At most one cell is today's, and there is one exactly when today lies in the
   * grid's month; it is the cell of today's day.
   */
  lemma GridToday(days: seq<Cell>, year: int, month: int, upcoming: seq<Event>, today: Date)
    requires 0 <= month < 12
    requires IsCalendarGrid(days, year, month, upcoming, today)
    ensures forall i, j :: 0 <= i < |days| && 0 <= j < |days| && days[i].isToday && days[j].isToday ==> i == j
    ensures forall i :: 0 <= i < |days| && days[i].isToday ==>
      today.year == year && today.month == month && days[i].date == today.day
    ensures (exists i :: 0 <= i < |days| && days[i].isToday) <==>
      today.year == year && today.month == month && 1 <= today.day <= DaysInMonth(year, month)
  {
    MonthCellsFacts(year, month, upcoming, today);
    PrefixToday(days, Weekday(year, month, 1), MonthCells(year, month, upcoming, today), year, month, today);
  }

  /**
   * The events of a day are exactly the upcoming events with that day's key, as often
   * as they occur and in list order.
   */
  lemma EventsOnSpec(es: seq<Event>, key: string, e: Event)
    ensures e in EventsOn(es, key) <==> e in es && e.date == key
    ensures multiset(EventsOn(es, key))[e] == if e.date == key then multiset(es)[e] else 0
    ensures IsSubsequence(EventsOn(es, key), es)
  {
    var p := (x: Event) => HasDate(key, x);
    EventsOnIsFilter(es, key);
    FilterMember(es, p, e);
    FilterCount(es, p, e);
    FilterIsSubsequence(es, p);
  }

  /** Cell `i` of the grid: a blank before day 1's column, otherwise the cell of its day. */
  lemma GridCellAt(days: seq<Cell>, year: int, month: int, upcoming: seq<Event>, today: Date, i: int)
    requires 0 <= month < 12
    requires IsCalendarGrid(days, year, month, upcoming, today)
    requires 0 <= i < |days|
    ensures i < Weekday(year, month, 1) ==> days[i] == Blank
    ensures i >= Weekday(year, month, 1) ==>
      1 <= days[i].date <= DaysInMonth(year, month) &&
      days[i].events == EventsOn(upcoming, DateKey(year, month, days[i].date))
  {
    var lead, cells := Weekday(year, month, 1), MonthCells(year, month, upcoming, today);
    PrefixCellAt(days, lead, DaysInMonth(year, month), cells, i);
    if i >= lead {
      assert days[i] == DayCell(year, month, upcoming, today, i - lead + 1);
    }
  }

  /**
   * A day cell holds exactly the upcoming events whose date is that day's key, as often
   * as they occur and in list order; blank cells hold none.
   */
  lemma GridCellEvents(days: seq<Cell>, year: int, month: int, upcoming: seq<Event>, today: Date,
                       i: int, e: Event)
    requires 0 <= month < 12
    requires IsCalendarGrid(days, year, month, upcoming, today)
    requires 0 <= i < |days|
    ensures i < Weekday(year, month, 1) ==> days[i].events == []
    ensures i >= Weekday(year, month, 1) ==>
      (e in days[i].events <==> e in upcoming && e.date == DateKey(year, month, days[i].date)) &&
      multiset(days[i].events)[e] ==
        (if e.date == DateKey(year, month, days[i].date) then multiset(upcoming)[e] else 0) &&
      IsSubsequence(days[i].events, upcoming)
  {
    GridCellAt(days, year, month, upcoming, today, i);
    if i >= Weekday(year, month, 1) {
      EventsOnSpec(upcoming, DateKey(year, month, days[i].date), e);
    }
  }

  /** An event appears in at most one cell of the grid. */
  lemma GridEventInOneCell(days: seq<Cell>, year: int, month: int, upcoming: seq<Event>, today: Date,
                           i: int, j: int, e: Event)
    requires 0 <= month < 12
    requires IsCalendarGrid(days, year, month, upcoming, today)
    requires 0 <= i < |days| && 0 <= j < |days|
    requires e in days[i].events && e in days[j].events
    ensures i == j
  {
    GridCellAt(days, year, month, upcoming, today, i);
    GridCellAt(days, year, month, upcoming, today, j);
    var lead := Weekday(year, month, 1);
    var di, dj := days[i].date, days[j].date;
    EventsOnSpec(upcoming, DateKey(year, month, di), e);
    EventsOnSpec(upcoming, DateKey(year, month, dj), e);
    DateKeyDayInjective(year, month, di, dj);
    MonthCellsFacts(year, month, upcoming, today);
    PrefixShape(days, lead, MonthCells(year, month, upcoming, today));
  }

  /** Every upcoming event dated on a day of the month appears in that day's cell. */
  lemma GridCoversEvent(days: seq<Cell>, year: int, month: int, upcoming: seq<Event>, today: Date,
                        e: Event, d: int)
    requires 0 <= month < 12
    requires IsCalendarGrid(days, year, month, upcoming, today)
    requires e in upcoming && 1 <= d <= DaysInMonth(year, month) && e.date == DateKey(year, month, d)
    ensures e in days[Weekday(year, month, 1) + d - 1].events
  {
    var lead := Weekday(year, month, 1);
    MonthCellsFacts(year, month, upcoming, today);
    PrefixShape(days, lead, MonthCells(year, month, upcoming, today));
    GridCellAt(days, year, month, upcoming, today, lead + d - 1);
    EventsOnSpec(upcoming, DateKey(year, month, d), e);
  }
}
