/** The dashboard calendar: the six-week grid for the shown month, month
    stepping, the events listed in a day cell, and the upcoming-events list.
    Months are numbered 0..11 as `Date.prototype.getMonth` numbers them; an
    event's moment is an integer timestamp and the calendar day it falls on
    (in local time) is a parameter `dayOf`. */
module Calendar {
  import opened Common
  import opened Sorting

  datatype Date = Date(year: int, month: int, day: int)

  datatype Cell = Cell(date: Date, isCurrentMonth: bool)

  datatype Event = Event(id: string, title: string, kind: string, at: int)

  /** The cells of the grid: six rows of seven days. */
  const GridSize := 42

  predicate IsLeap(y: int) {
    y % 4 == 0 && (y % 100 != 0 || y % 400 == 0)
  }

  /** The day number of `new Date(y, m + 1, 0)`: the month's last day. */
  function DaysIn(y: int, m: int): (n: int)
    requires 0 <= m < 12
    ensures 28 <= n <= 31
    ensures m == 1 ==> (n == 29 <==> IsLeap(y))
  {
    if m == 1 then (if IsLeap(y) then 29 else 28)
    else if m == 3 || m == 5 || m == 8 || m == 10 then 30
    else 31
  }

  predicate Valid(d: Date) {
    0 <= d.month < 12 && 1 <= d.day <= DaysIn(d.year, d.month)
  }

  /** `getDay()` of a date in the proleptic Gregorian calendar, 0 for Sunday
      (Sakamoto's method; Dafny's `/` and `%` floor, as the method needs). */
  function Weekday(y: int, m: int, d: int): (w: int)
    requires 0 <= m < 12
    ensures 0 <= w < 7
  {
    var t := [0, 3, 2, 5, 0, 3, 5, 1, 4, 6, 2, 4];
    var yy := if m < 2 then y - 1 else y;
    (yy + yy / 4 - yy / 100 + yy / 400 + t[m] + d) % 7
  }

  datatype Month = Month(year: int, month: int)

  predicate ValidMonth(x: Month) { 0 <= x.month < 12 }

  /** Months counted on one line, as `Date` normalises an out-of-range month. */
  function MonthIndex(x: Month): int { x.year * 12 + x.month }

  /** `new Date(y, m - 1, 1)`, the month the "previous" arrow shows: the valid
      month one before on the month count, so month -1 rolls back to December
      of the year before. */
  function PrevMonth(x: Month): (r: Month)
    requires ValidMonth(x)
    ensures ValidMonth(r)
    ensures MonthIndex(r) == MonthIndex(x) - 1
  {
    if x.month == 0 then Month(x.year - 1, 11) else Month(x.year, x.month - 1)
  }

  /** `new Date(y, m + 1, 1)`, the month the "next" arrow shows: the valid
      month one after on the month count, so month 12 rolls over to January
      of the year after. */
  function NextMonth(x: Month): (r: Month)
    requires ValidMonth(x)
    ensures ValidMonth(r)
    ensures MonthIndex(r) == MonthIndex(x) + 1
  {
    if x.month == 11 then Month(x.year + 1, 0) else Month(x.year, x.month + 1)
  }

  /** A valid month is determined by its place on the month count, so the
      contracts of the arrows fix their results. */
  lemma MonthIndexDetermines(a: Month, b: Month)
    requires ValidMonth(a) && ValidMonth(b)
    ensures MonthIndex(a) == MonthIndex(b) <==> a == b
  {
  }

  /** The arrows undo each other, across year boundaries too. */
  lemma StepsAreInverse(x: Month)
    requires ValidMonth(x)
    ensures PrevMonth(NextMonth(x)) == x
    ensures NextMonth(PrevMonth(x)) == x
  {
  }

  /** The calendar day after `d`. */
  function Succ(d: Date): Date
    requires Valid(d)
  {
    if d.day < DaysIn(d.year, d.month) then d.(day := d.day + 1)
    else
      var n := NextMonth(Month(d.year, d.month));
      Date(n.year, n.month, 1)
  }

  /** The cell the grid holds at index `k`: the trailing days of the previous
      month up to the month's weekday, then the month itself, then the next
      month from its 1st. */
  function GridCell(year: int, month: int, k: int): Cell
    requires 0 <= month < 12
  {
    var sd, n := Weekday(year, month, 1), DaysIn(year, month);
    var p, q := PrevMonth(Month(year, month)), NextMonth(Month(year, month));
    if k < sd then Cell(Date(p.year, p.month, DaysIn(p.year, p.month) - sd + 1 + k), false)
    else if k < sd + n then Cell(Date(year, month, k - sd + 1), true)
    else Cell(Date(q.year, q.month, k - sd - n + 1), false)
  }

  /** `getDaysInMonth`: the days of the previous month that share the first
      week, then the whole month, then the days of the next month that fill
      the six weeks. `new Date(year, month, -i)` and `new Date(year, month + 1, i)`
      are written as the dates they normalise to. */
  method MonthGrid(year: int, month: int) returns (cells: seq<Cell>)
    requires 0 <= month < 12
    ensures |cells| == GridSize
    ensures forall k :: 0 <= k < GridSize ==> cells[k] == GridCell(year, month, k)
  {
    var startingDay := Weekday(year, month, 1);
    var daysInMonth := DaysIn(year, month);
    var p := PrevMonth(Month(year, month));
    var prevLast := DaysIn(p.year, p.month);
    cells := [];
    var i := startingDay - 1;
    while i >= 0
      invariant -1 <= i < startingDay
      invariant |cells| == startingDay - 1 - i
      invariant forall k :: 0 <= k < |cells| ==> cells[k] == GridCell(year, month, k)
    {
      cells := cells + [Cell(Date(p.year, p.month, prevLast - i), false)];
      i := i - 1;
    }
    i := 1;
    while i <= daysInMonth
      invariant 1 <= i <= daysInMonth + 1
      invariant |cells| == startingDay + i - 1
      invariant forall k :: 0 <= k < |cells| ==> cells[k] == GridCell(year, month, k)
    {
      cells := cells + [Cell(Date(year, month, i), true)];
      i := i + 1;
    }
    var q := NextMonth(Month(year, month));
    var remaining := GridSize - |cells|;
    i := 1;
    while i <= remaining
      invariant 1 <= i <= remaining + 1
      invariant |cells| == startingDay + daysInMonth + i - 1
      invariant forall k :: 0 <= k < |cells| ==> cells[k] == GridCell(year, month, k)
    {
      cells := cells + [Cell(Date(q.year, q.month, i), false)];
      i := i + 1;
    }
  }

  /** The grid is 42 consecutive valid days with the month's 1st in the
      column of its weekday, and exactly the month's own days are marked as
      belonging to it. */
  lemma GridIsConsecutive(year: int, month: int)
    requires 0 <= month < 12
    ensures forall k :: 0 <= k < GridSize ==> Valid(GridCell(year, month, k).date)
    ensures forall k :: 0 <= k < GridSize - 1 ==> GridCell(year, month, k + 1).date == Succ(GridCell(year, month, k).date)
    ensures GridCell(year, month, Weekday(year, month, 1)) == Cell(Date(year, month, 1), true)
    ensures forall k :: 0 <= k < GridSize ==>
              (GridCell(year, month, k).isCurrentMonth <==> GridCell(year, month, k).date.month == month)
  {
    var p := PrevMonth(Month(year, month));
    assert NextMonth(p) == Month(year, month);
    forall k | 0 <= k < GridSize - 1
      ensures GridCell(year, month, k + 1).date == Succ(GridCell(year, month, k).date)
    {
    }
  }

  /** `getEventsForDate`: the events whose moment falls on the cell's day, in order. */
  function EventsOn(events: seq<Event>, dayOf: int -> Date, date: Date): (r: seq<Event>)
    ensures forall e :: e in r <==> e in events && dayOf(e.at) == date
    ensures forall e :: multiset(r)[e] == if dayOf(e.at) == date then multiset(events)[e] else 0
    ensures IsSubsequence(r, events)
  {
    Filter(events, (e: Event) => dayOf(e.at) == date)
  }

  /** The most events a cell lists before it summarises the rest. */
  const CellCap := 2

  /** A cell lists its first two events and, when there are more, a "+k"
      marker counting the rest. */
  function CellView(dayEvents: seq<Event>): (r: (seq<Event>, Option<nat>))
    ensures |r.0| <= CellCap && |r.0| <= |dayEvents| && r.0 == dayEvents[..|r.0|]
    ensures r.1.Some? <==> |dayEvents| > CellCap
    ensures |r.0| + r.1.GetOr(0) == |dayEvents|
  {
    (Take(dayEvents, CellCap), if |dayEvents| > CellCap then Some(|dayEvents| - CellCap) else None)
  }

  /** Titles longer than this many characters are cut. */
  const TitleCap := 8

  /** A title of more than eight characters shows its first eight and "...". */
  function Truncate(title: string): (r: string)
    ensures |title| <= TitleCap ==> r == title
    ensures |title| > TitleCap ==> |r| == TitleCap + 3 && r[..TitleCap] == title[..TitleCap] && r[TitleCap..] == "..."
    ensures |r| <= TitleCap + 3
  {
    if |title| > TitleCap then title[..TitleCap] + "..." else title
  }

  /** How many upcoming events are listed. */
  const UpcomingCap := 3

  function At(e: Event): int { e.at }

  /** The upcoming list: events at or after `now`, earliest first (a stable
      sort), at most three. */
  function Upcoming(events: seq<Event>, now: int): (r: seq<Event>)
    ensures |r| <= UpcomingCap
    ensures forall e :: e in r ==> e in events && e.at >= now
    ensures SortedBy(r, At)
  {
    var f := Filter(events, (e: Event) => e.at >= now);
    var s := SortBy(f, At);
    var r := Take(s, UpcomingCap);
    assert forall e :: e in r ==> e in events && e.at >= now by {
      forall e | e in r ensures e in events && e.at >= now {
        assert e in multiset(s);
        assert e in f;
      }
    }
    r
  }

  /** Nothing earlier is left out: every upcoming event the list does not
      show is at least as late as every event it does show, and the list is
      only shorter than three when there are fewer upcoming events. */
  lemma {:induction false} UpcomingAreEarliest(events: seq<Event>, now: int, e: Event)
    requires e in events && e.at >= now
    ensures e in Upcoming(events, now) || forall x :: x in Upcoming(events, now) ==> x.at <= e.at
    ensures |Upcoming(events, now)| < UpcomingCap ==> e in Upcoming(events, now)
  {
    var f := Filter(events, (x: Event) => x.at >= now);
    var s := SortBy(f, At);
    var r := Take(s, UpcomingCap);
    assert e in f;
    assert e in multiset(f);
    assert e in s;
    var j :| 0 <= j < |s| && s[j] == e;
    if j >= UpcomingCap {
      forall x | x in r ensures x.at <= e.at {
        var i :| 0 <= i < |r| && r[i] == x;
        assert s[i] == x;
        assert At(s[i]) <= At(s[j]);
      }
    } else {
      assert r[j] == e;
    }
  }
}
