/** The dashboard's alert list: the unread header, the first five alerts
    unless "show all" is on, the alerts grouped under a header per day
    ("today", "yesterday" or the formatted date), and the "show more" button.
    The local calendar day of a timestamp (`toDateString`) is the parameter
    `dayOf`, the current day is `today`, and the formatted date of a
    timestamp (`toLocaleDateString('ar-EG', …)`) is the parameter `format`. */
module Alerts {
  import opened Common
  import opened Grouping
  import opened Inbox

  /** How many alerts are listed while "show all" is off. */
  const PageSize := 5

  const TodayKey := "اليوم"

  const YesterdayKey := "أمس"

  /** `displayedAlerts`: every alert with "show all" on, otherwise the first five. */
  function Displayed(alerts: seq<Notice>, showAll: bool): (r: seq<Notice>)
    ensures showAll ==> r == alerts
    ensures !showAll ==> |r| == (if |alerts| < PageSize then |alerts| else PageSize)
    ensures |r| <= |alerts| && r == alerts[..|r|]
  {
    if showAll then alerts else Take(alerts, PageSize)
  }

  /** The "show k more" button: shown only with "show all" off and more than
      five alerts, and k counts exactly the alerts left out. */
  function ShowMore(alerts: seq<Notice>, showAll: bool): (r: Option<nat>)
    ensures r.Some? <==> !showAll && |alerts| > PageSize
    ensures r.Some? ==> |Displayed(alerts, showAll)| + r.value == |alerts|
    ensures r.None? ==> Displayed(alerts, showAll) == alerts
  {
    if !showAll && |alerts| > PageSize then Some(|alerts| - PageSize) else None
  }

  /** The header an alert is filed under; `format` renders a day. */
  function DayKey(at: int, dayOf: int -> int, today: int, format: int -> string): string {
    if dayOf(at) == today then TodayKey
    else if dayOf(at) == today - 1 then YesterdayKey
    else format(dayOf(at))
  }

  /** Alerts of the same day share a header. When the rendered days are all
      different and never spell the two fixed words, alerts share a header
      only when they share a day, so the groups are exactly the days. (The
      source's format leaves out the year, so days a whole number of years
      apart with the same weekday can share a rendering.) */
  lemma HeadersAreDays(a: int, b: int, dayOf: int -> int, today: int, format: int -> string)
    ensures dayOf(a) == dayOf(b) ==> DayKey(a, dayOf, today, format) == DayKey(b, dayOf, today, format)
    ensures (forall d, e :: format(d) == format(e) ==> d == e) &&
            (forall d :: format(d) != TodayKey && format(d) != YesterdayKey) ==>
              (DayKey(a, dayOf, today, format) == DayKey(b, dayOf, today, format) <==> dayOf(a) == dayOf(b))
  {
  }

  function KeyOf(dayOf: int -> int, today: int, format: int -> string): Notice -> string {
    (n: Notice) => DayKey(n.at, dayOf, today, format)
  }

  /** `groupedAlerts` read back through `Object.entries`. */
  function Grouped(alerts: seq<Notice>, showAll: bool, dayOf: int -> int, today: int, format: int -> string)
    : seq<Group<string, Notice>>
  {
    GroupBy(Displayed(alerts, showAll), KeyOf(dayOf, today, format))
  }

  /** Grouping partitions the displayed alerts: each lands in exactly the
      group of its own header, in its original order, and only displayed
      alerts are grouped. */
  lemma GroupsPartitionDisplayed(alerts: seq<Notice>, showAll: bool, dayOf: int -> int, today: int,
                                 format: int -> string, a: Notice, i: int)
    requires a in Displayed(alerts, showAll)
    requires 0 <= i < |Grouped(alerts, showAll, dayOf, today, format)|
    ensures var g := Grouped(alerts, showAll, dayOf, today, format)[i];
      a in g.items <==> DayKey(a.at, dayOf, today, format) == g.key
    ensures a in Grouped(alerts, showAll, dayOf, today, format)[i].items <==>
              i == IndexOfKey(Grouped(alerts, showAll, dayOf, today, format), DayKey(a.at, dayOf, today, format))
    ensures IsSubsequence(Grouped(alerts, showAll, dayOf, today, format)[i].items, Displayed(alerts, showAll))
  {
    var d, key := Displayed(alerts, showAll), KeyOf(dayOf, today, format);
    var gs := GroupBy(d, key);
    ExactlyOneGroup(d, key, a, i);
    WithKeyMembers(d, key, gs[i].key);
  }

  /** The "no alerts" panel shows exactly when there are no alerts, and then
      there are no groups; otherwise there is at least one group. */
  predicate ShowsEmptyState(alerts: seq<Notice>) {
    |alerts| == 0
  }

  lemma EmptyStateIffNoGroups(alerts: seq<Notice>, showAll: bool, dayOf: int -> int, today: int, format: int -> string)
    ensures ShowsEmptyState(alerts) <==> |Grouped(alerts, showAll, dayOf, today, format)| == 0
  {
    GroupByEmpty(Displayed(alerts, showAll), KeyOf(dayOf, today, format));
  }
}
