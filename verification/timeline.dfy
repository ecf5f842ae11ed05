/** The dashboard timeline: the events sorted by their moment, then grouped
    under a header per calendar day, plus the lookup tables for kind, status
    and priority. An event's moment is the timestamp `new Date(date).getTime()`
    and the header text of a moment (`toLocaleDateString('ar-EG', …)`) is the
    parameter `dateKey`. */
module Timeline {
  import opened Common
  import opened Sorting
  import opened Grouping

  datatype Event = Event(id: string, title: string, kind: string, at: int, status: string, priority: string)

  function At(e: Event): int { e.at }

  /** `sortedEvents`: a sorted copy of the events (the caller's array is not
      reordered), earliest first, events at the same moment in input order. */
  function Sorted(events: seq<Event>): (r: seq<Event>)
    ensures SortedBy(r, At)
    ensures multiset(r) == multiset(events)
    ensures forall t :: WithKey(r, At, t) == WithKey(events, At, t)
  {
    SortBy(events, At)
  }

  /** The header an event is filed under. */
  function DayKey(dateKey: int -> string): Event -> string {
    (e: Event) => dateKey(e.at)
  }

  /** `groupedEvents` read back through `Object.entries`. */
  function Grouped(events: seq<Event>, dateKey: int -> string): seq<Group<string, Event>> {
    GroupBy(Sorted(events), DayKey(dateKey))
  }

  /** Grouping partitions the events by header: an event is listed in a group
      exactly when the group's header is its own, so in exactly one group; a
      group's events keep the sorted order; headers appear in order of their
      earliest event and never repeat. */
  lemma GroupedPartitions(events: seq<Event>, dateKey: int -> string, e: Event, i: int)
    requires e in events && 0 <= i < |Grouped(events, dateKey)|
    ensures e in Grouped(events, dateKey)[i].items <==> dateKey(e.at) == Grouped(events, dateKey)[i].key
    ensures e in Grouped(events, dateKey)[i].items <==> i == IndexOfKey(Grouped(events, dateKey), dateKey(e.at))
    ensures SortedBy(Grouped(events, dateKey)[i].items, At)
    ensures Keys(Grouped(events, dateKey)) == FirstOccurrences(MapKey(Sorted(events), DayKey(dateKey)))
  {
    var s, key := Sorted(events), DayKey(dateKey);
    var gs := GroupBy(s, key);
    assert e in multiset(events);
    assert e in s;
    ExactlyOneGroup(s, key, e, i);
    WithKeyMembers(s, key, gs[i].key);
    SubsequenceOfSorted(gs[i].items, s, At);
  }

  /** The "no events" panel is shown for an empty list. */
  predicate ShowsEmptyState(events: seq<Event>) {
    |events| == 0
  }

  /** The empty panel and the day groups never show together, and one of them always does. */
  lemma EmptyStateIffNoGroups(events: seq<Event>, dateKey: int -> string)
    ensures ShowsEmptyState(events) <==> |Grouped(events, dateKey)| == 0
  {
    GroupByEmpty(Sorted(events), DayKey(dateKey));
  }

  /** The label shown for a value the tables do not know. */
  const Unspecified := "غير محدد"

  const Statuses := ["upcoming", "ongoing", "completed", "cancelled"]

  const Priorities := ["low", "medium", "high", "urgent"]

  const Kinds := ["exam", "course", "meeting", "deadline", "holiday"]

  /** `getStatusLabel`. */
  function StatusLabel(status: string): (r: string)
    ensures r == Unspecified <==> status !in Statuses
  {
    match status
    case "upcoming" => "قادم"
    case "ongoing" => "جاري"
    case "completed" => "مكتمل"
    case "cancelled" => "ملغي"
    case _ => Unspecified
  }

  /** `getPriorityLabel`. */
  function PriorityLabel(priority: string): (r: string)
    ensures r == Unspecified <==> priority !in Priorities
  {
    match priority
    case "low" => "منخفض"
    case "medium" => "متوسط"
    case "high" => "عالي"
    case "urgent" => "عاجل"
    case _ => Unspecified
  }

  /** Distinct known statuses get distinct labels, so a label names its status. */
  lemma StatusLabelsAreDistinct(a: string, b: string)
    requires a in Statuses && b in Statuses
    ensures StatusLabel(a) == StatusLabel(b) <==> a == b
  {
  }

  /** Distinct known priorities get distinct labels. */
  lemma PriorityLabelsAreDistinct(a: string, b: string)
    requires a in Priorities && b in Priorities
    ensures PriorityLabel(a) == PriorityLabel(b) <==> a == b
  {
  }

  /** `getEventTypeIcon`; an unknown kind gets the calendar icon. */
  function KindIcon(kind: string): (r: string)
    ensures r == "\U{1F4C5}" <==> kind !in Kinds
  {
    match kind
    case "exam" => "\U{1F4DD}"
    case "course" => "\U{1F4DA}"
    case "meeting" => "\U{1F91D}"
    case "deadline" => "\U{23F0}"
    case "holiday" => "\U{1F389}"
    case _ => "\U{1F4C5}"
  }

  /** `getEventTypeColor`, by colour family; an unknown kind is grey. */
  function KindTone(kind: string): (r: Tone)
    ensures r == Gray <==> kind !in Kinds
  {
    match kind
    case "exam" => Red
    case "course" => Blue
    case "meeting" => Green
    case "deadline" => Yellow
    case "holiday" => Purple
    case _ => Gray
  }

  /** `getStatusColor`, by colour family; an unknown status is grey, as a completed one is. */
  function StatusTone(status: string): (r: Tone)
    ensures r == Gray <==> status !in Statuses || status == "completed"
  {
    match status
    case "upcoming" => Blue
    case "ongoing" => Green
    case "completed" => Gray
    case "cancelled" => Red
    case _ => Gray
  }

  /** `getPriorityColor`, by colour family; an unknown priority is grey. */
  function PriorityTone(priority: string): (r: Tone)
    ensures r == Gray <==> priority !in Priorities
  {
    match priority
    case "low" => Green
    case "medium" => Yellow
    case "high" => Orange
    case "urgent" => Red
    case _ => Gray
  }

  /** Kind icons and kind colours single out the same unknown kinds, and each
      known kind has its own icon and its own colour. */
  lemma KindStylesAgree(a: string, b: string)
    ensures KindIcon(a) == "\U{1F4C5}" <==> KindTone(a) == Gray
    ensures a in Kinds && b in Kinds ==> (KindIcon(a) == KindIcon(b) <==> a == b)
    ensures a in Kinds && b in Kinds ==> (KindTone(a) == KindTone(b) <==> a == b)
  {
  }
}
