/** Notifications and alerts as the dashboard holds them: the unread count,
    the mark-as-read updates the dashboard applies to its notification list
    (the alert panel's handlers only log, so its list never changes), and the style
    (icon and colour) a notification's kind selects. */
module Inbox {
  import opened Common

  /** A notification or an alert; `at` is its timestamp. */
  datatype Notice = Notice(id: string, kind: string, title: string, at: int, isRead: bool)

  predicate Unread(n: Notice) { !n.isRead }

  /** The number of unread notices, counted one by one. */
  function UnreadCount(ns: seq<Notice>): (c: nat)
    ensures c <= |ns|
    decreases |ns|
  {
    if |ns| == 0 then 0
    else UnreadCount(ns[..|ns| - 1]) + (if ns[|ns| - 1].isRead then 0 else 1)
  }

  /** The count is `list.filter(n => !n.isRead).length`, as the card and the
      alert list compute it. */
  lemma {:induction false} UnreadCountIsFilterLength(ns: seq<Notice>)
    ensures UnreadCount(ns) == |Filter(ns, Unread)|
    decreases |ns|
  {
    if |ns| > 0 {
      var init, last := ns[..|ns| - 1], ns[|ns| - 1];
      UnreadCountIsFilterLength(init);
      assert Filter(ns, Unread) == Filter(init, Unread) + (if Unread(last) then [last] else []);
    }
  }

  /** Nothing is counted exactly when everything is read. */
  lemma {:induction false} UnreadCountZero(ns: seq<Notice>)
    ensures UnreadCount(ns) == 0 <==> forall i :: 0 <= i < |ns| ==> ns[i].isRead
    decreases |ns|
  {
    if |ns| > 0 {
      var init := ns[..|ns| - 1];
      UnreadCountZero(init);
      assert forall i :: 0 <= i < |init| ==> init[i] == ns[i];
    }
  }

  /** Counting unread notices distributes over concatenation. */
  lemma {:induction false} UnreadCountAppend(a: seq<Notice>, b: seq<Notice>)
    ensures UnreadCount(a + b) == UnreadCount(a) + UnreadCount(b)
    decreases |b|
  {
    if |b| > 0 {
      UnreadCountAppend(a, b[..|b| - 1]);
      assert (a + b)[..|a + b| - 1] == a + b[..|b| - 1];
    } else {
      assert a + b == a;
    }
  }

  /** The dashboard's `onMarkAsRead`: every notice with the id becomes read. */
  function MarkAsRead(ns: seq<Notice>, id: string): (r: seq<Notice>)
    ensures |r| == |ns|
    ensures forall i :: 0 <= i < |ns| && ns[i].id == id ==> r[i] == ns[i].(isRead := true)
    ensures forall i :: 0 <= i < |ns| && ns[i].id != id ==> r[i] == ns[i]
    decreases |ns|
  {
    if |ns| == 0 then []
    else
      var last := ns[|ns| - 1];
      MarkAsRead(ns[..|ns| - 1], id) + [if last.id == id then last.(isRead := true) else last]
  }

  /** Some unread notice carries `id`. */
  predicate HitsUnread(ns: seq<Notice>, id: string) {
    exists i :: 0 <= i < |ns| && ns[i].id == id && !ns[i].isRead
  }

  lemma HitsUnreadSplit(ns: seq<Notice>, id: string)
    requires |ns| > 0
    ensures HitsUnread(ns, id) <==>
              HitsUnread(ns[..|ns| - 1], id) || (ns[|ns| - 1].id == id && !ns[|ns| - 1].isRead)
  {
    var init := ns[..|ns| - 1];
    if HitsUnread(ns, id) {
      var i :| 0 <= i < |ns| && ns[i].id == id && !ns[i].isRead;
      if i < |init| {
        assert init[i] == ns[i];
      }
    }
    if HitsUnread(init, id) {
      var i :| 0 <= i < |init| && init[i].id == id && !init[i].isRead;
      assert ns[i] == init[i];
    }
  }

  /** An id no notice carries leaves the list as it was. */
  lemma MarkUnknownIsIdentity(ns: seq<Notice>, id: string)
    requires forall i :: 0 <= i < |ns| ==> ns[i].id != id
    ensures MarkAsRead(ns, id) == ns
  {
  }

  /** Marking never raises the unread count, and lowers it exactly when some
      unread notice carries the id. */
  lemma {:induction false} MarkAsReadCount(ns: seq<Notice>, id: string)
    ensures UnreadCount(MarkAsRead(ns, id)) <= UnreadCount(ns)
    ensures HitsUnread(ns, id) <==> UnreadCount(MarkAsRead(ns, id)) < UnreadCount(ns)
    decreases |ns|
  {
    if |ns| > 0 {
      var init, last := ns[..|ns| - 1], ns[|ns| - 1];
      MarkAsReadCount(init, id);
      HitsUnreadSplit(ns, id);
      assert MarkAsRead(ns, id)[..|ns| - 1] == MarkAsRead(init, id);
    }
  }

  /** The dashboard's `onMarkAllAsRead`: every notice becomes read, nothing else changes. */
  function MarkAllAsRead(ns: seq<Notice>): (r: seq<Notice>)
    ensures |r| == |ns|
    ensures forall i :: 0 <= i < |ns| ==> r[i] == ns[i].(isRead := true)
  {
    seq(|ns|, i requires 0 <= i < |ns| => ns[i].(isRead := true))
  }

  /** Marking all leaves nothing unread, doing it again changes nothing, and
      marking one notice afterwards changes nothing either. */
  lemma MarkAllAsReadSettles(ns: seq<Notice>, id: string)
    ensures UnreadCount(MarkAllAsRead(ns)) == 0
    ensures MarkAllAsRead(MarkAllAsRead(ns)) == MarkAllAsRead(ns)
    ensures MarkAsRead(MarkAllAsRead(ns), id) == MarkAllAsRead(ns)
  {
    UnreadCountZero(MarkAllAsRead(ns));
  }

  /** Marking everything read is the same as marking each notice's id read in turn. */
  lemma {:induction false} MarkAllIsEveryMark(ns: seq<Notice>)
    ensures MarkEach(ns, Ids(ns)) == MarkAllAsRead(ns)
  {
    MarkEachCovers(ns, Ids(ns));
  }

  function Ids(ns: seq<Notice>): (ids: seq<string>)
    ensures |ids| == |ns| && forall i :: 0 <= i < |ns| ==> ids[i] == ns[i].id
  {
    seq(|ns|, i requires 0 <= i < |ns| => ns[i].id)
  }

  /** Marking the ids one after another. */
  function MarkEach(ns: seq<Notice>, ids: seq<string>): seq<Notice>
    decreases |ids|
  {
    if |ids| == 0 then ns else MarkEach(MarkAsRead(ns, ids[0]), ids[1..])
  }

  lemma {:induction false} MarkEachCovers(ns: seq<Notice>, ids: seq<string>)
    ensures |MarkEach(ns, ids)| == |ns|
    ensures forall i :: 0 <= i < |ns| ==>
              MarkEach(ns, ids)[i] == if ns[i].id in ids then ns[i].(isRead := true) else ns[i]
    decreases |ids|
  {
    if |ids| > 0 {
      var m := MarkAsRead(ns, ids[0]);
      MarkEachCovers(m, ids[1..]);
      forall i | 0 <= i < |ns|
        ensures MarkEach(ns, ids)[i] == if ns[i].id in ids then ns[i].(isRead := true) else ns[i]
      {
        assert ns[i].id in ids <==> ns[i].id == ids[0] || ns[i].id in ids[1..];
      }
    }
  }

  /** The style a notification's kind selects; both the icon lookup and the
      colour lookup switch on the same kinds. */
  datatype Style = SuccessStyle | WarningStyle | ErrorStyle | InfoStyle

  const StyledKinds := ["success", "warning", "error"]

  /** `getTypeIcon` / `getAlertIcon` and the matching colour lookup: an
      unknown kind falls back to the info style. */
  function StyleOf(kind: string): (s: Style)
    ensures s == InfoStyle <==> kind !in StyledKinds
  {
    match kind
    case "success" => SuccessStyle
    case "warning" => WarningStyle
    case "error" => ErrorStyle
    case _ => InfoStyle
  }

  function Icon(s: Style): string {
    match s
    case SuccessStyle => "\U{2705}"
    case WarningStyle => "\U{26A0}\U{FE0F}"
    case ErrorStyle => "\U{274C}"
    case InfoStyle => "\U{2139}\U{FE0F}"
  }

  function ToneOf(s: Style): Tone {
    match s
    case SuccessStyle => Green
    case WarningStyle => Yellow
    case ErrorStyle => Red
    case InfoStyle => Blue
  }

  /** Icon and colour each tell the styles apart, so they always agree on which
      style a kind has, and only an unknown kind gets the info icon. */
  lemma StylesAreDistinct(a: string, b: string)
    ensures Icon(StyleOf(a)) == Icon(StyleOf(b)) <==> StyleOf(a) == StyleOf(b)
    ensures ToneOf(StyleOf(a)) == ToneOf(StyleOf(b)) <==> StyleOf(a) == StyleOf(b)
    ensures Icon(StyleOf(a)) == "\U{2139}\U{FE0F}" <==> a !in StyledKinds
  {
  }

  /** The header of the card and of the alert list: the unread badge and the
      "mark all as read" button. */
  datatype Header = Header(badge: Option<nat>, markAll: bool)

  /** Both the badge and the button appear only while something is unread;
      the badge shows the unread count. */
  function HeaderOf(ns: seq<Notice>): (h: Header)
    ensures h.badge.Some? <==> exists i :: 0 <= i < |ns| && !ns[i].isRead
    ensures h.badge.Some? ==> h.badge.value == UnreadCount(ns) > 0
    ensures h.markAll <==> h.badge.Some?
  {
    UnreadCountZero(ns);
    var c := UnreadCount(ns);
    if c > 0 then Header(Some(c), true) else Header(None, false)
  }

  /** After "mark all as read" on the notification card the header shows
      neither badge nor button. */
  lemma MarkAllClearsHeader(ns: seq<Notice>)
    ensures HeaderOf(MarkAllAsRead(ns)) == Header(None, false)
  {
    UnreadCountZero(MarkAllAsRead(ns));
  }
}
