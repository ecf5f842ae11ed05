/** The dashboard's notification card: the unread header, the first five
    notifications, a "view all (n)" button for longer lists, and the empty
    state. */
module NotificationCard {
  import opened Common
  import opened Inbox

  /** How many notifications the card lists. */
  const Shown := 5

  const ReadLabel := "تم القراءة"

  const MarkLabel := "تحديد كمقروء"

  datatype View = View(header: Header, shown: seq<Notice>, viewAll: Option<nat>, empty: bool)

  /** What the card renders for a list. */
  function Render(ns: seq<Notice>): (v: View)
    ensures v.header == HeaderOf(ns)
    ensures v.empty <==> |ns| == 0
    ensures |v.shown| == (if |ns| < Shown then |ns| else Shown) && v.shown == ns[..|v.shown|]
    ensures v.viewAll.Some? <==> |ns| > Shown
    ensures v.viewAll.Some? ==> v.viewAll.value == |ns|
  {
    View(HeaderOf(ns), Take(ns, Shown), if |ns| > Shown then Some(|ns|) else None, |ns| == 0)
  }

  /** The per-notification button's label. */
  function ButtonLabel(n: Notice): string {
    if n.isRead then ReadLabel else MarkLabel
  }

  /** The label depends on the read flag alone, and tells the two apart. */
  lemma ButtonLabelReflectsRead(a: Notice, b: Notice)
    ensures ButtonLabel(a) == ButtonLabel(b) <==> a.isRead == b.isRead
    ensures ButtonLabel(a) == ReadLabel <==> a.isRead
  {
  }

  /** Pressing a listed notification's button (the dashboard marks its id)
      turns its label to "read" and keeps the card's list in place. */
  lemma MarkingOneUpdatesCard(ns: seq<Notice>, i: int)
    requires 0 <= i < |Render(ns).shown|
    ensures |Render(MarkAsRead(ns, ns[i].id)).shown| == |Render(ns).shown|
    ensures ButtonLabel(Render(MarkAsRead(ns, ns[i].id)).shown[i]) == ReadLabel
  {
    var m := MarkAsRead(ns, ns[i].id);
    assert Render(m).shown[i] == m[i];
  }

  /** After "mark all" the header is gone and every listed button reads "read". */
  lemma MarkingAllUpdatesCard(ns: seq<Notice>)
    ensures Render(MarkAllAsRead(ns)).header == Header(None, false)
    ensures forall j :: 0 <= j < |Render(MarkAllAsRead(ns)).shown| ==>
              ButtonLabel(Render(MarkAllAsRead(ns)).shown[j]) == ReadLabel
  {
    MarkAllClearsHeader(ns);
  }
}
