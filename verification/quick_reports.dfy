/** The quick-reports widget: the report list filtered by the selected type
    chip, the status and type lookups, and the action button each report's
    status selects. */
module QuickReports {
  import opened Common

  datatype Report = Report(id: string, title: string, kind: string, status: string)

  /** The chip that shows every report. */
  const All := "all"

  /** A filter chip: the type it selects and its label. */
  datatype Chip = Chip(id: string, caption: string)

  /** `reportTypes`, in display order. */
  const Chips := [
    Chip(All, "الكل"),
    Chip("academic", "أكاديمي"),
    Chip("attendance", "حضور"),
    Chip("performance", "أداء"),
    Chip("financial", "مالي")]

  /** `filteredReports`: the whole list for "all", otherwise the reports of
      the selected type in their original order. */
  function Filtered(reports: seq<Report>, selected: string): (r: seq<Report>)
    ensures selected == All ==> r == reports
    ensures selected != All ==> forall x :: x in r <==> x in reports && x.kind == selected
    ensures selected != All ==> forall x :: multiset(r)[x] == if x.kind == selected then multiset(reports)[x] else 0
    ensures IsSubsequence(r, reports) && |r| <= |reports|
  {
    if selected == All then
      assert Embeds(reports, reports, seq(|reports|, i => i));
      reports
    else Filter(reports, (x: Report) => x.kind == selected)
  }

  /** Filtering again by the same chip changes nothing, and a type chip's
      list is the "all" list filtered by that type. */
  lemma FilteredIsStable(reports: seq<Report>, selected: string)
    ensures Filtered(Filtered(reports, selected), selected) == Filtered(reports, selected)
    ensures Filtered(Filtered(reports, All), selected) == Filtered(reports, selected)
  {
    if selected != All {
      FilterAll(Filtered(reports, selected), (x: Report) => x.kind == selected);
    }
  }

  /** The "no reports" panel shows for an empty filtered list. */
  predicate ShowsEmptyState(reports: seq<Report>, selected: string) {
    |Filtered(reports, selected)| == 0
  }

  /** The empty panel's button selects "all": after it the panel stays only
      when there are no reports at all. A type with a report of its kind
      never shows the panel. */
  lemma ResetShowsEverything(reports: seq<Report>, selected: string)
    ensures Filtered(reports, All) == reports
    ensures ShowsEmptyState(reports, All) <==> |reports| == 0
    ensures (exists i :: 0 <= i < |reports| && reports[i].kind == selected) ==> !ShowsEmptyState(reports, selected)
  {
    if exists i :: 0 <= i < |reports| && reports[i].kind == selected {
      var i :| 0 <= i < |reports| && reports[i].kind == selected;
      assert reports[i] in reports;
      assert reports[i] in Filtered(reports, selected);
    }
  }

  const Unspecified := "غير محدد"

  const Statuses := ["ready", "generating", "error"]

  const Kinds := ["academic", "attendance", "performance", "financial"]

  /** `getStatusLabel`. */
  function StatusLabel(status: string): (r: string)
    ensures r == Unspecified <==> status !in Statuses
  {
    match status
    case "ready" => "جاهز"
    case "generating" => "جاري التوليد"
    case "error" => "خطأ"
    case _ => Unspecified
  }

  /** `getStatusIcon`; an unknown status gets the question mark. */
  function StatusIcon(status: string): (r: string)
    ensures r == "\U{2753}" <==> status !in Statuses
  {
    match status
    case "ready" => "\U{2705}"
    case "generating" => "\U{23F3}"
    case "error" => "\U{274C}"
    case _ => "\U{2753}"
  }

  /** `getStatusColor`, by colour family; an unknown status is grey. */
  function StatusTone(status: string): (r: Tone)
    ensures r == Gray <==> status !in Statuses
  {
    match status
    case "ready" => Green
    case "generating" => Yellow
    case "error" => Red
    case _ => Gray
  }

  /** `getTypeLabel`. */
  function TypeLabel(kind: string): (r: string)
    ensures r == Unspecified <==> kind !in Kinds
  {
    match kind
    case "academic" => "أكاديمي"
    case "attendance" => "حضور"
    case "performance" => "أداء"
    case "financial" => "مالي"
    case _ => Unspecified
  }

  /** A report's type label is the caption of the chip that selects it, and
      the chips after "all" are exactly the known types. */
  lemma TypeLabelsMatchChips()
    ensures forall i :: 1 <= i < |Chips| ==> TypeLabel(Chips[i].id) == Chips[i].caption
    ensures forall i :: 1 <= i < |Chips| ==> Chips[i].id == Kinds[i - 1]
  {
  }

  /** The status lookups agree on which statuses are known, and the labels
      tell the known ones apart. */
  lemma StatusLookupsAgree(a: string, b: string)
    ensures StatusLabel(a) == Unspecified <==> StatusTone(a) == Gray
    ensures StatusIcon(a) == "\U{2753}" <==> StatusTone(a) == Gray
    ensures a in Statuses && b in Statuses ==> (StatusLabel(a) == StatusLabel(b) <==> a == b)
  {
  }

  /** The main button of a report card. */
  datatype Action = Download | Generating | Retry

  /** A ready report downloads, one being generated shows a disabled
      button, and any other status (an error or an unknown one) offers to
      generate again. A second "regenerate" button is always present. */
  function ActionFor(status: string): (a: Action)
    ensures a == Download <==> status == "ready"
    ensures a == Generating <==> status == "generating"
    ensures a == Retry <==> status != "ready" && status != "generating"
  {
    if status == "ready" then Download
    else if status == "generating" then Generating
    else Retry
  }

  /** The button agrees with the status badge: only a green badge downloads,
      only a yellow one is disabled. */
  lemma ActionMatchesBadge(status: string)
    ensures ActionFor(status) == Download <==> StatusTone(status) == Green
    ensures ActionFor(status) == Generating <==> StatusTone(status) == Yellow
  {
  }
}
