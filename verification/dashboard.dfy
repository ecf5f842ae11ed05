/** The two dashboard pages: the five score bands used to colour exam
    results, which of the loading, error, blank or content views is shown,
    and how fetching the dashboard data moves the page's `loading`, `error`
    and data fields. The HTTP request itself is a parameter: its outcome. */
module Dashboard {
  import opened Common

  /** The bands a result's score falls in. */
  datatype Band = Excellent | VeryGood | Good | Pass | Fail

  /** The chained `score >= 90 ? … : score >= 80 ? … : …` classification. */
  function BandOf(score: int): (b: Band)
    ensures InBand(score, b)
  {
    if score >= 90 then Excellent
    else if score >= 80 then VeryGood
    else if score >= 70 then Good
    else if score >= 60 then Pass
    else Fail
  }

  /** Each band as an interval of scores, stated independently. */
  predicate InBand(score: int, b: Band) {
    match b
    case Excellent => 90 <= score
    case VeryGood => 80 <= score < 90
    case Good => 70 <= score < 80
    case Pass => 60 <= score < 70
    case Fail => score < 60
  }

  /** The bands partition the scores: every score lies in exactly one band,
      the one the classification picks. */
  lemma BandsPartition(score: int, b: Band)
    ensures InBand(score, b) <==> BandOf(score) == b
  {
  }

  /** Position of a band, worst first. */
  function Rank(b: Band): nat {
    match b
    case Fail => 0
    case Pass => 1
    case Good => 2
    case VeryGood => 3
    case Excellent => 4
  }

  /** A higher score never falls in a lower band. */
  lemma BandIsMonotone(a: int, b: int)
    requires a <= b
    ensures Rank(BandOf(a)) <= Rank(BandOf(b))
  {
  }

  /** The colour of a band: green, blue, yellow, orange, red. */
  function BandTone(b: Band): Tone {
    match b
    case Excellent => Green
    case VeryGood => Blue
    case Good => Yellow
    case Pass => Orange
    case Fail => Red
  }

  /** Each band has its own colour, so a result's colour tells its band. */
  lemma BandTonesAreDistinct(a: int, b: int)
    ensures BandTone(BandOf(a)) == BandTone(BandOf(b)) <==> BandOf(a) == BandOf(b)
  {
  }

  /** What a dashboard page renders. */
  datatype View<D> = Spinner | ErrorPanel(message: string) | Blank | Content(data: D)

  /** The fields the view depends on; `data` is absent until a fetch delivers it. */
  datatype Page<D> = Page(loading: bool, error: Option<string>, data: Option<D>)

  /** The page's early returns: loading first, then a truthy error, then
      missing data (nothing is rendered), then the content. */
  function ViewOf<D>(p: Page<D>): (v: View<D>)
    ensures v.Spinner? <==> p.loading
    ensures v.ErrorPanel? <==> !p.loading && Truthy(p.error)
    ensures v.ErrorPanel? ==> v.message == p.error.value
    ensures v.Blank? <==> !p.loading && !Truthy(p.error) && p.data.None?
    ensures v.Content? <==> !p.loading && !Truthy(p.error) && p.data.Some?
    ensures v.Content? ==> v.data == p.data.value
  {
    if p.loading then Spinner
    else if Truthy(p.error) then ErrorPanel(p.error.value)
    else if p.data.None? then Blank
    else Content(p.data.value)
  }

  /** How the request ended: a response with `ok` and its `data` field, a
      response without `ok`, or a throw (`Some(message)` for an `Error`,
      `None` for any other thrown value). */
  datatype Outcome<D> = Fetched(payload: Option<D>) | NotOk | Threw(message: Option<string>)

  /** The message thrown for a response without `ok`. */
  const FetchFailed := "فشل في جلب بيانات الداش بورد"

  /** The message for a thrown value that is not an `Error`. */
  const Unexpected := "حدث خطأ غير متوقع"

  /** The message the catch block stores for a failed fetch. */
  function FailureMessage<D>(o: Outcome<D>): (m: string)
    requires !o.Fetched?
    ensures o.NotOk? ==> m == FetchFailed
    ensures o.Threw? && o.message.None? ==> m == Unexpected
    ensures o.Threw? && o.message.Some? ==> m == o.message.value
  {
    match o
    case NotOk => FetchFailed
    case Threw(msg) => msg.GetOr(Unexpected)
  }

  /** `fetchDashboardData` as written: `loading` is set at the start, the data
      or the error is stored, and `loading` is cleared at the end. The error
      of an earlier attempt is never cleared. */
  function FetchAsWritten<D>(p: Page<D>, o: Outcome<D>): (r: Page<D>)
    ensures !r.loading
    ensures o.Fetched? ==> r.data == o.payload && r.error == p.error
    ensures !o.Fetched? ==> r.data == p.data && r.error == Some(FailureMessage(o))
  {
    var started := p.(loading := true);
    var settled := if o.Fetched? then started.(data := o.payload) else started.(error := Some(FailureMessage(o)));
    settled.(loading := false)
  }

  /** The retry button on the error panel cannot recover: after a failed
      fetch, a retry whose response delivers data still shows the old error. */
  lemma RetryAfterFailureShowsStaleError<D>(p: Page<D>, o: Outcome<D>, d: D)
    requires !o.Fetched? && FailureMessage(o) != ""
    ensures ViewOf(FetchAsWritten(p, o)).ErrorPanel?
    ensures ViewOf(FetchAsWritten(FetchAsWritten(p, o), Fetched(Some(d)))) == ErrorPanel(FailureMessage(o))
  {
  }

  /** The page while a fetch is in flight shows the spinner. */
  function Started<D>(p: Page<D>): (r: Page<D>)
    ensures r.loading && r.error.None? && r.data == p.data
    ensures ViewOf(r).Spinner?
  {
    p.(loading := true, error := None)
  }

  /** The fetch with the earlier error cleared when it starts, which the retry
      button needs. */
  function Fetch<D>(p: Page<D>, o: Outcome<D>): (r: Page<D>)
    ensures !r.loading
    ensures o.Fetched? ==> r.data == o.payload && r.error.None?
    ensures !o.Fetched? ==> r.data == p.data && r.error == Some(FailureMessage(o))
  {
    var started := Started(p);
    var settled := if o.Fetched? then started.(data := o.payload) else started.(error := Some(FailureMessage(o)));
    settled.(loading := false)
  }

  /** After a fetch the page shows what that fetch found, whatever came
      before: its data, nothing for a missing payload, or its own error. An
      `Error` with an empty message stores a falsy error, so the page falls
      back to the data it already had. The
      as-written fetch agrees whenever no error was showing beforehand. */
  lemma FetchShowsOutcome<D>(p: Page<D>, o: Outcome<D>)
    ensures o.Fetched? && o.payload.Some? ==> ViewOf(Fetch(p, o)) == Content(o.payload.value)
    ensures o.Fetched? && o.payload.None? ==> ViewOf(Fetch(p, o)) == Blank
    ensures o.NotOk? ==> ViewOf(Fetch(p, o)) == ErrorPanel(FetchFailed)
    ensures o.Threw? && o.message.None? ==> ViewOf(Fetch(p, o)) == ErrorPanel(Unexpected)
    ensures o.Threw? && o.message.Some? && o.message.value != "" ==> ViewOf(Fetch(p, o)) == ErrorPanel(o.message.value)
    ensures o.Threw? && o.message == Some("") ==> ViewOf(Fetch(p, o)) == (if p.data.Some? then Content(p.data.value) else Blank)
    ensures !Truthy(p.error) ==> ViewOf(FetchAsWritten(p, o)) == ViewOf(Fetch(p, o))
  {
  }
}
