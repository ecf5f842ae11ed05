/** The header's quick-search box: a case-insensitive substring filter over
    the searchable items and a dropdown whose highlighted row the arrow keys
    move. Typing a long query schedules the search on a 300 ms timer; the
    scheduled searches are kept as a queue of the queries they captured, and
    a separate event runs the oldest one. All timers have the same delay, so
    they fire in the order they were set, and none is ever cancelled. */
module QuickSearch {
  import opened Common
  import opened Text

  datatype Item = Item(id: string, kind: string, title: string, subtitle: string, url: string)

  /** `pending` holds the queries of the search timers not yet fired, oldest first. */
  datatype State = State(isOpen: bool, query: string, results: seq<Item>, loading: bool, selectedIndex: int, pending: seq<string>)

  const Initial := State(false, "", [], false, -1, [])

  /** The search predicate: the lower-cased title or subtitle contains the
      lower-cased query. */
  predicate Matches(item: Item, q: string) {
    Contains(ToLower(item.title), ToLower(q)) || Contains(ToLower(item.subtitle), ToLower(q))
  }

  /** The items the search callback lists for `q`, in their order. */
  function Hits(data: seq<Item>, q: string): seq<Item> {
    Filter(data, (x: Item) => Matches(x, q))
  }

  /** `handleSearch`: the query always takes the typed value. A query shorter
      than two characters empties and closes the dropdown at once; a longer one
      raises the loading flag and schedules its search, leaving the dropdown,
      the results and the highlight as they were until the timer fires. */
  function Search(st: State, q: string): (r: State)
    ensures r.query == q
    ensures |q| < 2 ==> r.results == [] && !r.isOpen && r.pending == st.pending
    ensures |q| >= 2 ==> r.loading && r.pending == st.pending + [q]
    ensures |q| >= 2 ==> r.isOpen == st.isOpen && r.results == st.results
    ensures r.selectedIndex == st.selectedIndex
  {
    if |q| < 2 then st.(query := q, results := [], isOpen := false)
    else st.(query := q, loading := true, pending := st.pending + [q])
  }

  /** The oldest search timer fires: its callback lists, in order, exactly the
      items matching the query it captured (whatever the box shows now), opens
      the dropdown, clears the highlight and the loading flag. Without a
      pending timer nothing happens. */
  function Complete(st: State, data: seq<Item>): (r: State)
    ensures st.pending == [] ==> r == st
    ensures st.pending != [] ==>
              && r.isOpen && r.selectedIndex == -1 && !r.loading
              && r.query == st.query && r.pending == st.pending[1..]
              && (forall x :: x in r.results <==> x in data && Matches(x, st.pending[0]))
              && (forall x :: multiset(r.results)[x] == if Matches(x, st.pending[0]) then multiset(data)[x] else 0)
              && IsSubsequence(r.results, data)
  {
    if st.pending == [] then st
    else
      var q := st.pending[0];
      st.(results := Hits(data, q), isOpen := true, selectedIndex := -1, loading := false,
          pending := st.pending[1..])
  }

  /** Choosing a result (by click or Enter) closes the dropdown and empties the
      query and the results; the highlight is left where it was. */
  function ChooseResult(st: State): (r: State)
    ensures !r.isOpen && r.query == "" && r.results == []
    ensures r.selectedIndex == st.selectedIndex && r.loading == st.loading
  {
    st.(isOpen := false, query := "", results := [])
  }

  datatype Key = ArrowDown | ArrowUp | Enter | Escape | OtherKey

  /** The key handler: keys are ignored while the dropdown is closed. Returns
      the new state and the item handed to `onResultClick`, if any. */
  function OnKey(st: State, key: Key): (r: (State, Option<Item>))
    ensures !st.isOpen ==> r == (st, None)
    ensures st.isOpen && key == ArrowDown ==>
              r.1.None? && r.0 == st.(selectedIndex := if st.selectedIndex < |st.results| - 1 then st.selectedIndex + 1 else st.selectedIndex)
    ensures st.isOpen && key == ArrowUp ==>
              r.1.None? && r.0 == st.(selectedIndex := if st.selectedIndex > 0 then st.selectedIndex - 1 else -1)
    ensures st.isOpen && key == Enter && 0 <= st.selectedIndex < |st.results| ==>
              r == (ChooseResult(st), Some(st.results[st.selectedIndex]))
    ensures st.isOpen && key == Enter && !(0 <= st.selectedIndex < |st.results|) ==> r == (st, None)
    ensures st.isOpen && key == Escape ==> r == (st.(isOpen := false), None)
    ensures key == OtherKey ==> r == (st, None)
  {
    if !st.isOpen then (st, None)
    else
      match key
      case ArrowDown =>
        (st.(selectedIndex := if st.selectedIndex < |st.results| - 1 then st.selectedIndex + 1 else st.selectedIndex), None)
      case ArrowUp =>
        (st.(selectedIndex := if st.selectedIndex > 0 then st.selectedIndex - 1 else -1), None)
      case Enter =>
        if 0 <= st.selectedIndex < |st.results| then (ChooseResult(st), Some(st.results[st.selectedIndex]))
        else (st, None)
      case Escape => (st.(isOpen := false), None)
      case OtherKey => (st, None)
  }

  /** Everything that can happen to the box. */
  datatype Event =
    | Type(q: string)           // the input's value changes
    | TimerFires                // the oldest pending search timer runs its callback
    | Press(key: Key)
    | Focus                     // reopens when the query is long enough
    | ClickOutside
    | ClickResult(i: nat)       // a click on the `i`-th listed row
    | ClearQuery                // the clear button, shown while the query is not empty

  /** Rows are rendered, and so clickable, only while the dropdown is open,
      not loading, and has results. */
  predicate RowsShown(st: State) {
    st.isOpen && !st.loading && |st.results| > 0
  }

  /** The clear button's handler, as written: it empties the query and the
      results and closes the dropdown, then focuses the input. The click had
      moved the focus to the button, so the input's focus handler runs in the
      same batch, and it is the one rendered with the old query: a query of
      two characters or more reopens the dropdown. */
  function ClearAsWritten(st: State): (r: State)
    ensures r.query == "" && r.results == []
    ensures r.isOpen <==> |st.query| >= 2
    ensures r.selectedIndex == st.selectedIndex && r.loading == st.loading && r.pending == st.pending
  {
    var cleared := st.(query := "", results := [], isOpen := false);
    if |st.query| >= 2 then cleared.(isOpen := true) else cleared
  }

  /** The component's handlers, as written: no timer is ever cancelled. */
  function Step(st: State, data: seq<Item>, ev: Event): State {
    match ev
    case Type(q) => Search(st, q)
    case TimerFires => Complete(st, data)
    case Press(key) => OnKey(st, key).0
    case Focus => if |st.query| >= 2 then st.(isOpen := true) else st
    case ClickOutside => st.(isOpen := false)
    case ClickResult(i) => if RowsShown(st) && i < |st.results| then ChooseResult(st) else st
    case ClearQuery => if st.query == "" then st else ClearAsWritten(st)
  }

  function Run(st: State, data: seq<Item>, evs: seq<Event>): State
    decreases |evs|
  {
    if |evs| == 0 then st else Step(Run(st, data, evs[..|evs| - 1]), data, evs[|evs| - 1])
  }

  /** What the handlers keep, timers included: the highlight never drops
      below -1; whenever there are results it is one of them or none; every
      scheduled search is for a long query; and the loading flag is down once
      no search is pending. When the results are empty the highlight can
      point anywhere (it is kept when a short query, a choice or the clear
      button empties them), and the dropdown can be open then (after a focus
      or the clear button), with Enter picking nothing. */
  predicate Inv(st: State) {
    && -1 <= st.selectedIndex
    && (|st.results| > 0 ==> st.selectedIndex < |st.results|)
    && (forall i :: 0 <= i < |st.pending| ==> |st.pending[i]| >= 2)
    && (st.pending == [] ==> !st.loading)
  }

  lemma InitialInv()
    ensures Inv(Initial)
  {
  }

  /** Each event keeps the invariant; in particular the arrow keys keep the
      highlight within -1 .. |results| - 1 whenever there are results. */
  lemma StepKeepsInv(st: State, data: seq<Item>, ev: Event)
    requires Inv(st)
    ensures Inv(Step(st, data, ev))
  {
  }

  /** Any sequence of events keeps the invariant, so a dropdown listing rows
      never highlights a missing one. */
  lemma {:induction false} RunKeepsInv(st: State, data: seq<Item>, evs: seq<Event>)
    requires Inv(st)
    ensures Inv(Run(st, data, evs))
    decreases |evs|
  {
    if |evs| > 0 {
      RunKeepsInv(st, data, evs[..|evs| - 1]);
      StepKeepsInv(Run(st, data, evs[..|evs| - 1]), data, evs[|evs| - 1]);
    }
  }

  /** With the dropdown open and listing rows, Enter picks exactly the
      highlighted row when there is one. */
  lemma EnterPicksHighlighted(st: State)
    requires Inv(st) && st.isOpen && |st.results| > 0 && st.selectedIndex >= 0
    ensures OnKey(st, Enter).1 == Some(st.results[st.selectedIndex])
  {
  }

  /** As written, a search scheduled for a long query still fires after the
      query was shortened: typing "ab" then "a" within 300 ms leaves the
      dropdown open under the one-character query, listing the matches of "ab". */
  lemma StaleSearchReopensShortQuery(data: seq<Item>)
    ensures Run(Initial, data, [Type("ab"), Type("a"), TimerFires]).isOpen
    ensures Run(Initial, data, [Type("ab"), Type("a"), TimerFires]).query == "a"
    ensures Run(Initial, data, [Type("ab"), Type("a"), TimerFires]).results == Hits(data, "ab")
  {
    var evs := [Type("ab"), Type("a"), TimerFires];
    assert evs[..2][..1] == [Type("ab")];
    assert evs[..2] == [Type("ab"), Type("a")];
    var st1 := Run(Initial, data, [Type("ab")]);
    assert st1 == Search(Initial, "ab");
    assert st1.pending == ["ab"];
    var st2 := Run(Initial, data, evs[..2]);
    assert st2 == Search(st1, "a");
  }

  /** As written, the clear button reopens the dropdown it closes: from an
      open dropdown listing one highlighted row under "ab", which keeps the
      invariant, it ends open with an empty query, no results and the
      highlight still on row 0. */
  lemma ClearReopensEmpty(x: Item)
    ensures Inv(State(true, "ab", [x], false, 0, []))
    ensures Step(State(true, "ab", [x], false, 0, []), [x], ClearQuery) == State(true, "", [], false, 0, [])
  {
  }

  /** The handlers with the two repairs: whenever the query changes, the
      pending search timer is cleared before anything is scheduled, and the
      clear button's refocus sees the emptied query, so the dropdown stays
      closed. */
  function DebouncedStep(st: State, data: seq<Item>, ev: Event): (r: State)
    ensures ev.Type? ==> r == Search(st.(pending := []), ev.q)
    ensures ev.ClearQuery? && st.query != "" ==> r == st.(query := "", results := [], isOpen := false, pending := [])
    ensures ev.ClearQuery? && st.query == "" ==> r == st
    ensures !ev.Type? && !ev.ClearQuery? && r.query != st.query ==> r.pending == []
    ensures !ev.Type? && !ev.ClearQuery? && r.query == st.query ==> r == Step(st, data, ev)
  {
    match ev
    case Type(q) => Search(st.(pending := []), q)
    case ClearQuery => if st.query == "" then st else st.(query := "", results := [], isOpen := false, pending := [])
    case _ =>
      var r := Step(st, data, ev);
      if r.query != st.query then r.(pending := []) else r
  }

  function DebouncedRun(st: State, data: seq<Item>, evs: seq<Event>): State
    decreases |evs|
  {
    if |evs| == 0 then st else DebouncedStep(DebouncedRun(st, data, evs[..|evs| - 1]), data, evs[|evs| - 1])
  }

  /** What the debounced box keeps: the dropdown is open only for a query of
      two characters or more; at most one search is pending, and it is for
      the current query; and once it has run, the listed rows are exactly the
      current query's matches and the highlight is one of them or none. */
  predicate DebouncedInv(st: State, data: seq<Item>) {
    && -1 <= st.selectedIndex
    && (|st.results| > 0 ==> st.selectedIndex < |st.results|)
    && (st.isOpen ==> |st.query| >= 2)
    && (st.pending == [] || (st.pending == [st.query] && |st.query| >= 2))
    && (st.pending == [] && |st.query| >= 2 ==> st.results == Hits(data, st.query) && st.selectedIndex < |st.results|)
  }

  lemma DebouncedStepKeepsInv(st: State, data: seq<Item>, ev: Event)
    requires DebouncedInv(st, data)
    ensures DebouncedInv(DebouncedStep(st, data, ev), data)
  {
  }

  /** From the empty box, any sequence of events keeps the dropdown closed
      for short queries, and once the search has settled it shows exactly the
      current query's matches. */
  lemma {:induction false} DebouncedRunKeepsInv(data: seq<Item>, evs: seq<Event>)
    ensures DebouncedInv(DebouncedRun(Initial, data, evs), data)
    ensures DebouncedRun(Initial, data, evs).isOpen ==> |DebouncedRun(Initial, data, evs).query| >= 2
    decreases |evs|
  {
    if |evs| > 0 {
      DebouncedRunKeepsInv(data, evs[..|evs| - 1]);
      DebouncedStepKeepsInv(DebouncedRun(Initial, data, evs[..|evs| - 1]), data, evs[|evs| - 1]);
    }
  }
}
