/** The dashboard's navigation sidebar: which sections are expanded, which
    entries are highlighted for the current path, and what a click does. */
module Sidebar {
  import opened Common

  /** A sub-entry of a section. */
  datatype Entry = Entry(id: string, path: string)

  /** A top-level entry. `children` is absent for a plain link; any present
      array, even an empty one, makes it a section (an array is truthy). */
  datatype Item = Item(id: string, path: string, children: Option<seq<Entry>>)

  /** `toggleExpanded`: removes every occurrence of a listed id, or appends an
      unlisted one. */
  function Toggle(expanded: seq<string>, id: string): (r: seq<string>)
    ensures id in r <==> id !in expanded
    ensures forall x :: x != id ==> (x in r <==> x in expanded)
    ensures id !in expanded ==> r == expanded + [id]
    ensures id in expanded ==> IsSubsequence(r, expanded)
    ensures id in expanded ==> forall x :: multiset(r)[x] == if x == id then 0 else multiset(expanded)[x]
  {
    if id in expanded then Filter(expanded, (x: string) => x != id)
    else expanded + [id]
  }

  /** Toggling twice restores membership of every id, and restores the list
      itself when the id was not listed to begin with. */
  lemma {:induction false} ToggleTwice(expanded: seq<string>, id: string)
    ensures forall x :: x in Toggle(Toggle(expanded, id), id) <==> x in expanded
    ensures id !in expanded ==> Toggle(Toggle(expanded, id), id) == expanded
  {
    if id !in expanded {
      var p := (x: string) => x != id;
      FilterAppend(expanded, [id], p);
      FilterAll(expanded, p);
      FilterNone([id], p);
    }
  }

  /** `isChildActive`. */
  predicate IsChildActive(child: Entry, pathname: string) {
    child.path == pathname
  }

  /** `children.some(child => child.path === pathname)`, scanning from the front. */
  function AnyChildActive(children: seq<Entry>, pathname: string): (b: bool)
    ensures b <==> exists i :: 0 <= i < |children| && IsChildActive(children[i], pathname)
  {
    if |children| == 0 then false
    else
      IsChildActive(children[0], pathname) || (
        assert forall i :: 1 <= i < |children| ==> children[1..][i - 1] == children[i];
        AnyChildActive(children[1..], pathname))
  }

  /** `isItemActive`: its own path is current, or one of its children is. */
  function IsItemActive(item: Item, pathname: string): (b: bool)
    ensures b <==> item.path == pathname
                   || (item.children.Some? && exists c :: c in item.children.value && IsChildActive(c, pathname))
  {
    if item.path == pathname then true
    else if item.children.Some? then AnyChildActive(item.children.value, pathname)
    else false
  }

  /** Sub-entries are listed for a section whose id is expanded. */
  predicate ShowsChildren(item: Item, expanded: seq<string>) {
    item.children.Some? && item.id in expanded
  }

  /** The breakpoint below which a navigation also closes the sidebar. */
  const Breakpoint := 1024

  /** What a click on a top-level entry does: the expanded list afterwards,
      where the router goes, and whether `onToggle` closes the sidebar. */
  datatype Click = Click(expanded: seq<string>, navigate: Option<string>, closesSidebar: bool)

  /** `handleItemClick`: a section toggles and never navigates; a link
      navigates to its path and, on a narrow screen, closes the sidebar. */
  function ItemClick(item: Item, expanded: seq<string>, innerWidth: int): (r: Click)
    ensures item.children.Some? ==>
              r.expanded == Toggle(expanded, item.id) && r.navigate.None? && !r.closesSidebar
    ensures item.children.None? ==>
              r.expanded == expanded && r.navigate == Some(item.path) && (r.closesSidebar <==> innerWidth < Breakpoint)
  {
    if item.children.Some? then Click(Toggle(expanded, item.id), None, false)
    else Click(expanded, Some(item.path), innerWidth < Breakpoint)
  }

  /** A click on a section flips whether its sub-entries are listed and leaves
      every other section as it was. */
  lemma ClickFlipsSection(item: Item, other: Item, expanded: seq<string>, innerWidth: int)
    requires item.children.Some?
    requires other.id != item.id
    ensures ShowsChildren(item, ItemClick(item, expanded, innerWidth).expanded) <==> !ShowsChildren(item, expanded)
    ensures ShowsChildren(other, ItemClick(item, expanded, innerWidth).expanded) <==> ShowsChildren(other, expanded)
  {
  }

  /** A sub-entry click navigates to its path and closes the sidebar on a narrow screen. */
  function ChildClick(child: Entry, innerWidth: int): (r: (string, bool))
    ensures r.0 == child.path
    ensures r.1 <==> innerWidth < Breakpoint
  {
    (child.path, innerWidth < Breakpoint)
  }

  /** After following a link the link is highlighted: navigating to an entry's
      path makes it, and the section holding it, active. */
  lemma NavigationHighlights(item: Item, child: Entry, innerWidth: int)
    requires item.children.Some? && child in item.children.value
    ensures IsChildActive(child, ChildClick(child, innerWidth).0)
    ensures IsItemActive(item, ChildClick(child, innerWidth).0)
  {
  }
}
