/** Runs of the popup's handlers that show, from the handlers' contracts alone,
    how the view state behaves in particular situations. */
module Scenarios {
  import opened Wrappers
  import opened OrderedSet
  import opened TabFilter
  import opened Popup

  /** Ticking three distinct ids keeps them in the order they were ticked. */
  lemma TickThree(a: TabId, b: TabId, c: TabId)
    requires a != b && b != c && a != c
    ensures Add(Add(Add([], a), b), c) == [a, b, c]
  {
    assert Add([], a) == [a];
    assert Add([a], b) == [a, b];
    assert c !in [a, b];
    assert Add([a, b], c) == [a, b] + [c];
  }

  /** Three distinct tabs are ticked in the order `a`, `b`, `c`; the focus
      button activates `a` alone, closes the popup when that succeeds, and
      leaves the selection as it was. */
  method FocusActivatesFirstTicked(markup: BulkUI, ts: seq<Tab>, a: TabId, b: TabId, c: TabId)
    returns (target: Option<TabId>, selection: seq<TabId>, closed: bool)
    requires a != b && b != c && a != c
    ensures target == Some(a)
    ensures selection == [a, b, c]
    ensures closed
  {
    var v := new ViewState(markup, Some(ts));
    v.ToggleSelect(a, true);
    v.ToggleSelect(b, true);
    v.ToggleSelect(c, true);
    TickThree(a, b, c);
    target := v.FocusSelected(true);
    selection := v.selected;
    closed := v.closed;
  }

  /** Adding an id that is already present leaves the order alone. */
  lemma RetickPresent(a: TabId, b: TabId)
    requires a != b
    ensures Add(Add(Add([], a), b), a) == [a, b]
  {
    assert Add([], a) == [a];
    assert Add([a], b) == [a, b];
    assert a in [a, b];
  }

  /** Ticking a tab that is already selected (its box was re-rendered unticked)
      does not move it. */
  method RetickKeepsPosition(markup: BulkUI, ts: seq<Tab>, a: TabId, b: TabId) returns (selection: seq<TabId>)
    requires a != b
    ensures selection == [a, b]
  {
    var v := new ViewState(markup, Some(ts));
    v.ToggleSelect(a, true);
    v.ToggleSelect(b, true);
    v.ToggleSelect(a, true);
    RetickPresent(a, b);
    selection := v.selected;
  }

  /** Deleting an id and adding it again puts it last. */
  lemma RetickAbsent(a: TabId, b: TabId)
    requires a != b
    ensures Add(Delete(Add(Add([], a), b), a), a) == [b, a]
  {
    assert Add([], a) == [a];
    assert Add([a], b) == [a, b];
    assert [a, b][1..] == [b];
    assert Delete([b], a) == [b];
  }

  /** Unticking a tab and ticking it again moves it to the end of the order. */
  method RetickMovesToEnd(markup: BulkUI, ts: seq<Tab>, a: TabId, b: TabId) returns (selection: seq<TabId>)
    requires a != b
    ensures selection == [b, a]
  {
    var v := new ViewState(markup, Some(ts));
    v.ToggleSelect(a, true);
    v.ToggleSelect(b, true);
    v.ToggleSelect(a, false);
    v.ToggleSelect(a, true);
    RetickAbsent(a, b);
    selection := v.selected;
  }

  /** Whatever tab list a refresh brings, even one without the ticked tab, the
      tab stays selected: the selection is never pruned. */
  method RefreshKeepsVanishedId(markup: BulkUI, ts: seq<Tab>, later: seq<Tab>, a: TabId)
    returns (selection: seq<TabId>, tabs: seq<Tab>)
    ensures selection == [a]
    ensures tabs == later
  {
    var v := new ViewState(markup, Some(ts));
    v.ToggleSelect(a, true);
    v.Refresh(Some(later));
    selection := v.selected;
    tabs := v.tabs;
  }

  /** The close-selected button with nothing ticked issues no removal. */
  method CloseSelectedWithNothingTicked(markup: BulkUI, ts: seq<Tab>, removed: bool, queried: Option<seq<Tab>>)
    returns (batch: Option<seq<TabId>>)
    ensures batch == None
  {
    var v := new ViewState(markup, Some(ts));
    batch := v.CloseSelected(removed, queried);
  }

  /** A failed batch removal keeps the selection and does not refresh. */
  method CloseSelectedFailure(markup: BulkUI, ts: seq<Tab>, a: TabId, b: TabId, queried: Option<seq<Tab>>)
    returns (batch: Option<seq<TabId>>, selection: seq<TabId>, tabs: seq<Tab>)
    requires a != b
    ensures batch == Some([a, b])
    ensures selection == [a, b]
    ensures tabs == ts
  {
    var v := new ViewState(markup, Some(ts));
    v.ToggleSelect(a, true);
    v.ToggleSelect(b, true);
    assert v.selected == [a, b];
    batch := v.CloseSelected(false, queried);
    selection := v.selected;
    tabs := v.tabs;
  }

  /** Three keystrokes before the scheduled render runs give one render, of the
      last value of the search box. */
  method DebounceRendersLastQuery(markup: BulkUI, ts: seq<Tab>, q1: string, q2: string, q3: string)
    returns (shown: ListContent)
    ensures shown == Render(Some(ts), q3)
  {
    var v := new ViewState(markup, Some(ts));
    v.SearchInput(q1);
    v.SearchInput(q2);
    v.SearchInput(q3);
    v.SearchTimerFires();
    shown := v.content;
  }

  /** Closing the only tab while it is ticked empties the selection, but the
      list then takes the "No tabs found." branch, which returns before the bulk
      buttons are updated: they stay enabled with nothing selected. */
  method ClosingLastTickedTabLeavesButtonsEnabled(markup: BulkUI, t: Tab)
    returns (selection: seq<TabId>, shown: ListContent, bulk: BulkUI)
    ensures selection == []
    ensures shown == NoTabs
    ensures !bulk.focusDisabled && !bulk.closeAllDisabled
  {
    var v := new ViewState(markup, Some([t]));
    v.ToggleSelect(t.id, true);
    v.CloseTab(t.id, true, Some([]));
    selection := v.selected;
    shown := v.content;
    bulk := v.bulk;
  }
}
