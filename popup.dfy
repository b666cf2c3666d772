/** The popup's view state and its event handlers (popup.js). Every browser
    call is an outcome passed in by the caller: `ok`/`removed`/`updated` say
    whether the call's promise resolved, and `queried` is what
    `chrome.tabs.query` resolved to (`None` when it was rejected). */
module Popup {
  import opened Wrappers
  import opened OrderedSet
  import opened TabFilter

  /** The two bulk buttons: whether each is disabled, and whether the focus
      button carries the `primary` class. */
  datatype BulkUI = BulkUI(focusDisabled: bool, closeAllDisabled: bool, focusPrimary: bool)

  /** `updateBulkUI`: both buttons are disabled exactly when nothing is
      selected, and the focus button is highlighted exactly when something is. */
  function BulkControls(selected: seq<TabId>): (b: BulkUI)
    ensures b.focusDisabled <==> |selected| == 0
    ensures b.closeAllDisabled <==> |selected| == 0
    ensures b.focusPrimary <==> |selected| > 0
  {
    var any := |selected| > 0;
    BulkUI(!any, !any, any)
  }

  class ViewState {
    /** The module-level `tabs`: the last tab list the query returned. */
    var tabs: seq<Tab>
    /** `selectedIds`, in insertion order. */
    var selected: seq<TabId>
    /** The search box's current value. */
    var query: string
    /** What the list element shows. */
    var content: ListContent
    /** The bulk buttons. */
    var bulk: BulkUI
    /** A debounced render of the list is scheduled and has not run yet. */
    var searchPending: bool
    /** `window.close()` has run. */
    var closed: bool

    /** The selection has no duplicates, and unless a search render is pending
        or the first query failed, the list shows the render of the current
        tabs under the current query. */
    ghost predicate Valid()
      reads this
    {
      && NoDup(selected)
      && (searchPending || content == LoadError || content == Render(Some(tabs), query))
    }

    /** The state `refresh` leaves, given the tabs, list and buttons before it:
        a rejected query changes nothing, a resolved one replaces the tabs
        wholesale and re-renders. */
    ghost predicate Refreshed(queried: Option<seq<Tab>>, tabs0: seq<Tab>, content0: ListContent, bulk0: BulkUI)
      reads this
    {
      match queried
      case None => tabs == tabs0 && content == content0 && bulk == bulk0
      case Some(ts) =>
        && tabs == ts
        && content == Render(queried, query)
        && bulk == (if |ts| == 0 then bulk0 else BulkControls(selected))
    }

    /** Loading the popup and running `init`. `markup` is the state the
        buttons are declared with in the popup's page. */
    constructor (markup: BulkUI, queried: Option<seq<Tab>>)
      ensures Valid()
      ensures selected == [] && query == "" && !searchPending && !closed
      ensures queried.None? ==> tabs == [] && content == LoadError && bulk == markup
      ensures queried.Some? ==> Refreshed(queried, [], Blank, markup)
    {
      tabs := [];
      selected := [];
      query := "";
      content := Blank;
      bulk := markup;
      searchPending := false;
      closed := false;
      new;
      if queried.Some? {
        tabs := queried.value;
        RenderList();
      } else {
        content := LoadError;
      }
    }

    /** `updateBulkUI`. */
    method UpdateBulkUI()
      modifies this`bulk
      ensures bulk == BulkControls(selected)
    {
      var any := |selected| > 0;
      bulk := bulk.(focusDisabled := !any, closeAllDisabled := !any);
      if any {
        bulk := bulk.(focusPrimary := true);
      } else {
        bulk := bulk.(focusPrimary := false);
      }
    }

    /** `renderList(tabs)`: the empty state, or one card per matching tab in
        list order followed by `updateBulkUI`. The empty state returns before
        the buttons are updated. */
    method RenderList()
      modifies this`content, this`bulk
      ensures content == Render(Some(tabs), query)
      ensures bulk == if |tabs| == 0 then old(bulk) else BulkControls(selected)
    {
      if |tabs| == 0 {
        content := NoTabs;
        return;
      }
      var filtered := Filter(tabs, Matcher(SearchKey(query)));
      ShowCards(filtered);
      UpdateBulkUI();
    }

    /** The card loop of `renderList`: empty the list, then append one card per
        tab of `shown`, in order. */
    method ShowCards(shown: seq<Tab>)
      modifies this`content
      ensures content == Cards(CardsOf(shown))
    {
      content := Cards([]);
      for i := 0 to |shown|
        invariant content == Cards(CardsOf(shown[..i]))
      {
        CardsOfSnoc(shown, i);
        content := Cards(content.cards + [CardOf(shown[i])]);
      }
      assert shown[..|shown|] == shown;
    }

    /** `refresh`: query the tabs, replace `tabs`, re-render. The selection is
        not pruned. */
    method Refresh(queried: Option<seq<Tab>>)
      requires Valid()
      modifies this`tabs, this`content, this`bulk
      ensures Valid()
      ensures selected == old(selected)
      ensures Refreshed(queried, old(tabs), old(content), old(bulk))
    {
      if queried.Some? {
        tabs := queried.value;
        RenderList();
      }
    }

    /** The `onchange` handler of a card's checkbox: add or delete the card's
        tab id, then update the bulk buttons. */
    method ToggleSelect(id: TabId, checked: bool)
      requires Valid()
      modifies this`selected, this`bulk
      ensures Valid()
      ensures selected == if checked then Add(old(selected), id) else Delete(old(selected), id)
      ensures bulk == BulkControls(selected)
    {
      if checked {
        AddNoDup(selected, id);
        selected := Add(selected, id);
      } else {
        DeleteNoDup(selected, id);
        selected := Delete(selected, id);
      }
      UpdateBulkUI();
    }

    /** `activateTab`: activate the tab and focus its window (outcome `ok`),
        then close the popup. */
    method ActivateTab(id: TabId, ok: bool)
      requires Valid()
      modifies this`closed
      ensures Valid()
      ensures closed == (old(closed) || ok)
    {
      if ok {
        closed := true;
      }
    }

    /** `closeTab` (the card's Close button and its Delete key): when the
        removal succeeds, drop the id from the selection and refresh; when it
        fails, change nothing. */
    method CloseTab(id: TabId, removed: bool, queried: Option<seq<Tab>>)
      requires Valid()
      modifies this`selected, this`tabs, this`content, this`bulk
      ensures Valid()
      ensures selected == if removed then Delete(old(selected), id) else old(selected)
      ensures removed ==> Refreshed(queried, old(tabs), old(content), old(bulk))
      ensures !removed ==> tabs == old(tabs) && content == old(content) && bulk == old(bulk)
    {
      if removed {
        DeleteNoDup(selected, id);
        selected := Delete(selected, id);
        Refresh(queried);
      }
    }

    /** The pin button: ask for the opposite of the pinned flag the card was
        rendered with; when that succeeds, refresh. Returns the flag asked for. */
    method TogglePin(tab: Tab, updated: bool, queried: Option<seq<Tab>>) returns (pinned: bool)
      requires Valid()
      modifies this`tabs, this`content, this`bulk
      ensures Valid()
      ensures pinned == !tab.pinned
      ensures updated ==> Refreshed(queried, old(tabs), old(content), old(bulk))
      ensures !updated ==> tabs == old(tabs) && content == old(content) && bulk == old(bulk)
    {
      pinned := !tab.pinned;
      if updated {
        Refresh(queried);
      }
    }

    /** The focus button: with nothing selected, do nothing; otherwise activate
        the first id in insertion order only. Returns the id activated. */
    method FocusSelected(ok: bool) returns (target: Option<TabId>)
      requires Valid()
      modifies this`closed
      ensures Valid()
      ensures target == if |selected| == 0 then None else Some(selected[0])
      ensures closed == (old(closed) || (target.Some? && ok))
    {
      var ids := selected;
      if |ids| == 0 {
        return None;
      }
      target := Some(ids[0]);
      ActivateTab(ids[0], ok);
    }

    /** The close-selected button: with nothing selected, issue no removal;
        otherwise remove the whole selection in one call, and only when that
        succeeds clear the selection and refresh. Returns the batch passed to
        the removal, if any. */
    method CloseSelected(removed: bool, queried: Option<seq<Tab>>) returns (batch: Option<seq<TabId>>)
      requires Valid()
      modifies this`selected, this`tabs, this`content, this`bulk
      ensures Valid()
      ensures batch == if |old(selected)| == 0 then None else Some(old(selected))
      ensures selected == if batch.Some? && removed then [] else old(selected)
      ensures batch.Some? && removed ==> Refreshed(queried, old(tabs), old(content), old(bulk))
      ensures !(batch.Some? && removed) ==> tabs == old(tabs) && content == old(content) && bulk == old(bulk)
    {
      var ids := selected;
      if |ids| == 0 {
        return None;
      }
      batch := Some(ids);
      if removed {
        selected := [];
        Refresh(queried);
      }
    }

    /** An `input` event on the search box: the box holds `text`, and the render
        it schedules replaces any render scheduled before. */
    method SearchInput(text: string)
      requires Valid()
      modifies this`query, this`searchPending
      ensures Valid()
      ensures query == text && searchPending
    {
      query := text;
      searchPending := true;
    }

    /** The scheduled render runs: the list shows the current tabs under the
        query the box holds now. */
    method SearchTimerFires()
      requires Valid() && searchPending
      modifies this`searchPending, this`content, this`bulk
      ensures Valid()
      ensures !searchPending
      ensures content == Render(Some(tabs), query)
      ensures bulk == if |tabs| == 0 then old(bulk) else BulkControls(selected)
    {
      searchPending := false;
      RenderList();
    }
  }
}
