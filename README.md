# Focus Tabs popup — a Dafny model

This project models the heart of the browser extension's popup (`popup.js`).
The popup lists the tabs of the current window as cards and narrows the list
by a search box. It also keeps a set of tabs the user has ticked for the two
bulk buttons: "focus", which activates the first ticked tab, and "close
selected", which removes every ticked tab in one call.

The model has six modules:

- `Wrappers`: the `Option` type.
- `Text`: the three JavaScript string operations the search relies on.
  - `trim`, with ECMAScript's whitespace set.
  - `toLowerCase`, folding ASCII letters only.
  - `includes`, as a left-to-right scan.
- `OrderedSet`: the JavaScript `Set` holding the selection, seen as the
  sequence of its members in insertion order. That is the order
  `Array.from` yields, and the order the focus button depends on.
- `TabFilter`: the parts of a tab the list reads, the filter
  `renderList` applies, and what the list shows.
  - The search key is the trimmed, lower-cased query.
  - A tab is kept when the key is a substring of its lower-cased
    `title + ' ' + url`.
  - The list shows one card per kept tab, in order, or the "No tabs found."
    state.
- `Popup`: the popup's state, with its module-level `tabs`, `selectedIds`, the
  search box, the list and the bulk buttons, as the class `ViewState`. It has
  one method per event handler: init, `renderList`, `updateBulkUI`, `refresh`,
  the checkbox, the Close, Pin and Open buttons, the two bulk buttons, and the
  debounced search.
- `Scenarios`: runs of those handlers whose outcomes follow from the
  handlers' contracts alone.

Every browser call is a parameter of the handler that makes it.

- `chrome.tabs.query` becomes `queried: Option<seq<Tab>>`, with `None` when
  the promise is rejected.
- `chrome.tabs.remove` and `chrome.tabs.update` become `removed` and `updated`.
- The activation calls as a whole become `ok`.

Some behaviour of the code may surprise a reader; the model follows the code:

- `refresh` replaces the tab list wholesale and never prunes the selection.
  An id whose tab has gone stays selected.
- A failed single-tab close changes nothing and does not refresh.
- A failed batch close keeps the selection.
- A search that matches nothing renders an empty list, not a message.
- The list's empty-state branch (`popup.js:25-28`) returns before
  `updateBulkUI`. So closing the last tab while it is ticked empties the
  selection but leaves both bulk buttons enabled.
  `Scenarios.ClosingLastTickedTabLeavesButtonsEnabled` shows this.
  A successful batch close whose refresh query is rejected does the same:
  `CloseSelected(true, None)` clears the selection, and the refresh that would
  update the buttons never renders.

The central invariant, `ViewState.Valid`, has two parts:

- The selection has no duplicates.
- Unless a debounced render is pending or the first query failed, the list
  shows exactly `Render(Some(tabs), query)`.

Every handler keeps `Valid`. Each one states its whole new state in terms of
the old state and the pure functions `Render`, `BulkControls`, `Add` and
`Delete`. The lemmas in `Text`, `OrderedSet` and `TabFilter` prove what those
functions mean.

## Model

| member | source | states |
|---|---|---|
| `Text.TrimStartSpec` | popup.js:29 | What `TrimStart` keeps is a suffix of the input, everything it cuts is whitespace, and the kept part does not start with whitespace |
| `Text.TrimEndSpec` | popup.js:29 | What `TrimEnd` keeps is a prefix of the input, everything it cuts is whitespace, and the kept part does not end with whitespace |
| `Text.TrimSpec` | popup.js:29 | `trim` yields a slice of the input that neither starts nor ends with whitespace, and everything outside the slice is whitespace |
| `Text.TrimBlank` | popup.js:29 | A query trims to the empty string exactly when it is all whitespace |
| `Text.TrimIdempotent` | popup.js:29 | Trimming an already trimmed string changes nothing |
| `Text.ToLower` | popup.js:29 | Lower-casing preserves the length |
| `Text.ToLowerAt` | popup.js:32 | Lower-casing maps each character on its own: position `k` of the result is the lower-cased character `k` |
| `Text.ToLowerAppend` | popup.js:32 | Lower-casing `title + ' ' + url` lower-cases each part |
| `Text.ToLowerIdempotent` | popup.js:29 | Lower-casing a lower-cased string changes nothing |
| `Text.ToLowerHasNoUpper` | popup.js:29 | No ASCII upper-case letter survives lower-casing |
| `Text.LowerCharWhitespace` | popup.js:29 | Lower-casing a character neither makes nor unmakes whitespace |
| `Text.TrimStartToLower` | popup.js:29 | Dropping leading whitespace commutes with lower-casing |
| `Text.TrimEndToLower` | popup.js:29 | Dropping trailing whitespace commutes with lower-casing |
| `Text.TrimToLower` | popup.js:29 | `trim` and `toLowerCase` commute, so their order in the search key does not matter |
| `Text.IncludesOccurs` | popup.js:32 | `includes` holds exactly when the needle occurs at some index of the haystack (both directions) |
| `Text.IncludesEmpty` | popup.js:32 | Every string includes the empty key |
| `OrderedSet.Add` | popup.js:93 | `add` keeps the old members at their positions and makes `x` present; the set grows by one exactly when `x` was absent |
| `OrderedSet.AddMembers` | popup.js:93 | After `add(x)` the members are exactly the old ones and `x` |
| `OrderedSet.AddNoDup` | popup.js:93 | `add` keeps the members distinct |
| `OrderedSet.Delete` | popup.js:94 | After `delete(x)`, `x` is absent and the set did not grow |
| `OrderedSet.DeleteMembers` | popup.js:94 | After `delete(x)` the members are exactly the old ones other than `x` |
| `OrderedSet.DeleteNoDup` | popup.js:94 | `delete` keeps the members distinct |
| `OrderedSet.DeleteAbsent` | popup.js:141 | Deleting an id that is not selected changes nothing |
| `OrderedSet.DeleteSplice` | popup.js:141 | Deleting the member at index `i` splices it out and leaves the others in their order |
| `OrderedSet.DeleteAfterAdd` | popup.js:92-96 | Ticking an unticked box and unticking it again restores the selection |
| `OrderedSet.AddAfterDelete` | popup.js:92-96 | Unticking and re-ticking moves the id to the end of insertion order |
| `TabFilter.Filter` | popup.js:30-33 | `filter` never lengthens the list |
| `TabFilter.FilterMembership` | popup.js:30-33 | An item is in the filtered list exactly when it is in the input and the predicate holds of it |
| `TabFilter.FilterAppend` | popup.js:30-33 | Filtering a concatenation filters each part |
| `TabFilter.KeptPositions` | popup.js:30-33 | The positions of the kept items lie within the input and strictly increase |
| `TabFilter.FilterKeepsOrder` | popup.js:30-33 | The filtered list is the input's items at strictly increasing positions, and a position is among them exactly when the predicate holds of its item |
| `TabFilter.FilterKeepsAll` | popup.js:30-33 | When the predicate holds of every item, `filter` returns the input unchanged |
| `TabFilter.BlankQueryKeepsAll` | popup.js:29-33 | An empty or whitespace-only search box keeps every tab |
| `TabFilter.FilterIdempotent` | popup.js:30-33 | Filtering the filtered list again with the same predicate keeps all of it |
| `TabFilter.SearchKeyIgnoresCase` | popup.js:29 | Lower-casing the query's ASCII letters first gives the same search key |
| `TabFilter.KeptIffSubstring` | popup.js:29-33 | A tab is kept exactly when the trimmed, lower-cased query occurs in its lower-cased `(title or '') + ' ' + (url or '')` (both directions) |
| `TabFilter.CardsOf` | popup.js:36-114 | The loop appends exactly one card per shown tab |
| `TabFilter.CardsOfAt` | popup.js:36-114 | Card `k` of the list belongs to the `k`-th shown tab: its id, its title text and its pin label |
| `TabFilter.CardsOfAppend` | popup.js:36-114 | The cards of a concatenation are the cards of each part |
| `TabFilter.CardsOfSnoc` | popup.js:113 | Appending one tab's card extends the list by exactly that card |
| `TabFilter.Render` | popup.js:24-36 | The list shows "No tabs found." exactly when there is no tab list or it is empty; otherwise it shows cards |
| `TabFilter.RenderNoMatches` | popup.js:24-36 | A non-empty tab list renders no card at all exactly when no tab matches the search key |
| `Popup.BulkControls` | popup.js:119-128 | Both bulk buttons are disabled exactly when nothing is selected, and the focus button is highlighted exactly when something is |
| `Popup.ViewState.constructor` | popup.js:13-22 | Init starts with an empty selection; a rejected query leaves no tabs and the error message, a resolved one stores the tabs and renders them |
| `Popup.ViewState.UpdateBulkUI` | popup.js:119-128 | The buttons become `BulkControls` of the selection |
| `Popup.ViewState.RenderList` | popup.js:24-117 | The list becomes `Render` of the tabs under the query; the buttons are updated except on the empty-list branch |
| `Popup.ViewState.ShowCards` | popup.js:35-114 | After the loop the list holds exactly the cards of the shown tabs, in order |
| `Popup.ViewState.Refresh` | popup.js:180-183 | A rejected query changes nothing; a resolved one replaces the tabs wholesale and re-renders; the selection is never pruned; the invariant is kept |
| `Popup.ViewState.ToggleSelect` | popup.js:92-96 | Ticking adds the card's id, unticking deletes it, the buttons follow the selection, and the selection stays duplicate-free |
| `Popup.ViewState.ActivateTab` | popup.js:131-136 | The popup closes exactly when activation and focusing succeed |
| `Popup.ViewState.CloseTab` | popup.js:138-146 | A successful removal deletes the id from the selection and refreshes; a failed one changes neither the selection nor the list |
| `Popup.ViewState.TogglePin` | popup.js:83-86 | The pin request asks for the opposite of the rendered flag; only a successful request refreshes |
| `Popup.ViewState.FocusSelected` | popup.js:148-153 | With nothing selected nothing is activated; otherwise exactly the first id in insertion order is; the selection is untouched |
| `Popup.ViewState.CloseSelected` | popup.js:155-165 | With nothing selected no removal is issued; otherwise the whole selection is removed in one call, and only a successful removal clears the selection and refreshes |
| `Popup.ViewState.SearchInput` | popup.js:175-178 | The box holds the new text, a render is pending, and the earlier pending render is replaced |
| `Popup.ViewState.SearchTimerFires` | popup.js:177 | The pending render shows the current tabs under the query the box holds when it fires |
| `Scenarios.TickThree` | popup.js:93 | Adding three distinct ids gives them in the order added |
| `Scenarios.FocusActivatesFirstTicked` | popup.js:148-153 | After ticking `a`, `b`, `c`, focus activates `a` alone, closes the popup and keeps the selection |
| `Scenarios.RetickPresent` | popup.js:93 | Adding a present id leaves the order unchanged |
| `Scenarios.RetickKeepsPosition` | popup.js:92-96 | Re-ticking a ticked tab does not move it in the selection |
| `Scenarios.RetickAbsent` | popup.js:92-96 | Deleting an id and adding it again puts it last |
| `Scenarios.RetickMovesToEnd` | popup.js:92-96 | Unticking and re-ticking a tab moves it behind the others |
| `Scenarios.RefreshKeepsVanishedId` | popup.js:180-183 | After any resolved refresh, even one without the ticked tab, that tab stays selected |
| `Scenarios.CloseSelectedWithNothingTicked` | popup.js:155-157 | With nothing ticked, the close-selected button issues no removal |
| `Scenarios.CloseSelectedFailure` | popup.js:158-164 | A failed batch removal sends the whole selection in order, keeps it, and leaves the tabs as they were |
| `Scenarios.DebounceRendersLastQuery` | popup.js:174-178 | Several keystrokes before the timer fires give one render, under the last text |
| `Scenarios.ClosingLastTickedTabLeavesButtonsEnabled` | popup.js:24-28 | Closing the only tab while it is ticked empties the selection and shows "No tabs found.", but the bulk buttons stay enabled |

## Left out

- `ai.js` and the options button (`popup.js:167-171`) are not part of this model; neither touches the tab list or the selection.
- The browser calls (`chrome.tabs.query`, `remove`, `update`, `get`, `chrome.windows.update`, `window.close`) are not modelled; their outcomes are the handlers' parameters.
- Each handler is modelled as running to completion in one step. In popup.js the awaits inside `closeTab` (`popup.js:140-142`), the close-selected handler (`popup.js:159-161`), the pin handler (`popup.js:84-85`) and `refresh` (`popup.js:181`) let other handlers run in between. For example, a box ticked while a batch removal is pending is wiped by the `clear` at `popup.js:160`. `CloseTab`, `CloseSelected`, `TogglePin` and `Refresh` assume no other event arrives while their browser calls are pending.
- RenderList: assumes every tab's URL (or `about:blank`) parses. `new URL(...)` at `popup.js:59` throws on an unparseable URL. That throw stops the card loop part-way and skips `updateBulkUI` (`popup.js:116`), and during `init` the catch then shows the load-error message (`popup.js:18-19`). The model's `content == Render(Some(tabs), query)` does not cover that path.
- Timing is not modelled. A pending render whose timer is cleared and rescheduled is one pending slot, and interleavings between a timer and a resolving refresh are not explored.
- The search box before `init` is taken to be empty, and the bulk buttons' initial markup is a constructor parameter.
- Console logging is not modelled.
- The card's DOM structure is not modelled: the favicon and its fallback image, the hostname line computed with `new URL(...)`, class names, roles and tab indices. A `Card` keeps only the tab id, the title text and the pin label.
- The keyboard handlers of a card (`popup.js:108-111`) are not separate members: Enter calls `ActivateTab` and Delete calls `CloseTab`, as the buttons do.
- A rendered checkbox always starts unticked, so after a re-render the user may "tick" an already selected tab. `ToggleSelect` therefore accepts any id and either checked value.
- Text.ToLower: folds only ASCII letters. JavaScript's `toLowerCase` also maps every other Unicode upper-case letter, and strings are sequences of Unicode scalar values rather than UTF-16 code units.
