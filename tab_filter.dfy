/** The search filter of the popup's tab list and the rows it renders
    (`renderList` in popup.js). */
module TabFilter {
  import opened Wrappers
  import opened Text

  type TabId = int

  /** The part of a browser tab record the list reads: its id, its optional
      title and URL, and whether it is pinned. */
  datatype Tab = Tab(id: TabId, title: Option<string>, url: Option<string>, pinned: bool)

  /** `x || ''` on an optional string: a missing (or empty) value reads as "". */
  function OrEmpty(s: Option<string>): string
  {
    match s
    case Some(v) => v
    case None => ""
  }

  /** The text a tab is searched in: its title, a space, its URL. */
  function SearchText(t: Tab): string
  {
    OrEmpty(t.title) + " " + OrEmpty(t.url)
  }

  /** What the search box's value is compared with: trimmed, then lower-cased. */
  function SearchKey(query: string): string
  {
    ToLower(Trim(query))
  }

  /** The predicate `renderList` passes to `filter`. */
  predicate Matches(t: Tab, key: string)
  {
    Includes(ToLower(SearchText(t)), key)
  }

  /** `Matches` for a fixed key, as the function value handed to `filter`. */
  function Matcher(key: string): Tab -> bool
  {
    t => Matches(t, key)
  }

  /** `Array.prototype.filter`: the items `keep` holds of, in order. */
  function Filter<T>(items: seq<T>, keep: T -> bool): (r: seq<T>)
    ensures |r| <= |items|
  {
    if items == [] then []
    else (if keep(items[0]) then [items[0]] else []) + Filter(items[1..], keep)
  }

  /** An item is kept exactly when it is one of the items and `keep` holds of it. */
  lemma {:induction false} FilterMembership<T>(items: seq<T>, keep: T -> bool, t: T)
    ensures t in Filter(items, keep) <==> t in items && keep(t)
  {
    if items != [] {
      FilterMembership(items[1..], keep, t);
      assert items == [items[0]] + items[1..];
    }
  }

  /** Filtering a concatenation filters each part. */
  lemma {:induction false} FilterAppend<T>(a: seq<T>, b: seq<T>, keep: T -> bool)
    ensures Filter(a + b, keep) == Filter(a, keep) + Filter(b, keep)
  {
    if a == [] {
      assert a + b == b;
    } else {
      var head := if keep(a[0]) then [a[0]] else [];
      assert (a + b)[0] == a[0] && (a + b)[1..] == a[1..] + b;
      assert Filter(a + b, keep) == head + Filter(a[1..] + b, keep);
      FilterAppend(a[1..], b, keep);
      assert Filter(a, keep) == head + Filter(a[1..], keep);
    }
  }

  /** `r` is the elements of `s` at the strictly increasing positions `idx`. */
  ghost predicate Embeds<T>(r: seq<T>, s: seq<T>, idx: seq<int>)
  {
    && |idx| == |r|
    && (forall k :: 0 <= k < |idx| ==> 0 <= idx[k] < |s| && r[k] == s[idx[k]])
    && (forall k, l :: 0 <= k < l < |idx| ==> idx[k] < idx[l])
  }

  /** The positions of the kept items, in increasing order. */
  ghost function KeptPositions<T>(items: seq<T>, keep: T -> bool): (idx: seq<int>)
    ensures forall k :: 0 <= k < |idx| ==> 0 <= idx[k] < |items|
    ensures forall k, l :: 0 <= k < l < |idx| ==> idx[k] < idx[l]
    decreases |items|
  {
    if items == [] then []
    else
      var n := |items| - 1;
      KeptPositions(items[..n], keep) + (if keep(items[n]) then [n] else [])
  }

  /** The filter result is the kept items, each at its own position in the
      input, in the input's relative order, and no other item. */
  lemma {:induction false} FilterKeepsOrder<T>(items: seq<T>, keep: T -> bool)
    ensures Embeds(Filter(items, keep), items, KeptPositions(items, keep))
    ensures forall i :: 0 <= i < |items| ==> (i in KeptPositions(items, keep) <==> keep(items[i]))
    decreases |items|
  {
    if items != [] {
      var n := |items| - 1;
      var p := items[..n];
      assert items == p + [items[n]];
      FilterAppend(p, [items[n]], keep);
      FilterKeepsOrder(p, keep);
      var r := Filter(items, keep);
      var idx := KeptPositions(items, keep);
      var rp := Filter(p, keep);
      var ip := KeptPositions(p, keep);
      assert r == rp + Filter([items[n]], keep);
      assert idx == ip + (if keep(items[n]) then [n] else []);
      forall k | 0 <= k < |idx| ensures 0 <= idx[k] < |items| && r[k] == items[idx[k]] {
        if k < |ip| {
          assert r[k] == rp[k] && idx[k] == ip[k];
        }
      }
      forall i | 0 <= i < |items| ensures i in idx <==> keep(items[i]) {
        if i < n {
          assert items[i] == p[i];
          assert i in idx <==> i in ip;
        } else {
          assert n !in ip;
        }
      }
    }
  }

  /** When `keep` holds of every item, the filter keeps them all. */
  lemma {:induction false} FilterKeepsAll<T>(items: seq<T>, keep: T -> bool)
    requires forall k :: 0 <= k < |items| ==> keep(items[k])
    ensures Filter(items, keep) == items
  {
    if items != [] {
      assert keep(items[0]);
      FilterKeepsAll(items[1..], keep);
      assert [items[0]] + items[1..] == items;
    }
  }

  /** An empty or whitespace-only search box shows every tab. */
  lemma BlankQueryKeepsAll(items: seq<Tab>, query: string)
    requires forall k :: 0 <= k < |query| ==> IsWhitespace(query[k])
    ensures Filter(items, Matcher(SearchKey(query))) == items
  {
    TrimBlank(query);
    assert SearchKey(query) == [];
    forall k | 0 <= k < |items| ensures Matcher(SearchKey(query))(items[k]) {
      IncludesEmpty(ToLower(SearchText(items[k])));
    }
    FilterKeepsAll(items, Matcher(SearchKey(query)));
  }

  /** Filtering the filtered list again keeps all of it. */
  lemma FilterIdempotent<T>(items: seq<T>, keep: T -> bool)
    ensures Filter(Filter(items, keep), keep) == Filter(items, keep)
  {
    var r := Filter(items, keep);
    forall k | 0 <= k < |r| ensures keep(r[k]) {
      FilterMembership(items, keep, r[k]);
    }
    FilterKeepsAll(r, keep);
  }

  /** The search is case-insensitive in the query: changing ASCII letters of the
      query to lower case gives the same key. */
  lemma SearchKeyIgnoresCase(query: string)
    ensures SearchKey(ToLower(query)) == SearchKey(query)
  {
    TrimToLower(query);
    ToLowerIdempotent(Trim(query));
  }

  /** A tab is in the filtered list exactly when the trimmed, lower-cased query
      occurs somewhere in its lower-cased `title + ' ' + url`. */
  lemma KeptIffSubstring(items: seq<Tab>, query: string, t: Tab)
    ensures t in Filter(items, Matcher(SearchKey(query)))
        ==> t in items && exists i :: OccursAt(SearchKey(query), ToLower(SearchText(t)), i)
    ensures t in items && (exists i :: OccursAt(SearchKey(query), ToLower(SearchText(t)), i))
        ==> t in Filter(items, Matcher(SearchKey(query)))
  {
    FilterMembership(items, Matcher(SearchKey(query)), t);
    IncludesOccurs(ToLower(SearchText(t)), SearchKey(query));
  }

  // ---------------------------------------------------------------------------
  // rendering

  /** The parts of a card that depend on the tab: which tab it acts on, the
      title text (`tab.title || '(no title)'`) and the pin button's label. */
  datatype Card = Card(tabId: TabId, titleText: string, pinLabel: string)

  function CardOf(t: Tab): Card
  {
    Card(t.id,
         if OrEmpty(t.title) == "" then "(no title)" else OrEmpty(t.title),
         if t.pinned then "Unpin" else "Pin")
  }

  /** One card per tab, in order. */
  function CardsOf(ts: seq<Tab>): (cs: seq<Card>)
    ensures |cs| == |ts|
  {
    if ts == [] then [] else [CardOf(ts[0])] + CardsOf(ts[1..])
  }

  /** Card `k` is the card of tab `k`. */
  lemma {:induction false} CardsOfAt(ts: seq<Tab>, k: int)
    requires 0 <= k < |ts|
    ensures CardsOf(ts)[k] == CardOf(ts[k])
  {
    if k > 0 {
      CardsOfAt(ts[1..], k - 1);
    }
  }

  lemma {:induction false} CardsOfAppend(a: seq<Tab>, b: seq<Tab>)
    ensures CardsOf(a + b) == CardsOf(a) + CardsOf(b)
  {
    if a == [] {
      assert a + b == b;
    } else {
      assert (a + b)[0] == a[0] && (a + b)[1..] == a[1..] + b;
      CardsOfAppend(a[1..], b);
    }
  }

  /** Appending one tab's card to the cards of a prefix. */
  lemma CardsOfSnoc(ts: seq<Tab>, i: int)
    requires 0 <= i < |ts|
    ensures CardsOf(ts[..i + 1]) == CardsOf(ts[..i]) + [CardOf(ts[i])]
  {
    assert ts[..i + 1] == ts[..i] + [ts[i]];
    CardsOfAppend(ts[..i], [ts[i]]);
  }

  /** What the list element shows. `Blank` is the markup before the first
      query; `LoadError` the message `init` writes when the query fails; `NoTabs`
      the "No tabs found." state; `Cards` one card per shown tab. */
  datatype ListContent = Blank | LoadError | NoTabs | Cards(cards: seq<Card>)

  /** `renderList(items)` with the search box holding `query`. */
  function Render(items: Option<seq<Tab>>, query: string): (r: ListContent)
    ensures r.NoTabs? <==> items.None? || |items.value| == 0
    ensures r.NoTabs? || r.Cards?
  {
    if items.None? || |items.value| == 0 then NoTabs
    else Cards(CardsOf(Filter(items.value, Matcher(SearchKey(query)))))
  }

  /** A non-empty list renders no card at all exactly when no tab matches. */
  lemma RenderNoMatches(items: seq<Tab>, query: string)
    requires items != []
    ensures Render(Some(items), query) == Cards([])
        <==> forall t :: t in items ==> !Matches(t, SearchKey(query))
  {
    var key := SearchKey(query);
    if Filter(items, Matcher(key)) != [] {
      var t := Filter(items, Matcher(key))[0];
      FilterMembership(items, Matcher(key), t);
    } else {
      forall t | t in items ensures !Matches(t, key) {
        FilterMembership(items, Matcher(key), t);
      }
    }
  }
}
