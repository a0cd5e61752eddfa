/**
 * The filtering state of the main view (src/App.tsx): `applyFilters`, which
 * combines the category filter with the search, the two handlers that call it,
 * and the derived `connectedIds` and `displayPubs`. React state becomes a value
 * that each handler returns updated.
 */
module AppFilters {
  import opened Wrappers
  import opened Sequences
  import opened JsText
  import opened Publications

  /** The category value that means "no category filter". */
  const AllCategories := "all"

  /** `search.trim() === ""`. */
  predicate Blank(search: string)
  {
    Trim(search) == ""
  }

  predicate InCategory(p: Publication, category: string)
  {
    category == AllCategories || p.category == category
  }

  /** `applyFilters(search, category)` over `pubs`: a non-blank search replaces the category-only result. */
  function ApplyFilters(pubs: seq<Publication>, search: string, category: string): seq<Publication>
  {
    var filtered := if category != AllCategories then Filter(pubs, (p: Publication) => p.category == category) else pubs;
    if !Blank(search) then Filter(SearchPublications(pubs, search), (p: Publication) => InCategory(p, category))
    else filtered
  }

  /**
   * Whatever the inputs, the result keeps the original order and holds exactly the
   * publications in the category (any, for "all") that match the search when it is
   * not blank.
   */
  lemma ApplyFiltersExact(pubs: seq<Publication>, search: string, category: string)
    ensures var r := ApplyFilters(pubs, search, category);
      && IsSubseq(r, pubs)
      && (Blank(search) && category == AllCategories ==> r == pubs)
      && (forall p :: p in r <==>
           p in pubs && InCategory(p, category) && (Blank(search) || Matches(p, Lower(search))))
      && (forall p :: multiset(r)[p] ==
                      (if InCategory(p, category) && (Blank(search) || Matches(p, Lower(search))) then multiset(pubs)[p] else 0))
  {
    var r := ApplyFilters(pubs, search, category);
    if !Blank(search) {
      var lq := Lower(search);
      var both := (p: Publication) => Matches(p, lq) && InCategory(p, category);
      FilterTwice(pubs, (p: Publication) => Matches(p, lq), (p: Publication) => InCategory(p, category), both);
      assert r == Filter(pubs, both);
      FilterMembers(pubs, both);
      forall p
        ensures multiset(r)[p] == if both(p) then multiset(pubs)[p] else 0
      {
        FilterCount(pubs, both, p);
      }
    } else if category != AllCategories {
      var inCat := (p: Publication) => p.category == category;
      FilterMembers(pubs, inCat);
      forall p
        ensures multiset(r)[p] == if inCat(p) then multiset(pubs)[p] else 0
      {
        FilterCount(pubs, inCat, p);
      }
    } else {
      IsSubseqRefl(pubs);
    }
  }

  lemma FilterMembers(s: seq<Publication>, f: Publication -> bool)
    ensures forall p :: p in Filter(s, f) <==> p in s && f(p)
  {
    var r := Filter(s, f);
    forall p | p in r
      ensures p in s && f(p)
    {
      var i :| 0 <= i < |r| && r[i] == p;
    }
    forall p | p in s && f(p)
      ensures p in r
    {
      var i :| 0 <= i < |s| && s[i] == p;
    }
  }

  /** A search made only of white space filters like an empty one. */
  lemma WhitespaceSearchIsBlank(pubs: seq<Publication>, search: string, category: string)
    requires forall k :: 0 <= k < |search| ==> IsJsSpace(search[k])
    ensures ApplyFilters(pubs, search, category) == ApplyFilters(pubs, "", category)
  {
    TrimEmpty(search);
    TrimEmpty("");
  }

  // ---------------------------------------------------------------------------
  // The view state

  datatype ViewState = ViewState(
    selectedPub: Option<Publication>,
    searchQuery: string,
    filteredPubs: seq<Publication>,
    selectedCategory: string)

  /** The state after mounting: nothing selected, no query, everything shown, category "all". */
  function Initial(pubs: seq<Publication>): ViewState
  {
    ViewState(None, "", pubs, AllCategories)
  }

  /** `handleSearch(query)`. */
  function HandleSearch(pubs: seq<Publication>, s: ViewState, query: string): (r: ViewState)
    ensures r.searchQuery == query && r.selectedCategory == s.selectedCategory && r.selectedPub == s.selectedPub
  {
    s.(searchQuery := query, filteredPubs := ApplyFilters(pubs, query, s.selectedCategory))
  }

  /** `handleCategoryFilter(category)`. */
  function HandleCategoryFilter(pubs: seq<Publication>, s: ViewState, category: string): (r: ViewState)
    ensures r.selectedCategory == category && r.searchQuery == s.searchQuery && r.selectedPub == s.selectedPub
  {
    s.(selectedCategory := category, filteredPubs := ApplyFilters(pubs, s.searchQuery, category))
  }

  /** The shown list is the filter of the current query and category. */
  predicate Synced(pubs: seq<Publication>, s: ViewState)
  {
    s.filteredPubs == ApplyFilters(pubs, s.searchQuery, s.selectedCategory)
  }

  /** The initial state is in sync, and both handlers keep it in sync. */
  lemma HandlersKeepSynced(pubs: seq<Publication>, s: ViewState, query: string, category: string)
    ensures Synced(pubs, Initial(pubs))
    ensures Synced(pubs, HandleSearch(pubs, s, query))
    ensures Synced(pubs, HandleCategoryFilter(pubs, s, category))
  {
    TrimEmpty("");
  }

  /** `connectedIds`: the connections of the selected publication, none without a selection. */
  function ConnectedIds(s: ViewState): (ids: seq<string>)
    ensures s.selectedPub.None? ==> ids == []
    ensures s.selectedPub.Some? ==> ids == s.selectedPub.value.connections
  {
    if s.selectedPub.Some? then s.selectedPub.value.connections else []
  }

  /** `displayPubs`: the filtered list while a query or a category is set, the full list otherwise. */
  function DisplayPubs(pubs: seq<Publication>, s: ViewState): seq<Publication>
  {
    if s.searchQuery != "" || s.selectedCategory != AllCategories then s.filteredPubs else pubs
  }

  /** In a synced state, what is displayed is always the filter of the current query and category. */
  lemma DisplayIsFiltered(pubs: seq<Publication>, s: ViewState)
    requires Synced(pubs, s)
    ensures DisplayPubs(pubs, s) == ApplyFilters(pubs, s.searchQuery, s.selectedCategory)
    ensures s.searchQuery == "" && s.selectedCategory == AllCategories ==> DisplayPubs(pubs, s) == pubs
  {
    TrimEmpty("");
  }
}
