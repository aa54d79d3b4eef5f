/** The search page: a non-blank query, the store search, the optional
    category filter and the chosen ordering. */
module SearchPage {
  import opened Wrappers
  import opened Seqs
  import opened Text
  import opened Listings
  import opened Sorting
  import opened WebsiteStore

  function SearchKey(sortBy: string, query: string): SortKey
  {
    KeyNamed(sortBy, ByRelevance(query))
  }

  /** The store's hits for the query, narrowed to the selected category
      when one is selected (the empty selection means all categories). */
  function Candidates(s: Store, query: string, selected: string): (r: Store)
    ensures IsSubseq(r, Search(s, query))
    ensures forall x :: x in r ==> x in Search(s, query)
    ensures selected == "" ==> r == Search(s, query)
    ensures selected != "" ==> forall x :: x in r <==> x in Search(s, query) && SameCategory(x.category, selected)
    ensures selected != "" ==> forall x: Listing :: SameCategory(x.category, selected) ==>
      multiset(r)[x] == multiset(Search(s, query))[x]
  {
    if selected == "" then
      IsSubseqRefl(Search(s, query));
      Search(s, query)
    else ByCategory(Search(s, query), selected)
  }

  /** `searchResults`: nothing for a blank query; otherwise the candidates
      sorted by the chosen key, ties in store order. */
  function Results(s: Store, query: string, selected: string, sortBy: string): (r: seq<Listing>)
    ensures AllSpace(query) ==> r == []
    ensures !AllSpace(query) ==> multiset(r) == multiset(Candidates(s, query, selected))
    ensures !AllSpace(query) ==> Sorted(SearchKey(sortBy, query), r)
    ensures !AllSpace(query) ==> Stable(SearchKey(sortBy, query), Candidates(s, query, selected), r)
    ensures forall x :: x in r ==> x in Search(s, query)
    ensures selected != "" ==> forall x :: x in r ==> SameCategory(x.category, selected)
  {
    if Trim(query) == "" then []
    else
      var c := Candidates(s, query, selected);
      var r := SortBy(SearchKey(sortBy, query), c);
      assert forall x :: x in r ==> x in c by {
        forall x | x in r ensures x in c {
          assert x in multiset(r);
        }
      }
      r
  }

  /** The ordering each sort choice produces, stated on the fields; under
      relevance the result is the title hits in store order followed by the
      other candidates in store order. */
  lemma ResultsOrder(s: Store, query: string, selected: string, sortBy: string)
    requires !AllSpace(query)
    ensures var r := Results(s, query, selected, sortBy);
      && (sortBy == "rating" ==> forall i, j :: 0 <= i < j < |r| ==> r[i].rating >= r[j].rating)
      && (sortBy == "views" ==> forall i, j :: 0 <= i < j < |r| ==> r[i].views >= r[j].views)
      && (sortBy == "recent" ==> forall i, j :: 0 <= i < j < |r| ==> r[i].dateAdded >= r[j].dateAdded)
      && (sortBy == "alphabetical" ==> forall i, j :: 0 <= i < j < |r| ==> LexCompare(r[i].title, r[j].title) <= 0)
      && (sortBy !in {"rating", "views", "recent", "alphabetical"} ==>
            r == TitleHits(query, Candidates(s, query, selected)) + TitleMisses(query, Candidates(s, query, selected)))
  {
    var r := Results(s, query, selected, sortBy);
    SortedMeaning(SearchKey(sortBy, query), r);
    if sortBy !in {"rating", "views", "recent", "alphabetical"} {
      RelevanceIsPartition(query, Candidates(s, query, selected));
    }
  }

  /** Under relevance every title hit comes before every other result. */
  lemma RelevanceHitsFirst(s: Store, query: string, selected: string, sortBy: string)
    requires !AllSpace(query)
    requires sortBy !in {"rating", "views", "recent", "alphabetical"}
    ensures var r := Results(s, query, selected, sortBy);
      forall i, j :: 0 <= i < j < |r| && TitleHit(query, r[j]) ==> TitleHit(query, r[i])
  {
    SortedMeaning(SearchKey(sortBy, query), Results(s, query, selected, sortBy));
  }

  /** `handleSearch`: a non-blank query is stored in the address trimmed;
      a blank one leaves the address as it was. */
  function SubmitQuery(query: string, current: Option<string>): (r: Option<string>)
    ensures AllSpace(query) ==> r == current
    ensures !AllSpace(query) ==> r.Some? && r.value != "" && IsTrimmed(r.value)
    ensures !AllSpace(query) ==> exists lo :: TrimmedAt(query, r.value, lo)
  {
    if Trim(query) != "" then Some(Trim(query)) else current
  }

  /** Submitting the stored query again stores the same value. */
  lemma SubmitQueryIdempotent(query: string, current: Option<string>)
    requires !AllSpace(query)
    ensures SubmitQuery(SubmitQuery(query, current).value, current) == SubmitQuery(query, current)
  {
    TrimIdempotent(query);
  }
}
