/** The directory page: every listing, optionally narrowed to a category,
    in the chosen order. */
module Directory {
  import opened Seqs
  import opened Text
  import opened Listings
  import opened Sorting
  import opened WebsiteStore

  /** The page starts sorted by rating; unrecognised values sort by rating
      too. */
  const InitialSortBy: string := "rating"

  function DirectoryKey(sortBy: string): SortKey
  {
    KeyNamed(sortBy, ByRating)
  }

  /** The listings before sorting: all of them, or those of the selected
      category. */
  function Filtered(s: Store, selected: string): (r: Store)
    ensures IsSubseq(r, s)
    ensures selected == "" ==> r == s
    ensures selected != "" ==> forall x :: x in r <==> x in s && SameCategory(x.category, selected)
    ensures selected != "" ==> forall x: Listing :: SameCategory(x.category, selected) ==> multiset(r)[x] == multiset(s)[x]
  {
    if selected == "" then
      IsSubseqRefl(s);
      s
    else ByCategory(s, selected)
  }

  /** `filteredAndSortedWebsites`: a sorted copy of the filtered listings,
      ties in store order. */
  function Shown(s: Store, selected: string, sortBy: string): (r: seq<Listing>)
    ensures multiset(r) == multiset(Filtered(s, selected))
    ensures selected == "" ==> multiset(r) == multiset(s)
    ensures selected != "" ==> forall x :: x in r <==> x in s && SameCategory(x.category, selected)
    ensures Sorted(DirectoryKey(sortBy), r)
    ensures Stable(DirectoryKey(sortBy), Filtered(s, selected), r)
  {
    var f := Filtered(s, selected);
    var r := SortBy(DirectoryKey(sortBy), f);
    assert forall x :: x in r <==> x in f by {
      forall x ensures x in r <==> x in f {
        assert x in r <==> x in multiset(r);
        assert x in f <==> x in multiset(f);
      }
    }
    r
  }

  /** The ordering each sort choice produces, stated on the fields. The
      initial choice and every unrecognised one order by rating. */
  lemma ShownOrder(s: Store, selected: string, sortBy: string)
    ensures var r := Shown(s, selected, sortBy);
      && (sortBy !in {"views", "recent", "alphabetical"} ==> forall i, j :: 0 <= i < j < |r| ==> r[i].rating >= r[j].rating)
      && (sortBy == "views" ==> forall i, j :: 0 <= i < j < |r| ==> r[i].views >= r[j].views)
      && (sortBy == "recent" ==> forall i, j :: 0 <= i < j < |r| ==> r[i].dateAdded >= r[j].dateAdded)
      && (sortBy == "alphabetical" ==> forall i, j :: 0 <= i < j < |r| ==> LexCompare(r[i].title, r[j].title) <= 0)
  {
    SortedMeaning(DirectoryKey(sortBy), Shown(s, selected, sortBy));
  }

  /** With all categories and the initial ordering, the page is the store
      sorted by rating with ties in store order: exactly `SortBy`. */
  lemma InitialViewIsRatingSort(s: Store)
    ensures Shown(s, "", InitialSortBy) == SortBy(ByRating, s)
  {
  }
}
