/** The category page: the listings of the category named by the route
    slug, in the chosen order, under a capitalised title. */
module CategoryPage {
  import opened Seqs
  import opened Text
  import opened Listings
  import opened Sorting
  import opened WebsiteStore

  /** What the page renders: the empty state, or the sorted listings. */
  datatype CategoryView =
    | EmptyCategory(title: string)
    | Listed(title: string, listings: seq<Listing>)

  /** `categoryTitle`. */
  function CategoryTitle(slug: string): (t: string)
    ensures |t| == |slug|
    ensures |slug| > 0 ==> t[0] == UpperChar(slug[0]) && t[1..] == slug[1..]
  {
    Capitalize(slug)
  }

  /** The page for a slug: the empty state when no listing's category
      matches it case-insensitively, otherwise those listings sorted by the
      chosen key (rating by default), ties in store order. */
  function View(s: Store, slug: string, sortBy: string): (v: CategoryView)
    ensures v.title == CategoryTitle(slug)
    ensures v.EmptyCategory? <==> forall x :: x in s ==> !SameCategory(x.category, slug)
    ensures v.Listed? ==> multiset(v.listings) == multiset(ByCategory(s, slug))
    ensures v.Listed? ==> Sorted(KeyNamed(sortBy, ByRating), v.listings)
    ensures v.Listed? ==> Stable(KeyNamed(sortBy, ByRating), ByCategory(s, slug), v.listings)
  {
    var matching := ByCategory(s, slug);
    if |matching| == 0 then EmptyCategory(CategoryTitle(slug))
    else
      assert matching[0] in matching;
      Listed(CategoryTitle(slug), SortBy(KeyNamed(sortBy, ByRating), matching))
  }

  /** The slug is matched ignoring case: slugs that lower-case alike show
      the same listings in the same order. */
  lemma SlugCaseInsensitive(s: Store, slug1: string, slug2: string, sortBy: string)
    requires ToLower(slug1) == ToLower(slug2)
    ensures View(s, slug1, sortBy).Listed? <==> View(s, slug2, sortBy).Listed?
    ensures View(s, slug1, sortBy).Listed? ==> View(s, slug1, sortBy).listings == View(s, slug2, sortBy).listings
  {
    FilterExt(s, (x: Listing) => SameCategory(x.category, slug1), (x: Listing) => SameCategory(x.category, slug2));
  }

  /** The ordering each sort choice produces, stated on the fields. */
  lemma ViewOrder(s: Store, slug: string, sortBy: string)
    requires View(s, slug, sortBy).Listed?
    ensures var r := View(s, slug, sortBy).listings;
      && (sortBy !in {"views", "recent", "alphabetical"} ==> forall i, j :: 0 <= i < j < |r| ==> r[i].rating >= r[j].rating)
      && (sortBy == "views" ==> forall i, j :: 0 <= i < j < |r| ==> r[i].views >= r[j].views)
      && (sortBy == "recent" ==> forall i, j :: 0 <= i < j < |r| ==> r[i].dateAdded >= r[j].dateAdded)
      && (sortBy == "alphabetical" ==> forall i, j :: 0 <= i < j < |r| ==> LexCompare(r[i].title, r[j].title) <= 0)
  {
    SortedMeaning(KeyNamed(sortBy, ByRating), View(s, slug, sortBy).listings);
  }
}
