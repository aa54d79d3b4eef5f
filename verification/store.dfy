/** The listing store held by the website context: the sequence of listings
    and the operations the pages call on it. Each operation is a pure
    function from the current sequence; React's state setter becomes
    "returns the next sequence". */
module WebsiteStore {
  import opened Wrappers
  import opened Seqs
  import opened Text
  import opened Listings
  import opened Sorting

  type Store = seq<Listing>

  function Ids(s: Store): set<string>
  {
    set x | x in s :: x.id
  }

  /** No two listings share an id. */
  predicate UniqueIds(s: Store)
  {
    forall i, j :: 0 <= i < j < |s| ==> s[i].id != s[j].id
  }

  // ---------------------------------------------------------------------------
  // Mutations

  /** The store after an insertion, and the record inserted. */
  datatype Added = Added(store: Store, listing: Listing)

  /** `addWebsite`: the submitted fields are kept; the id and the creation
      time are taken from the caller (the source reads the clock for both);
      the counters start at zero and both flags at false. The record goes
      to the front. */
  function Add(s: Store, d: Draft, id: string, now: int): (r: Added)
    ensures r.store == [r.listing] + s
    ensures |r.store| == |s| + 1 && r.store[1..] == s
    ensures r.listing.id == id && r.listing.dateAdded == now
    ensures r.listing.rating == 0.0 && r.listing.votes == 0 && r.listing.views == 0
    ensures !r.listing.featured && !r.listing.verified
    ensures r.listing.title == d.title && r.listing.url == d.url
    ensures r.listing.description == d.description && r.listing.category == d.category
    ensures r.listing.tags == d.tags && r.listing.image == d.image
  {
    var l := Listing(id, d.title, d.url, d.description, d.category, d.tags, d.image,
                     0.0, 0, 0, false, false, now);
    Added([l] + s, l)
  }

  /** `updateWebsite`: every record with the id gets the patch spread over
      it; all other records stay as they are, in place. */
  function Update(s: Store, id: string, p: Patch): (r: Store)
    ensures |r| == |s|
    ensures forall i :: 0 <= i < |s| && s[i].id != id ==> r[i] == s[i]
    ensures forall i :: 0 <= i < |s| && s[i].id == id ==> r[i] == Merge(s[i], p)
    ensures id !in Ids(s) ==> r == s
  {
    seq(|s|, i requires 0 <= i < |s| => if s[i].id == id then Merge(s[i], p) else s[i])
  }

  /** `deleteWebsite`: drops every record with the id, keeping the rest in
      order. */
  function Delete(s: Store, id: string): (r: Store)
    ensures IsSubseq(r, s)
    ensures forall x :: x in r <==> x in s && x.id != id
    ensures forall x: Listing :: x.id != id ==> multiset(r)[x] == multiset(s)[x]
    ensures id !in Ids(r)
    ensures id !in Ids(s) ==> r == s
  {
    var r := Filter(s, (x: Listing) => x.id != id);
    forall x ensures x in r <==> x in s && x.id != id {
      FilterMembership(s, (x: Listing) => x.id != id, x);
    }
    if id !in Ids(s) then
      FilterAll(s, (x: Listing) => x.id != id);
      r
    else r
  }

  // ---------------------------------------------------------------------------
  // Lookup

  /** Position of the first record with the id, or -1. */
  function IndexOf(s: Store, id: string): (k: int)
    ensures -1 <= k < |s|
    ensures k == -1 <==> id !in Ids(s)
    ensures k >= 0 ==> s[k].id == id
    ensures forall j :: 0 <= j < k || (k == -1 && 0 <= j < |s|) ==> s[j].id != id
  {
    if |s| == 0 then -1
    else if s[0].id == id then 0
    else
      var k := IndexOf(s[1..], id);
      assert s == [s[0]] + s[1..];
      if k == -1 then -1 else k + 1
  }

  /** `getWebsiteById`: the first record with the id, if any. */
  function GetById(s: Store, id: string): (r: Option<Listing>)
    ensures r.None? <==> id !in Ids(s)
    ensures r.Some? ==> r.value in s && r.value.id == id
    ensures r.Some? ==> r.value == s[IndexOf(s, id)]
  {
    var k := IndexOf(s, id);
    if k < 0 then None else Some(s[k])
  }

  // ---------------------------------------------------------------------------
  // Queries

  /** The case-insensitive category comparison the pages and the store use. */
  predicate SameCategory(a: string, b: string)
  {
    ToLower(a) == ToLower(b)
  }

  /** `getWebsitesByCategory` (also the category filter of the directory and
      search pages): the records whose category matches case-insensitively,
      in store order. */
  function ByCategory(s: Store, c: string): (r: Store)
    ensures IsSubseq(r, s)
    ensures forall i :: 0 <= i < |r| ==> SameCategory(r[i].category, c)
    ensures forall x :: x in r <==> x in s && SameCategory(x.category, c)
    ensures forall x: Listing :: SameCategory(x.category, c) ==> multiset(r)[x] == multiset(s)[x]
  {
    var r := Filter(s, (x: Listing) => SameCategory(x.category, c));
    forall x ensures x in r <==> x in s && SameCategory(x.category, c) {
      FilterMembership(s, (x: Listing) => SameCategory(x.category, c), x);
    }
    r
  }

  /** Some tag of `x` contains `term`, ignoring case. */
  predicate TagHit(x: Listing, term: string)
  {
    exists t :: t in x.tags && Includes(ToLower(t), term)
  }

  /** The search predicate for an already lower-cased term. */
  predicate Matches(x: Listing, term: string)
  {
    || Includes(ToLower(x.title), term)
    || Includes(ToLower(x.description), term)
    || Includes(ToLower(x.category), term)
    || TagHit(x, term)
  }

  /** `searchWebsites`: the records where the lower-cased query occurs in the
      lower-cased title, description, category or some tag, in store order.
      The query is used untrimmed; the empty query matches every record. */
  function Search(s: Store, query: string): (r: Store)
    ensures IsSubseq(r, s)
    ensures forall i :: 0 <= i < |r| ==> Matches(r[i], ToLower(query))
    ensures forall x :: x in r <==> x in s && Matches(x, ToLower(query))
    ensures forall x: Listing :: Matches(x, ToLower(query)) ==> multiset(r)[x] == multiset(s)[x]
    ensures query == "" ==> r == s
  {
    var term := ToLower(query);
    var r := Filter(s, (x: Listing) => Matches(x, term));
    forall x ensures x in r <==> x in s && Matches(x, term) {
      FilterMembership(s, (x: Listing) => Matches(x, term), x);
    }
    if query == "" then
      forall i | 0 <= i < |s| ensures Matches(s[i], term) {
        EmptyIncluded(ToLower(s[i].title));
      }
      FilterAll(s, (x: Listing) => Matches(x, term));
      r
    else r
  }

  /** `getFeaturedWebsites`: the featured records in store order. */
  function Featured(s: Store): (r: Store)
    ensures IsSubseq(r, s)
    ensures forall i :: 0 <= i < |r| ==> r[i].featured
    ensures forall x :: x in r <==> x in s && x.featured
    ensures forall x: Listing :: x.featured ==> multiset(r)[x] == multiset(s)[x]
  {
    var r := Filter(s, (x: Listing) => x.featured);
    forall x ensures x in r <==> x in s && x.featured {
      FilterMembership(s, (x: Listing) => x.featured, x);
    }
    r
  }

  /** `getPopularWebsites`: a copy of the store sorted by views, most
      first; equal view counts keep store order. */
  function Popular(s: Store): (r: Store)
    ensures multiset(r) == multiset(s)
    ensures forall i, j :: 0 <= i < j < |r| ==> r[i].views >= r[j].views
    ensures Stable(ByViews, s, r)
  {
    var r := SortBy(ByViews, s);
    SortedMeaning(ByViews, r);
    r
  }

  /** A worked case: listings A, B and C with 10, 50 and 30 views come out
      of `Popular` as B, C, A. */
  lemma {:induction false} PopularExample(a: Listing, b: Listing, c: Listing)
    requires a.views == 10 && b.views == 50 && c.views == 30
    ensures Popular([a, b, c]) == [b, c, a]
  {
    var s := [a, b, c];
    var r := Popular(s);
    ThreeByViews(a, b, c, r);
  }

  /** Three listings with views 10, 50 and 30 have one arrangement with
      views non-increasing. */
  lemma ThreeByViews(a: Listing, b: Listing, c: Listing, r: Store)
    requires a.views == 10 && b.views == 50 && c.views == 30
    requires multiset(r) == multiset([a, b, c])
    requires forall i, j :: 0 <= i < j < |r| ==> r[i].views >= r[j].views
    ensures r == [b, c, a]
  {
    assert |r| == 3 by {
      assert |multiset(r)| == |multiset([a, b, c])|;
    }
    forall i | 0 <= i < 3 ensures r[i] == a || r[i] == b || r[i] == c {
      assert r[i] in multiset(r);
    }
    assert b in multiset(r);
    assert a in multiset(r);
    assert r[0].views >= r[1].views >= r[2].views;
  }

  /** `getRecentWebsites`: a copy of the store sorted by creation time,
      newest first; equal times keep store order. */
  function Recent(s: Store): (r: Store)
    ensures multiset(r) == multiset(s)
    ensures forall i, j :: 0 <= i < j < |r| ==> r[i].dateAdded >= r[j].dateAdded
    ensures Stable(ByRecent, s, r)
  {
    var r := SortBy(ByRecent, s);
    SortedMeaning(ByRecent, r);
    r
  }

  /** The category column of the store, `websites.map(site => site.category)`. */
  function CategoryColumn(s: Store): seq<string>
  {
    Map(s, (x: Listing) => x.category)
  }

  /** The derived category list: each category present in the store exactly
      once, in order of first appearance. */
  function Categories(s: Store): (r: seq<string>)
    ensures NoDuplicates(r)
    ensures forall c :: c in r <==> exists x :: x in s && x.category == c
    ensures forall i :: 0 <= i < |r| ==> r[i] in CategoryColumn(s)
    ensures forall i, j :: 0 <= i < j < |r| ==>
      FirstIndex(CategoryColumn(s), r[i]) < FirstIndex(CategoryColumn(s), r[j])
  {
    var col := CategoryColumn(s);
    forall c ensures c in col <==> exists x :: x in s && x.category == c {
      if c in col {
        var i :| 0 <= i < |col| && col[i] == c;
        assert s[i] in s && s[i].category == c;
      }
    }
    Distinct(col)
  }

  // ---------------------------------------------------------------------------
  // Properties of the mutations

  /** Adding a record with a fresh id keeps ids unique. */
  lemma AddPreservesUniqueIds(s: Store, d: Draft, id: string, now: int)
    requires UniqueIds(s)
    requires id !in Ids(s)
    ensures UniqueIds(Add(s, d, id, now).store)
  {
    var r := Add(s, d, id, now).store;
    forall i, j | 0 <= i < j < |r| ensures r[i].id != r[j].id {
      if i == 0 {
        assert r[j] == s[j - 1];
        assert r[j].id in Ids(s);
      } else {
        assert r[i] == s[i - 1] && r[j] == s[j - 1];
      }
    }
  }

  /** The record just added is what a lookup of its id returns. */
  lemma AddThenGetById(s: Store, d: Draft, id: string, now: int)
    ensures GetById(Add(s, d, id, now).store, id) == Some(Add(s, d, id, now).listing)
  {
  }

  /** An update that does not patch the id keeps ids unique. */
  lemma UpdatePreservesUniqueIds(s: Store, id: string, p: Patch)
    requires UniqueIds(s)
    requires p.id.None?
    ensures UniqueIds(Update(s, id, p))
  {
  }

  /** After an update that does not patch the id, a lookup of that id
      returns the first matching record with the patch spread over it. */
  lemma UpdateThenGetById(s: Store, id: string, p: Patch)
    requires p.id.None?
    ensures GetById(Update(s, id, p), id) == match GetById(s, id)
      case None => None
      case Some(w) => Some(Merge(w, p))
  {
    var r := Update(s, id, p);
    assert Ids(r) == Ids(s) by {
      forall x | x in r ensures x.id in Ids(s) {
        var i :| 0 <= i < |r| && r[i] == x;
        assert s[i].id == x.id;
      }
      forall x | x in s ensures x.id in Ids(r) {
        var i :| 0 <= i < |s| && s[i] == x;
        assert r[i].id == x.id;
      }
    }
    if id in Ids(s) {
      var k := IndexOf(s, id);
      var k' := IndexOf(r, id);
      assert r[k].id == id;
      assert k' == k;
    }
  }

  /** Deleting keeps ids unique. */
  lemma DeletePreservesUniqueIds(s: Store, id: string)
    requires UniqueIds(s)
    ensures UniqueIds(Delete(s, id))
  {
    var r := Delete(s, id);
    SubseqKeepsUniqueIds(r, s);
  }

  lemma {:induction false} SubseqKeepsUniqueIds(a: Store, b: Store)
    requires IsSubseq(a, b)
    requires UniqueIds(b)
    ensures UniqueIds(a)
    decreases |b|
  {
    if |a| > 0 && |b| > 0 {
      if a[0] == b[0] && IsSubseq(a[1..], b[1..]) {
        SubseqKeepsUniqueIds(a[1..], b[1..]);
        assert UniqueIds(b[1..]);
        SubseqMembers(a[1..], b[1..]);
        forall j | 0 < j < |a| ensures a[0].id != a[j].id {
          assert a[j] == a[1..][j - 1];
          assert a[j] in a[1..];
          assert a[j] in b[1..];
          var m :| 0 <= m < |b[1..]| && b[1..][m] == a[j];
          assert b[0].id != b[m + 1].id;
        }
      } else {
        SubseqKeepsUniqueIds(a, b[1..]);
      }
    }
  }

  lemma {:induction false} SubseqMembers(a: Store, b: Store)
    requires IsSubseq(a, b)
    ensures forall x :: x in a ==> x in b
    decreases |b|
  {
    if |a| > 0 && |b| > 0 {
      if a[0] == b[0] && IsSubseq(a[1..], b[1..]) {
        SubseqMembers(a[1..], b[1..]);
        assert a == [a[0]] + a[1..];
      } else {
        SubseqMembers(a, b[1..]);
      }
    }
  }

  /** Once an id is deleted, looking it up finds nothing, and no query can
      return a record with it. */
  lemma DeleteThenGetById(s: Store, id: string)
    ensures GetById(Delete(s, id), id) == None
    ensures forall c, x :: x in ByCategory(Delete(s, id), c) ==> x.id != id
    ensures forall q, x :: x in Search(Delete(s, id), q) ==> x.id != id
  {
  }

  // ---------------------------------------------------------------------------
  // The derived category list follows every mutation

  /** After an add, the categories are the old ones plus the new record's. */
  lemma CategoriesAfterAdd(s: Store, d: Draft, id: string, now: int)
    ensures forall c :: c in Categories(Add(s, d, id, now).store) <==> c in Categories(s) || c == d.category
  {
    var r := Add(s, d, id, now);
    forall c ensures c in Categories(r.store) <==> c in Categories(s) || c == d.category {
      if c in Categories(r.store) {
        var x :| x in r.store && x.category == c;
        assert x == r.listing || x in s;
      }
      assert r.listing in r.store;
    }
  }

  /** After an update that sets the category of a present id to `nc`, the
      categories are `nc` and those of the records with other ids: the new
      category appears, and the old one disappears unless another record
      keeps it. */
  lemma CategoriesAfterUpdate(s: Store, id: string, p: Patch, nc: string)
    requires id in Ids(s)
    requires p.category == Some(nc)
    ensures forall c :: c in Categories(Update(s, id, p)) <==>
      c == nc || exists x :: x in s && x.id != id && x.category == c
  {
    var r := Update(s, id, p);
    forall c ensures c in Categories(r) <==> c == nc || exists x :: x in s && x.id != id && x.category == c {
      if c in Categories(r) {
        var x :| x in r && x.category == c;
        var i :| 0 <= i < |r| && r[i] == x;
        if s[i].id != id {
          assert s[i] in s && s[i].category == c;
        }
      }
      if c == nc {
        var w :| w in s && w.id == id;
        var i :| 0 <= i < |s| && s[i] == w;
        assert r[i] in r && r[i].category == nc;
      }
      if exists x :: x in s && x.id != id && x.category == c {
        var x :| x in s && x.id != id && x.category == c;
        var i :| 0 <= i < |s| && s[i] == x;
        assert r[i] in r && r[i].category == c;
      }
    }
  }

  /** After a delete, the categories are those of the records with other
      ids. */
  lemma CategoriesAfterDelete(s: Store, id: string)
    ensures forall c :: c in Categories(Delete(s, id)) <==>
      exists x :: x in s && x.id != id && x.category == c
  {
  }
}
