/** The home page's derived figures: the three strips, the per-category
    counts and the total view count. */
module Home {
  import opened Seqs
  import opened Listings
  import opened WebsiteStore
  import WebsiteDetail

  /** `getFeaturedWebsites().slice(0, 3)`. */
  function FeaturedStrip(s: Store): (r: seq<Listing>)
    ensures |r| <= 3 && |r| <= |Featured(s)|
    ensures r == Featured(s)[..|r|]
    ensures |r| == 3 || r == Featured(s)
  {
    Take(Featured(s), 3)
  }

  /** `getPopularWebsites().slice(0, 6)`. */
  function PopularStrip(s: Store): (r: seq<Listing>)
    ensures |r| <= 6 && |r| <= |Popular(s)|
    ensures r == Popular(s)[..|r|]
    ensures |r| == 6 || r == Popular(s)
  {
    Take(Popular(s), 6)
  }

  /** `getRecentWebsites().slice(0, 6)`. */
  function RecentStrip(s: Store): (r: seq<Listing>)
    ensures |r| <= 6 && |r| <= |Recent(s)|
    ensures r == Recent(s)[..|r|]
    ensures |r| == 6 || r == Recent(s)
  {
    Take(Recent(s), 6)
  }

  /** The popular strip shows the most viewed listings: none left out has
      more views than one shown. */
  lemma PopularStripHasTopViews(s: Store)
    ensures forall x, y :: x in PopularStrip(s) && y in s && y !in PopularStrip(s) ==> x.views >= y.views
  {
    var p := Popular(s);
    var r := PopularStrip(s);
    forall x, y | x in r && y in s && y !in r ensures x.views >= y.views {
      var i :| 0 <= i < |r| && r[i] == x;
      assert y in multiset(p);
      var j :| 0 <= j < |p| && p[j] == y;
      assert p[i] == x;
      assert i < j;
    }
  }

  /** Number of listings whose category is exactly `c` (case-sensitive). */
  function CountIn(s: Store, c: string): (n: nat)
    ensures n <= |s|
    ensures n == 0 <==> forall i :: 0 <= i < |s| ==> s[i].category != c
    ensures n == |s| <==> forall i :: 0 <= i < |s| ==> s[i].category == c
    ensures n == Hits(CategoryColumn(s), c)
  {
    var r := Filter(s, (x: Listing) => x.category == c);
    CountInBounds(s, c);
    FilterCountsHits(s, c);
    |r|
  }

  /** The filter keeps one listing per entry of the category column equal
      to `c`. */
  lemma {:induction false} FilterCountsHits(s: Store, c: string)
    ensures |Filter(s, (x: Listing) => x.category == c)| == Hits(CategoryColumn(s), c)
    decreases |s|
  {
    if |s| > 0 {
      FilterCountsHits(s[1..], c);
      assert CategoryColumn(s)[1..] == CategoryColumn(s[1..]);
      assert CategoryColumn(s)[0] == s[0].category;
    }
  }

  lemma CountInBounds(s: Store, c: string)
    ensures var r := Filter(s, (x: Listing) => x.category == c);
      && (|r| == 0 <==> forall i :: 0 <= i < |s| ==> s[i].category != c)
      && (|r| == |s| <==> forall i :: 0 <= i < |s| ==> s[i].category == c)
  {
    var p := (x: Listing) => x.category == c;
    var r := Filter(s, p);
    if exists i :: 0 <= i < |s| && s[i].category == c {
      var i :| 0 <= i < |s| && s[i].category == c;
      assert multiset(r)[s[i]] == multiset(s)[s[i]] > 0;
    }
    if |r| > 0 {
      assert p(r[0]);
      assert multiset(s)[r[0]] == multiset(r)[r[0]] > 0;
    }
    if forall i :: 0 <= i < |s| ==> s[i].category == c {
      FilterAll(s, p);
    } else {
      var i :| 0 <= i < |s| && s[i].category != c;
      var y := s[i];
      assert multiset(r) <= multiset(s) - multiset{y} by {
        forall x ensures multiset(r)[x] <= (multiset(s) - multiset{y})[x] {
          if x == y { assert multiset(r)[x] == 0; }
        }
      }
      assert y in multiset(s);
      SubMultisetSize(multiset(r), multiset(s) - multiset{y});
      assert |multiset(s) - multiset{y}| == |s| - 1;
    }
  }

  lemma SubMultisetSize(a: multiset<Listing>, b: multiset<Listing>)
    requires a <= b
    ensures |a| <= |b|
  {
    assert b == a + (b - a);
  }

  /** The `reduce` that fills `websiteCounts`, from accumulator `acc`. */
  function CountsFrom(cats: seq<string>, s: Store, acc: map<string, nat>): (m: map<string, nat>)
    ensures m.Keys == acc.Keys + (set c | c in cats)
    ensures forall c :: c in cats ==> m[c] == CountIn(s, c)
    ensures forall c :: c in acc && c !in cats ==> m[c] == acc[c]
    decreases |cats|
  {
    if |cats| == 0 then acc
    else
      assert cats == [cats[0]] + cats[1..];
      CountsFrom(cats[1..], s, acc[cats[0] := CountIn(s, cats[0])])
  }

  /** `websiteCounts`: every category in the list mapped to its number of
      listings. */
  function WebsiteCounts(cats: seq<string>, s: Store): (m: map<string, nat>)
    ensures m.Keys == set c | c in cats
    ensures forall c :: c in cats ==> m[c] == CountIn(s, c)
  {
    CountsFrom(cats, s, map[])
  }

  /** Sum of the counts of the categories in the list. */
  function SumCounts(cats: seq<string>, m: map<string, nat>): nat
    requires forall c :: c in cats ==> c in m
  {
    if |cats| == 0 then 0 else m[cats[0]] + SumCounts(cats[1..], m)
  }

  /** For the derived category list, every count is at least one. */
  lemma CountsPositive(s: Store)
    ensures forall c :: c in Categories(s) ==> WebsiteCounts(Categories(s), s)[c] >= 1
  {
    forall c | c in Categories(s) ensures CountIn(s, c) >= 1 {
      var x :| x in s && x.category == c;
      FilterMembership(s, (y: Listing) => y.category == c, x);
    }
  }

  /** For the derived category list, the counts add up to the number of
      listings: every listing is counted once. */
  lemma CountsSumToSize(s: Store)
    ensures SumCounts(Categories(s), WebsiteCounts(Categories(s), s)) == |s|
  {
    var cats := Categories(s);
    SumOfCounts(cats, s, WebsiteCounts(cats, s));
    CountPartition(cats, s);
  }

  /** Sum over the list of the counts in the store. */
  function SumCountIn(cats: seq<string>, s: Store): nat
  {
    if |cats| == 0 then 0 else CountIn(s, cats[0]) + SumCountIn(cats[1..], s)
  }

  lemma {:induction false} SumOfCounts(cats: seq<string>, s: Store, m: map<string, nat>)
    requires forall c :: c in cats ==> c in m && m[c] == CountIn(s, c)
    ensures SumCounts(cats, m) == SumCountIn(cats, s)
  {
    if |cats| > 0 {
      SumOfCounts(cats[1..], s, m);
    }
  }

  /** Number of entries of the list equal to `c`. */
  function Hits(cats: seq<string>, c: string): nat
  {
    if |cats| == 0 then 0 else (if cats[0] == c then 1 else 0) + Hits(cats[1..], c)
  }

  lemma {:induction false} HitsOnce(cats: seq<string>, c: string)
    requires NoDuplicates(cats)
    requires c in cats
    ensures Hits(cats, c) == 1
  {
    if cats[0] != c {
      HitsOnce(cats[1..], c);
    } else {
      HitsNone(cats[1..], c);
    }
  }

  lemma {:induction false} HitsNone(cats: seq<string>, c: string)
    requires c !in cats
    ensures Hits(cats, c) == 0
  {
    if |cats| > 0 {
      HitsNone(cats[1..], c);
    }
  }

  lemma {:induction false} SumCountInCons(cats: seq<string>, s: Store)
    requires |s| > 0
    ensures SumCountIn(cats, s) == Hits(cats, s[0].category) + SumCountIn(cats, s[1..])
  {
    if |cats| > 0 {
      SumCountInCons(cats[1..], s);
    }
  }

  lemma {:induction false} SumCountInEmpty(cats: seq<string>)
    ensures SumCountIn(cats, []) == 0
  {
    if |cats| > 0 {
      SumCountInEmpty(cats[1..]);
    }
  }

  /** A duplicate-free list covering every category of the store splits the
      store: the counts add up to its size. */
  lemma {:induction false} CountPartition(cats: seq<string>, s: Store)
    requires NoDuplicates(cats)
    requires forall x :: x in s ==> x.category in cats
    ensures SumCountIn(cats, s) == |s|
    decreases |s|
  {
    if |s| == 0 {
      SumCountInEmpty(cats);
    } else {
      SumCountInCons(cats, s);
      HitsOnce(cats, s[0].category);
      assert forall x :: x in s[1..] ==> x in s;
      CountPartition(cats, s[1..]);
      assert SumCountIn(cats, s) == 1 + (|s| - 1);
    }
  }

  /** `websites.reduce((sum, site) => sum + site.views, 0)`. */
  function TotalViews(s: Store): (n: nat)
    ensures forall i :: 0 <= i < |s| ==> s[i].views <= n
    ensures n == 0 <==> forall i :: 0 <= i < |s| ==> s[i].views == 0
  {
    if |s| == 0 then 0 else s[0].views + TotalViews(s[1..])
  }

  /** New listings start with no views, so adding one leaves the total. */
  lemma TotalViewsAfterAdd(s: Store, d: Draft, id: string, now: int)
    ensures TotalViews(Add(s, d, id, now).store) == TotalViews(s)
  {
  }

  /** Replacing one listing changes the total by the difference in views. */
  lemma {:induction false} TotalViewsReplace(s: Store, k: nat, y: Listing)
    requires k < |s|
    ensures TotalViews(s[k := y]) == TotalViews(s) - s[k].views + y.views
  {
    if k > 0 {
      TotalViewsReplace(s[1..], k - 1, y);
      assert s[k := y][1..] == s[1..][k - 1 := y];
    }
  }

  /** With unique ids, one visit of a listing raises the total by one. */
  lemma TotalViewsAfterVisit(s: Store, id: string)
    requires UniqueIds(s)
    requires id in Ids(s)
    ensures TotalViews(WebsiteDetail.HandleVisit(s, id)) == TotalViews(s) + 1
  {
    var k := IndexOf(s, id);
    var y := s[k].(views := s[k].views + 1);
    VisitReplacesOne(s, id, k, y);
    TotalViewsReplace(s, k, y);
  }

  /** With unique ids, a visit replaces exactly the listing with the id. */
  lemma VisitReplacesOne(s: Store, id: string, k: int, y: Listing)
    requires UniqueIds(s)
    requires id in Ids(s)
    requires k == IndexOf(s, id) && y == s[k].(views := s[k].views + 1)
    ensures WebsiteDetail.HandleVisit(s, id) == s[k := y]
  {
    var r := WebsiteDetail.HandleVisit(s, id);
    var t := s[k := y];
    forall i | 0 <= i < |s| ensures r[i] == t[i] {
      if i != k {
        assert s[i].id != id;
      }
    }
  }
}
