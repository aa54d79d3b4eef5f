/** The comparators the pages hand to `Array.prototype.sort`, and one stable
    sort that stands for it. Since ECMAScript 2019 that sort is stable, and
    `StableSortIsUnique` shows that every stable sort under these
    comparators returns the same sequence as `SortBy`. */
module Sorting {
  import opened Text
  import opened Listings
  import Seqs

  /** The orderings offered to users. `ByRelevance` carries the query it
      scores titles against. */
  datatype SortKey = ByRating | ByViews | ByRecent | ByTitle | ByRelevance(query: string)

  /** The `switch (sortBy)` of the pages: the four named orderings, and
      `fallback` (the page's `default:` branch) for any other value. */
  function KeyNamed(sortBy: string, fallback: SortKey): (k: SortKey)
    ensures sortBy == "rating" ==> k == ByRating
    ensures sortBy == "views" ==> k == ByViews
    ensures sortBy == "recent" ==> k == ByRecent
    ensures sortBy == "alphabetical" ==> k == ByTitle
    ensures sortBy !in {"rating", "views", "recent", "alphabetical"} ==> k == fallback
  {
    if sortBy == "rating" then ByRating
    else if sortBy == "views" then ByViews
    else if sortBy == "recent" then ByRecent
    else if sortBy == "alphabetical" then ByTitle
    else fallback
  }

  /** Whether the lower-cased title contains the lower-cased query. */
  predicate TitleHit(query: string, x: Listing)
  {
    Includes(ToLower(x.title), ToLower(query))
  }

  /** The relevance score: 2 for a title hit, 1 otherwise. */
  function Relevance(query: string, x: Listing): int
  {
    if TitleHit(query, x) then 2 else 1
  }

  /** The comparator: negative when `a` goes first, positive when `b` does,
      zero for a tie. Only the sign matters to the sort. Rating, views and
      date compare `b` against `a` (descending); titles compare `a` against
      `b` (ascending); relevance subtracts scores (descending). */
  function Compare(k: SortKey, a: Listing, b: Listing): (r: int)
    ensures k.ByRating? ==> (r < 0 <==> a.rating > b.rating) && (r == 0 <==> a.rating == b.rating)
    ensures k.ByViews? ==> (r < 0 <==> a.views > b.views) && (r == 0 <==> a.views == b.views)
    ensures k.ByRecent? ==> (r < 0 <==> a.dateAdded > b.dateAdded) && (r == 0 <==> a.dateAdded == b.dateAdded)
    ensures k.ByTitle? ==> (r == 0 <==> a.title == b.title)
    ensures k.ByRelevance? ==> (r < 0 <==> TitleHit(k.query, a) && !TitleHit(k.query, b))
    ensures k.ByRelevance? ==> (r == 0 <==> TitleHit(k.query, a) == TitleHit(k.query, b))
  {
    match k
    case ByRating => if b.rating > a.rating then 1 else if b.rating < a.rating then -1 else 0
    case ByViews => b.views - a.views
    case ByRecent => b.dateAdded - a.dateAdded
    case ByTitle => LexCompare(a.title, b.title)
    case ByRelevance(q) => Relevance(q, b) - Relevance(q, a)
  }

  /** Every comparator is consistent: it is antisymmetric in sign and its
      non-positive part is reflexive and transitive, so ties form an
      equivalence and the order is a total preorder. */
  lemma CompareConsistent(k: SortKey, a: Listing, b: Listing, c: Listing)
    ensures Compare(k, a, a) == 0
    ensures Compare(k, a, b) < 0 <==> Compare(k, b, a) > 0
    ensures Compare(k, a, b) == 0 <==> Compare(k, b, a) == 0
    ensures Compare(k, a, b) <= 0 && Compare(k, b, c) <= 0 ==> Compare(k, a, c) <= 0
    ensures Compare(k, a, b) == 0 && Compare(k, b, c) == 0 ==> Compare(k, a, c) == 0
  {
    if k.ByTitle? {
      LexCompareFlip(a.title, b.title);
      if Compare(k, a, b) <= 0 && Compare(k, b, c) <= 0 {
        LexCompareTrans(a.title, b.title, c.title);
      }
    }
  }

  /** Pairwise sortedness: no element has to go before an earlier one. */
  predicate Sorted(k: SortKey, s: seq<Listing>)
  {
    forall i, j :: 0 <= i < j < |s| ==> Compare(k, s[i], s[j]) <= 0
  }

  /** The elements of `s` that tie with `e`, in their order in `s`. */
  function TiesWith(k: SortKey, e: Listing, s: seq<Listing>): seq<Listing>
  {
    if |s| == 0 then []
    else (if Compare(k, s[0], e) == 0 then [s[0]] else []) + TiesWith(k, e, s[1..])
  }

  /** Stability: every group of tied elements appears in `output` in the
      same relative order as in `input`. */
  ghost predicate Stable(k: SortKey, input: seq<Listing>, output: seq<Listing>)
  {
    forall e :: TiesWith(k, e, output) == TiesWith(k, e, input)
  }

  /** Puts `x` in front of the first element it does not have to follow. */
  function Insert(k: SortKey, x: Listing, s: seq<Listing>): (r: seq<Listing>)
    ensures |r| == |s| + 1
    ensures multiset(r) == multiset(s) + multiset{x}
  {
    if |s| == 0 then [x]
    else if Compare(k, x, s[0]) <= 0 then [x] + s
    else
      assert s == [s[0]] + s[1..];
      [s[0]] + Insert(k, x, s[1..])
  }

  lemma {:induction false} InsertSorted(k: SortKey, x: Listing, s: seq<Listing>)
    requires Sorted(k, s)
    ensures Sorted(k, Insert(k, x, s))
  {
    var r := Insert(k, x, s);
    if |s| == 0 {
    } else if Compare(k, x, s[0]) <= 0 {
      forall j | 0 < j < |r| ensures Compare(k, x, r[j]) <= 0 {
        CompareConsistent(k, x, s[0], r[j]);
      }
    } else {
      var rest := Insert(k, x, s[1..]);
      InsertSorted(k, x, s[1..]);
      CompareConsistent(k, x, s[0], x);
      forall j | 0 < j < |r| ensures Compare(k, s[0], r[j]) <= 0 {
        assert r[j] in multiset(rest);
        assert r[j] == x || r[j] in s[1..];
      }
    }
  }

  /** One step of `TiesWith` on a sequence with a known head. */
  lemma TiesCons(k: SortKey, e: Listing, h: Listing, t: seq<Listing>)
    ensures TiesWith(k, e, [h] + t)
         == (if Compare(k, h, e) == 0 then [h] else []) + TiesWith(k, e, t)
  {
    assert ([h] + t)[1..] == t;
  }

  /** Two elements that tie with the same element tie with each other, so
      when `x` must follow `y` at most one of them ties with `e`. */
  lemma NotBothTie(k: SortKey, x: Listing, y: Listing, e: Listing)
    requires Compare(k, x, y) > 0
    ensures Compare(k, x, e) != 0 || Compare(k, y, e) != 0
  {
    CompareConsistent(k, x, e, y);
    CompareConsistent(k, y, e, x);
  }

  lemma {:induction false} InsertTies(k: SortKey, x: Listing, s: seq<Listing>, e: Listing)
    ensures TiesWith(k, e, Insert(k, x, s)) == TiesWith(k, e, [x] + s)
  {
    if |s| > 0 && Compare(k, x, s[0]) > 0 {
      var tail := s[1..];
      var hx := if Compare(k, x, e) == 0 then [x] else [];
      var h0 := if Compare(k, s[0], e) == 0 then [s[0]] else [];
      var rest := Insert(k, x, tail);
      var t := TiesWith(k, e, tail);
      calc {
        TiesWith(k, e, Insert(k, x, s));
        { assert Insert(k, x, s) == [s[0]] + rest; }
        TiesWith(k, e, [s[0]] + rest);
        { TiesCons(k, e, s[0], rest); }
        h0 + TiesWith(k, e, rest);
        { InsertTies(k, x, tail, e); TiesCons(k, e, x, tail); }
        h0 + (hx + t);
        { NotBothTie(k, x, s[0], e); }
        hx + (h0 + t);
        { TiesCons(k, e, s[0], tail); }
        hx + TiesWith(k, e, [s[0]] + tail);
        { assert [s[0]] + tail == s; }
        hx + TiesWith(k, e, s);
        { TiesCons(k, e, x, s); }
        TiesWith(k, e, [x] + s);
      }
    }
  }

  /** The model of `[...xs].sort(comparator)`: an insertion sort. It
      returns a sorted permutation of its input that keeps ties in input
      order. */
  function SortBy(k: SortKey, s: seq<Listing>): (r: seq<Listing>)
    ensures multiset(r) == multiset(s)
    ensures |r| == |s|
    ensures Sorted(k, r)
    ensures Stable(k, s, r)
  {
    if |s| == 0 then []
    else
      var rest := SortBy(k, s[1..]);
      assert s == [s[0]] + s[1..];
      InsertSorted(k, s[0], rest);
      InsertKeepsStable(k, s[0], s[1..], rest);
      Insert(k, s[0], rest)
  }

  /** Inserting the head into a stable arrangement of the tail gives a
      stable arrangement of the whole sequence. */
  lemma {:induction false} InsertKeepsStable(k: SortKey, x: Listing, tail: seq<Listing>, rest: seq<Listing>)
    requires Stable(k, tail, rest)
    ensures Stable(k, [x] + tail, Insert(k, x, rest))
  {
    forall e ensures TiesWith(k, e, Insert(k, x, rest)) == TiesWith(k, e, [x] + tail) {
      InsertTies(k, x, rest, e);
      assert ([x] + rest)[1..] == rest;
      assert ([x] + tail)[1..] == tail;
    }
  }

  /** The first elements of two sorted arrangements of the same elements
      tie. */
  lemma HeadsTie(k: SortKey, o1: seq<Listing>, o2: seq<Listing>)
    requires |o1| > 0 && |o2| > 0
    requires multiset(o1) == multiset(o2)
    requires Sorted(k, o1) && Sorted(k, o2)
    ensures Compare(k, o1[0], o2[0]) == 0
  {
    var a, b := o1[0], o2[0];
    assert b in multiset(o1);
    assert a in multiset(o2);
    var i :| 0 <= i < |o1| && o1[i] == b;
    var j :| 0 <= j < |o2| && o2[j] == a;
    CompareConsistent(k, a, b, a);
    assert Compare(k, a, b) <= 0 by {
      if i > 0 {
        assert Compare(k, o1[0], o1[i]) <= 0;
      }
    }
    assert Compare(k, b, a) <= 0 by {
      if j > 0 {
        assert Compare(k, o2[0], o2[j]) <= 0;
      }
    }
  }

  /** Removing equal heads keeps the tie groups equal. */
  lemma TailTies(k: SortKey, o1: seq<Listing>, o2: seq<Listing>)
    requires |o1| > 0 && |o2| > 0 && o1[0] == o2[0]
    requires forall e :: TiesWith(k, e, o1) == TiesWith(k, e, o2)
    ensures forall e :: TiesWith(k, e, o1[1..]) == TiesWith(k, e, o2[1..])
  {
    forall e ensures TiesWith(k, e, o1[1..]) == TiesWith(k, e, o2[1..]) {
      var h := if Compare(k, o1[0], e) == 0 then [o1[0]] else [];
      assert TiesWith(k, e, o1) == h + TiesWith(k, e, o1[1..]);
      assert TiesWith(k, e, o2) == h + TiesWith(k, e, o2[1..]);
      assert (h + TiesWith(k, e, o1[1..]))[|h|..] == TiesWith(k, e, o1[1..]);
      assert (h + TiesWith(k, e, o2[1..]))[|h|..] == TiesWith(k, e, o2[1..]);
    }
  }

  lemma TailMultiset(o1: seq<Listing>, o2: seq<Listing>)
    requires |o1| > 0 && |o2| > 0 && o1[0] == o2[0]
    requires multiset(o1) == multiset(o2)
    ensures multiset(o1[1..]) == multiset(o2[1..])
  {
    assert o1 == [o1[0]] + o1[1..] && o2 == [o2[0]] + o2[1..];
    assert multiset(o1[1..]) == multiset(o1) - multiset{o1[0]};
    assert multiset(o2[1..]) == multiset(o2) - multiset{o2[0]};
  }

  lemma SortedTail(k: SortKey, o: seq<Listing>)
    requires |o| > 0 && Sorted(k, o)
    ensures Sorted(k, o[1..])
  {
    forall i, j | 0 <= i < j < |o| - 1 ensures Compare(k, o[1..][i], o[1..][j]) <= 0 {
      assert o[1..][i] == o[i + 1] && o[1..][j] == o[j + 1];
    }
  }

  /** Two sorted sequences with the same elements and the same order within
      every group of ties are equal. */
  lemma {:induction false} SortedTiesDetermine(k: SortKey, o1: seq<Listing>, o2: seq<Listing>)
    requires multiset(o1) == multiset(o2)
    requires Sorted(k, o1) && Sorted(k, o2)
    requires forall e :: TiesWith(k, e, o1) == TiesWith(k, e, o2)
    ensures o1 == o2
    decreases |o1|
  {
    assert |o1| == |multiset(o1)| == |multiset(o2)| == |o2|;
    if |o1| > 0 {
      var a, b := o1[0], o2[0];
      HeadsTie(k, o1, o2);
      CompareConsistent(k, a, b, a);
      assert TiesWith(k, a, o1)[0] == a;
      assert TiesWith(k, a, o2)[0] == b;
      TailTies(k, o1, o2);
      TailMultiset(o1, o2);
      SortedTail(k, o1);
      SortedTail(k, o2);
      SortedTiesDetermine(k, o1[1..], o2[1..]);
      assert o1 == [a] + o1[1..] && o2 == [a] + o2[1..];
    }
  }

  /** Any stable sort of `s` under the comparator returns exactly
      `SortBy(k, s)`: modelling `Array.prototype.sort` by this one
      insertion sort loses nothing. */
  lemma StableSortIsUnique(k: SortKey, s: seq<Listing>, o: seq<Listing>)
    requires multiset(o) == multiset(s)
    requires Sorted(k, o)
    requires Stable(k, s, o)
    ensures o == SortBy(k, s)
  {
    SortedTiesDetermine(k, o, SortBy(k, s));
  }

  /** What sortedness means for each key, stated on the listing fields. */
  lemma SortedMeaning(k: SortKey, s: seq<Listing>)
    requires Sorted(k, s)
    ensures k.ByRating? ==> forall i, j :: 0 <= i < j < |s| ==> s[i].rating >= s[j].rating
    ensures k.ByViews? ==> forall i, j :: 0 <= i < j < |s| ==> s[i].views >= s[j].views
    ensures k.ByRecent? ==> forall i, j :: 0 <= i < j < |s| ==> s[i].dateAdded >= s[j].dateAdded
    ensures k.ByTitle? ==> forall i, j :: 0 <= i < j < |s| ==> LexCompare(s[i].title, s[j].title) <= 0
    ensures k.ByRelevance? ==>
      forall i, j :: 0 <= i < j < |s| && TitleHit(k.query, s[j]) ==> TitleHit(k.query, s[i])
  {
    if k.ByRelevance? {
      forall i, j | 0 <= i < j < |s| && TitleHit(k.query, s[j]) ensures TitleHit(k.query, s[i]) {
        assert Compare(k, s[i], s[j]) <= 0;
      }
    }
  }

  /** Under relevance, the ties of `e` are the elements whose title hit
      status equals that of `e`: each of the two groups keeps input order. */
  lemma {:induction false} RelevanceTies(q: string, e: Listing, s: seq<Listing>)
    ensures TiesWith(ByRelevance(q), e, s)
         == Seqs.Filter(s, (x: Listing) => TitleHit(q, x) == TitleHit(q, e))
  {
    if |s| > 0 {
      RelevanceTies(q, e, s[1..]);
    }
  }

  lemma {:induction false} TiesWithConcat(k: SortKey, e: Listing, a: seq<Listing>, b: seq<Listing>)
    ensures TiesWith(k, e, a + b) == TiesWith(k, e, a) + TiesWith(k, e, b)
  {
    if |a| > 0 {
      TiesWithConcat(k, e, a[1..], b);
      assert (a + b)[1..] == a[1..] + b;
      assert (a + b)[0] == a[0];
    } else {
      assert a + b == b;
    }
  }

  /** The listings whose title contains the query, in input order. */
  function TitleHits(q: string, s: seq<Listing>): seq<Listing>
  {
    Seqs.Filter(s, (x: Listing) => TitleHit(q, x))
  }

  /** The listings whose title does not contain the query, in input order. */
  function TitleMisses(q: string, s: seq<Listing>): seq<Listing>
  {
    Seqs.Filter(s, (x: Listing) => !TitleHit(q, x))
  }

  /** The ties of `e` under relevance within the title hits and misses of
      `s`, and within `s` itself. */
  lemma RelevanceGroups(q: string, e: Listing, s: seq<Listing>)
    ensures TiesWith(ByRelevance(q), e, TitleHits(q, s) + TitleMisses(q, s))
         == if TitleHit(q, e) then TitleHits(q, s) else TitleMisses(q, s)
    ensures TiesWith(ByRelevance(q), e, s) == if TitleHit(q, e) then TitleHits(q, s) else TitleMisses(q, s)
  {
    var k := ByRelevance(q);
    var h, m := TitleHits(q, s), TitleMisses(q, s);
    var same := (x: Listing) => TitleHit(q, x) == TitleHit(q, e);
    TiesWithConcat(k, e, h, m);
    RelevanceTies(q, e, h);
    RelevanceTies(q, e, m);
    RelevanceTies(q, e, s);
    if TitleHit(q, e) {
      Seqs.FilterAll(h, same);
      Seqs.FilterNone(m, same);
      Seqs.FilterExt(s, same, (x: Listing) => TitleHit(q, x));
    } else {
      Seqs.FilterNone(h, same);
      Seqs.FilterAll(m, same);
      Seqs.FilterExt(s, same, (x: Listing) => !TitleHit(q, x));
    }
  }

  /** Sorting by relevance puts the title hits first and the rest after,
      each group in input order. */
  lemma RelevanceIsPartition(q: string, s: seq<Listing>)
    ensures SortBy(ByRelevance(q), s) == TitleHits(q, s) + TitleMisses(q, s)
  {
    var k := ByRelevance(q);
    var h, m := TitleHits(q, s), TitleMisses(q, s);
    var o := h + m;
    assert multiset(o) == multiset(s) by {
      assert multiset(o) == multiset(h) + multiset(m);
      forall x ensures multiset(o)[x] == multiset(s)[x] {
      }
    }
    assert Sorted(k, o) by {
      forall i, j | 0 <= i < j < |o| ensures Compare(k, o[i], o[j]) <= 0 {
        if j < |h| {
          assert o[i] == h[i] && o[j] == h[j];
        } else if i >= |h| {
          assert o[i] == m[i - |h|] && o[j] == m[j - |h|];
        } else {
          assert o[i] == h[i] && o[j] == m[j - |h|];
        }
      }
    }
    forall e ensures TiesWith(k, e, o) == TiesWith(k, e, s) {
      RelevanceGroups(q, e, s);
    }
    StableSortIsUnique(k, s, o);
  }
}
