/** The listing detail page: the not-found branch, the related listings,
    the visit counter and the one-vote rating update. */
module WebsiteDetail {
  import opened Wrappers
  import opened Seqs
  import opened Listings
  import opened WebsiteStore

  /** The page's own state: whether this visitor has rated, and the stars
      given. A fresh page starts with neither. */
  datatype Session = Session(hasRated: bool, userRating: int)

  /** What the page renders for a route id. */
  datatype DetailView = NotFound | Found(website: Listing, related: seq<Listing>)

  /** The other listings in exactly the same category (case-sensitive), in
      store order. */
  function SameCategoryOthers(s: Store, w: Listing): (r: seq<Listing>)
    ensures IsSubseq(r, s)
    ensures forall x :: x in r <==> x in s && x.category == w.category && x.id != w.id
    ensures forall x: Listing :: x.category == w.category && x.id != w.id ==> multiset(r)[x] == multiset(s)[x]
  {
    var r := Filter(s, (x: Listing) => x.category == w.category && x.id != w.id);
    forall x ensures x in r <==> x in s && x.category == w.category && x.id != w.id {
      FilterMembership(s, (x: Listing) => x.category == w.category && x.id != w.id, x);
    }
    r
  }

  /** The related strip: the first three of those. */
  function Related(s: Store, w: Listing): (r: seq<Listing>)
    ensures |r| <= 3
    ensures forall i :: 0 <= i < |r| ==> r[i].category == w.category && r[i].id != w.id && r[i] in s
    ensures |r| <= |SameCategoryOthers(s, w)| && r == SameCategoryOthers(s, w)[..|r|]
    ensures |r| == 3 || r == SameCategoryOthers(s, w)
  {
    var all := SameCategoryOthers(s, w);
    var r := Take(all, 3);
    assert forall i :: 0 <= i < |r| ==> r[i] in all;
    r
  }

  /** The page for a route id: not found when no listing has the id,
      otherwise the first listing with it and its related listings. */
  function View(s: Store, id: string): (v: DetailView)
    ensures v.NotFound? <==> id !in Ids(s)
    ensures v.Found? ==> v.website in s && v.website.id == id
    ensures v.Found? ==> Some(v.website) == GetById(s, id)
    ensures v.Found? ==> v.related == Related(s, v.website)
  {
    match GetById(s, id)
    case None => NotFound
    case Some(w) => Found(w, Related(s, w))
  }

  // ---------------------------------------------------------------------------
  // Rating

  /** The mean after one more vote: `(rating * votes + star) / (votes + 1)`,
      computed exactly. */
  function NewMean(rating: real, votes: nat, star: int): real
  {
    (rating * votes as real + star as real) / (votes + 1) as real
  }

  /** The update object `handleRating` builds: the new mean and one more
      vote, and nothing else. */
  function RatingPatch(w: Listing, star: int): (p: Patch)
    ensures forall x :: Merge(x, p) == x.(rating := NewMean(w.rating, w.votes, star), votes := w.votes + 1)
  {
    EmptyPatch.(rating := Some(NewMean(w.rating, w.votes, star)), votes := Some(w.votes + 1))
  }

  /** A listing after one more vote of `star`. */
  function Rated(w: Listing, star: int): Listing
  {
    RatedFrom(w, w, star)
  }

  /** Record `x` with the rating and vote count that one more vote of
      `star` gives the shown listing `w`. */
  function RatedFrom(x: Listing, w: Listing, star: int): Listing
  {
    x.(rating := NewMean(w.rating, w.votes, star), votes := w.votes + 1)
  }

  /** A worked case: a listing rated 4.0 over three votes that receives a
      five has rating 4.25 over four votes. */
  lemma RatingExample(w: Listing)
    requires w.rating == 4.0 && w.votes == 3
    ensures Rated(w, 5).rating == 4.25 && Rated(w, 5).votes == 4
  {
  }

  /** `handleRating(star)`: only the first call on a page does anything; it
      records the stars, and the shown listing then carries one more vote
      and the new mean. A missing listing has no rating control, so nothing
      changes. */
  function HandleRating(s: Store, id: string, session: Session, star: int): (r: (Store, Session))
    ensures session.hasRated ==> r == (s, session)
    ensures id !in Ids(s) ==> r == (s, session)
    ensures r.1.hasRated <==> session.hasRated || id in Ids(s)
    ensures !session.hasRated && id in Ids(s) ==> r.1 == Session(true, star)
    ensures !session.hasRated && id in Ids(s) ==> GetById(r.0, id) == Some(Rated(GetById(s, id).value, star))
    ensures |r.0| == |s|
    ensures !session.hasRated && id in Ids(s) ==> forall i :: 0 <= i < |s| ==>
      r.0[i] == if s[i].id == id then RatedFrom(s[i], GetById(s, id).value, star) else s[i]
  {
    match GetById(s, id)
    case None => (s, session)
    case Some(w) =>
      if session.hasRated then (s, session)
      else (Rerate(s, w, star), Session(true, star))
  }

  /** The store after `updateWebsite(w.id, { rating, votes })`: every
      record with the id takes one more vote and the new mean computed from
      the shown listing `w`; the rest stay as they were. */
  function Rerate(s: Store, w: Listing, star: int): (r: Store)
    requires GetById(s, w.id) == Some(w)
    ensures |r| == |s|
    ensures GetById(r, w.id) == Some(Rated(w, star))
    ensures forall i :: 0 <= i < |s| ==>
      r[i] == if s[i].id == w.id then RatedFrom(s[i], w, star) else s[i]
  {
    UpdateThenGetById(s, w.id, RatingPatch(w, star));
    Update(s, w.id, RatingPatch(w, star))
  }

  /** A second rating in the same page session changes nothing. */
  lemma RateOnlyOnce(s: Store, id: string, session: Session, first: int, second: int)
    ensures var (s1, session1) := HandleRating(s, id, session, first);
            HandleRating(s1, id, session1, second) == (s1, session1)
  {
    var (s1, session1) := HandleRating(s, id, session, first);
    if !session.hasRated && id in Ids(s) {
      assert GetById(s1, id).Some?;
    }
  }

  /** With a mean in [0, 5] and a vote from the five stars offered, the new
      mean lies between the old mean and the vote, hence in [0, 5]. */
  lemma NewMeanInRange(rating: real, votes: nat, star: int)
    requires 0.0 <= rating <= 5.0
    requires 1 <= star <= 5
    ensures 0.0 <= NewMean(rating, votes, star) <= 5.0
    ensures votes > 0 ==> NewMean(rating, votes, star) >= if rating < star as real then rating else star as real
    ensures votes > 0 ==> NewMean(rating, votes, star) <= if rating < star as real then star as real else rating
    ensures votes == 0 ==> NewMean(rating, votes, star) == star as real
  {
    var n := votes as real;
    var m := NewMean(rating, votes, star);
    var lo := if rating < star as real then rating else star as real;
    var hi := if rating < star as real then star as real else rating;
    assert m * (n + 1.0) == rating * n + star as real;
    assert lo * n <= rating * n <= hi * n;
    assert lo * (n + 1.0) <= m * (n + 1.0) <= hi * (n + 1.0);
    assert lo <= m <= hi;
  }

  /** Sum of a list of votes. */
  function Total(votes: seq<int>): int
  {
    if |votes| == 0 then 0 else Total(votes[..|votes| - 1]) + votes[|votes| - 1]
  }

  /** The arithmetic mean of the votes; no votes give 0, the initial rating. */
  function Mean(votes: seq<int>): real
  {
    if |votes| == 0 then 0.0 else Total(votes) as real / |votes| as real
  }

  /** The update keeps `rating` equal to the mean of all votes cast: a
      listing created with rating 0 and 0 votes that then receives the votes
      `vs` in turn carries `Mean(vs)`. */
  lemma RatingIsRunningMean(vs: seq<int>, star: int)
    ensures NewMean(Mean(vs), |vs|, star) == Mean(vs + [star])
  {
    var n := |vs| as real;
    assert (vs + [star])[..|vs|] == vs;
    assert Total(vs + [star]) == Total(vs) + star;
    if |vs| > 0 {
      assert Mean(vs) * n == Total(vs) as real;
    }
  }

  // ---------------------------------------------------------------------------
  // Visits

  /** The update object `handleVisit` builds: one more view than the shown
      listing has, and nothing else. */
  function VisitPatch(w: Listing): (p: Patch)
    ensures forall x :: Merge(x, p) == x.(views := w.views + 1)
  {
    EmptyPatch.(views := Some(w.views + 1))
  }

  /** `handleVisit`: raises the shown listing's view count by one. A missing
      listing has no visit button, so nothing changes. */
  function HandleVisit(s: Store, id: string): (r: Store)
    ensures |r| == |s|
    ensures id !in Ids(s) ==> r == s
    ensures id in Ids(s) ==> forall i :: 0 <= i < |s| ==>
      r[i] == if s[i].id == id then s[i].(views := GetById(s, id).value.views + 1) else s[i]
  {
    match GetById(s, id)
    case None => s
    case Some(w) => Update(s, w.id, VisitPatch(w))
  }
}
