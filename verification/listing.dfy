/** The listing record, the partial record handed to the store when a
    listing is created, and the patch object `updateWebsite` spreads over a
    record. */
module Listings {
  import opened Wrappers

  /** One directory entry. `dateAdded` is the creation time as a number of
      milliseconds; `rating` is the exact mean of the votes received. */
  datatype Listing = Listing(
    id: string,
    title: string,
    url: string,
    description: string,
    category: string,
    tags: seq<string>,
    image: string,
    rating: real,
    votes: nat,
    views: nat,
    featured: bool,
    verified: bool,
    dateAdded: int)

  /** The fields a submitter supplies; the store adds the rest. */
  datatype Draft = Draft(
    title: string,
    url: string,
    description: string,
    category: string,
    tags: seq<string>,
    image: string)

  /** An object literal of updates: each present field replaces the
      record's field when spread over it. */
  datatype Patch = Patch(
    id: Option<string>,
    title: Option<string>,
    url: Option<string>,
    description: Option<string>,
    category: Option<string>,
    tags: Option<seq<string>>,
    image: Option<string>,
    rating: Option<real>,
    votes: Option<nat>,
    views: Option<nat>,
    featured: Option<bool>,
    verified: Option<bool>,
    dateAdded: Option<int>)

  /** The empty object `{}`. */
  const EmptyPatch: Patch :=
    Patch(None, None, None, None, None, None, None, None, None, None, None, None, None)

  function Pick<T>(update: Option<T>, current: T): T
  {
    match update
    case Some(v) => v
    case None => current
  }

  /** `{ ...site, ...updates }`: a field the patch carries takes the
      patch's value, a field it omits keeps the record's value. */
  function Merge(site: Listing, p: Patch): (r: Listing)
    ensures p.id.None? ==> r.id == site.id
    ensures p.id.Some? ==> r.id == p.id.value
    ensures p.title.None? ==> r.title == site.title
    ensures p.title.Some? ==> r.title == p.title.value
    ensures p.url.None? ==> r.url == site.url
    ensures p.url.Some? ==> r.url == p.url.value
    ensures p.description.None? ==> r.description == site.description
    ensures p.description.Some? ==> r.description == p.description.value
    ensures p.category.None? ==> r.category == site.category
    ensures p.category.Some? ==> r.category == p.category.value
    ensures p.tags.None? ==> r.tags == site.tags
    ensures p.tags.Some? ==> r.tags == p.tags.value
    ensures p.image.None? ==> r.image == site.image
    ensures p.image.Some? ==> r.image == p.image.value
    ensures p.rating.None? ==> r.rating == site.rating
    ensures p.rating.Some? ==> r.rating == p.rating.value
    ensures p.votes.None? ==> r.votes == site.votes
    ensures p.votes.Some? ==> r.votes == p.votes.value
    ensures p.views.None? ==> r.views == site.views
    ensures p.views.Some? ==> r.views == p.views.value
    ensures p.featured.None? ==> r.featured == site.featured
    ensures p.featured.Some? ==> r.featured == p.featured.value
    ensures p.verified.None? ==> r.verified == site.verified
    ensures p.verified.Some? ==> r.verified == p.verified.value
    ensures p.dateAdded.None? ==> r.dateAdded == site.dateAdded
    ensures p.dateAdded.Some? ==> r.dateAdded == p.dateAdded.value
  {
    Listing(
      Pick(p.id, site.id),
      Pick(p.title, site.title),
      Pick(p.url, site.url),
      Pick(p.description, site.description),
      Pick(p.category, site.category),
      Pick(p.tags, site.tags),
      Pick(p.image, site.image),
      Pick(p.rating, site.rating),
      Pick(p.votes, site.votes),
      Pick(p.views, site.views),
      Pick(p.featured, site.featured),
      Pick(p.verified, site.verified),
      Pick(p.dateAdded, site.dateAdded))
  }

  /** `{ ...p, ...q }`: the later object's fields win. */
  function Combine(p: Patch, q: Patch): Patch
  {
    Patch(
      if q.id.Some? then q.id else p.id,
      if q.title.Some? then q.title else p.title,
      if q.url.Some? then q.url else p.url,
      if q.description.Some? then q.description else p.description,
      if q.category.Some? then q.category else p.category,
      if q.tags.Some? then q.tags else p.tags,
      if q.image.Some? then q.image else p.image,
      if q.rating.Some? then q.rating else p.rating,
      if q.votes.Some? then q.votes else p.votes,
      if q.views.Some? then q.views else p.views,
      if q.featured.Some? then q.featured else p.featured,
      if q.verified.Some? then q.verified else p.verified,
      if q.dateAdded.Some? then q.dateAdded else p.dateAdded)
  }

  /** Two successive updates equal one update with the combined object. */
  lemma MergeCombine(site: Listing, p: Patch, q: Patch)
    ensures Merge(Merge(site, p), q) == Merge(site, Combine(p, q))
  {
  }
}
