# Website directory listing store, in Dafny

This project models the logic of a client-side website directory. The
application keeps its listings in one in-memory store, the website context.
The pages build filtered, searched and sorted views on top of it. The model
covers:

- the store's operations: add, update, delete, lookup by id, category filter,
  text search, featured, popular and recent views, and the derived list of
  distinct categories;
- the query pipelines of the directory, search and category pages. Each one
  filters by category, copies the result and sorts it with a selectable
  comparator;
- the arithmetic on single records: the one-vote running mean of the rating,
  the view counter, and the related-listings strip;
- the home page's strips, per-category counts and total views;
- the tag parsing and record construction of the submission form.

The store is a `seq<Listing>`, and every operation is a pure function that
returns the next sequence. A React state setter becomes "return the new
store". Because of this, the queries that sort "on a copy" cannot reorder
the stored sequence. `Array.prototype.sort` has been stable since
ECMAScript 2019. It is modelled by one insertion sort, `Sorting.SortBy`,
whose contract is: permutation, pairwise sorted, and stable.
`Sorting.StableSortIsUnique` proves that every sort satisfying that contract
returns the same sequence, so choosing this one sort loses nothing.

Modules: `Wrappers` (Option), `Seqs` (filter, map, slice, distinct,
subsequence), `Text` (ASCII case mapping, `includes`, `trim`, `split`,
lexicographic comparison, decimal rendering), `Listings` (the record and the
update object), `Sorting` (comparators and the stable sort), `WebsiteStore`,
`WebsiteDetail`, `Home`, `Submit`, `SearchPage`, `Directory` and
`CategoryPage`.

The store's search does not guard its query. In
`src/context/WebsiteContext.jsx` an empty query matches every record,
because `s.includes("")` is true for every string `s`, and a blank query is
searched for literally. Only the search page refuses blank queries
(`src/pages/Search.jsx`, line 22). `WebsiteStore.Search` states the store's
behaviour, and `SearchPage.Results` states the page's guard.

## Model

| member | source | states |
|---|---|---|
| `WebsiteStore.Add` | src/context/WebsiteContext.jsx:25-38 | The new record keeps the submitted title, url, description, category, tags and image. It takes the given id and time, has rating 0, 0 votes, 0 views and both flags false, and is placed in front of the unchanged old store. |
| `WebsiteStore.AddPreservesUniqueIds` | src/context/WebsiteContext.jsx:25-36 | Adding a record whose id is not yet in the store keeps all ids distinct. |
| `WebsiteStore.AddThenGetById` | src/context/WebsiteContext.jsx:36-37 | Looking up the new id right after an add returns the returned record. |
| `WebsiteStore.Update` | src/context/WebsiteContext.jsx:40-46 | Same length and order. A record with another id is unchanged, a record with the id gets the patch spread over it, and an absent id leaves the store equal to the old one. |
| `Listings.Merge` | src/context/WebsiteContext.jsx:43 | For each of the thirteen fields, spreading a patch gives the patch's value when the patch carries that field, and the record's own value when it does not. |
| `Listings.MergeCombine` | src/context/WebsiteContext.jsx:43 | Two successive updates equal one update with the combined object, where later fields win. |
| `WebsiteStore.UpdatePreservesUniqueIds` | src/context/WebsiteContext.jsx:40-46 | An update that does not patch the id keeps ids distinct. |
| `WebsiteStore.UpdateThenGetById` | src/context/WebsiteContext.jsx:40-46 | After an update that leaves ids alone, the lookup returns the previously found record with the patch applied, and still finds nothing when the id is absent. |
| `WebsiteStore.Delete` | src/context/WebsiteContext.jsx:48-50 | The result is a subsequence of the store. It holds exactly the records with another id, with their multiplicities, and an absent id changes nothing. |
| `WebsiteStore.DeletePreservesUniqueIds` | src/context/WebsiteContext.jsx:48-50 | Deleting keeps ids distinct. |
| `WebsiteStore.DeleteThenGetById` | src/context/WebsiteContext.jsx:48-54 | After deleting an id, the lookup returns nothing, and no category or search result carries that id. |
| `WebsiteStore.IndexOf` | src/context/WebsiteContext.jsx:52-54 | Returns the position of the first record with the id, or -1 exactly when no record has it. |
| `WebsiteStore.GetById` | src/context/WebsiteContext.jsx:52-54 | Returns nothing exactly when the id is absent. Otherwise it returns the first record in the store with that id. |
| `WebsiteStore.ByCategory` | src/context/WebsiteContext.jsx:56-60 | The result is an order-preserving subsequence holding every record whose lower-cased category equals the lower-cased argument, and only those. |
| `WebsiteStore.Search` | src/context/WebsiteContext.jsx:62-70 | The result is an order-preserving subsequence of the records where the lower-cased query occurs in the lower-cased title, description, category or some tag. The empty query returns the whole store. |
| `Text.ToLower` | src/context/WebsiteContext.jsx:58-68 | Lower-casing keeps the length, leaves no upper-case ASCII letter, and keeps every character that is not one. |
| `Text.IncludesAt` | src/context/WebsiteContext.jsx:65-68 | The recursive substring test holds exactly when the pattern occurs at some position. |
| `WebsiteStore.Featured` | src/context/WebsiteContext.jsx:72-74 | The result is an order-preserving subsequence holding exactly the featured records. |
| `WebsiteStore.Popular` | src/context/WebsiteContext.jsx:76-78 | The result is a permutation of the store with view counts non-increasing, and equal counts stay in store order. |
| `WebsiteStore.PopularExample` | src/context/WebsiteContext.jsx:76-78 | Listings with 10, 50 and 30 views come out of the popular view in the order 50, 30, 10. |
| `WebsiteStore.Recent` | src/context/WebsiteContext.jsx:80-84 | The result is a permutation of the store with creation times non-increasing, and equal times stay in store order. |
| `Seqs.Distinct` | src/context/WebsiteContext.jsx:21 | The result has no duplicates and the same members as the input, listed in order of first occurrence, as a JavaScript `Set` iterates. |
| `WebsiteStore.Categories` | src/context/WebsiteContext.jsx:19-23 | The list has no duplicates. It contains exactly the categories present in the store, in order of first appearance. |
| `WebsiteStore.CategoriesAfterAdd` | src/context/WebsiteContext.jsx:19-36 | After an add, the categories are the old ones plus the new record's category. |
| `WebsiteStore.CategoriesAfterUpdate` | src/context/WebsiteContext.jsx:19-23 | After an update that sets a present id's category, the new category is listed, and the old one stays only if a record with another id keeps it. |
| `WebsiteStore.CategoriesAfterDelete` | src/context/WebsiteContext.jsx:19-23 | After a delete, the categories are exactly those of the records with other ids. |
| `Sorting.KeyNamed` | src/pages/Directory.jsx:25-36 | The four names select the rating, views, date and title orders. Every other value selects the page's default branch. |
| `Sorting.Compare` | src/pages/Directory.jsx:24-37 | The comparator's sign means: rating, views and date put the larger value first and tie only on equal values. Titles tie only when equal. Relevance puts `a` first exactly when its title is a hit and `b`'s is not, and ties when both or neither hit. |
| `Sorting.CompareConsistent` | src/pages/Directory.jsx:24-37 | Each comparator is a total preorder: antisymmetric in sign, reflexive and transitive, and its ties form an equivalence. |
| `Text.LexCompare` | src/pages/Directory.jsx:33 | The string order standing in for `localeCompare` gives -1, 0 or 1, and 0 exactly for equal strings. |
| `Text.LexCompareOrder` | src/pages/Directory.jsx:33 | A proper prefix sorts before the longer string. Otherwise the string with the smaller code point at the first differing position sorts first. |
| `Text.LexCompareTrans` | src/pages/Directory.jsx:33 | The string order standing in for `localeCompare` is transitive. |
| `Sorting.SortBy` | src/pages/Directory.jsx:24 | The sort returns a permutation of its input that is pairwise sorted under the comparator, and every group of ties keeps input order. |
| `Sorting.StableSortIsUnique` | src/pages/Search.jsx:34-50 | Any permutation that is sorted and stable under the comparator equals `SortBy`, so it is what a stable `Array.prototype.sort` returns. |
| `Sorting.SortedMeaning` | src/pages/Search.jsx:36-48 | Sorted by rating, views or date means non-increasing in that field. Sorted by title means non-decreasing titles. Sorted by relevance means no title miss precedes a title hit. |
| `Sorting.RelevanceIsPartition` | src/pages/Search.jsx:44-48 | The relevance sort returns the title hits in input order, followed by all other candidates in input order. |
| `SearchPage.Candidates` | src/pages/Search.jsx:24-31 | The candidates are a subsequence of the store search. With a category selected they are exactly the hits whose category matches it case-insensitively, each kept as often as it occurs among the hits. |
| `SearchPage.Results` | src/pages/Search.jsx:21-53 | A blank query gives no results, whatever the category or ordering. Otherwise the result is a sorted, stable permutation of the candidates, every result is a store search hit, and it matches the selected category. |
| `SearchPage.ResultsOrder` | src/pages/Search.jsx:34-50 | Rating, views and recent give non-increasing fields and alphabetical gives non-decreasing titles. Relevance and any other value give the title hits, then the misses, each in store order. |
| `SearchPage.RelevanceHitsFirst` | src/pages/Search.jsx:44-48 | Under relevance, every title hit precedes every other result. |
| `SearchPage.SubmitQuery` | src/pages/Search.jsx:62-67 | A blank query leaves the address unchanged. Any other query stores a non-empty value with no white space at either end, cut out of the typed query. |
| `SearchPage.SubmitQueryIdempotent` | src/pages/Search.jsx:62-67 | Submitting the stored query again stores the same value. |
| `Directory.Filtered` | src/pages/Directory.jsx:14-21 | With no category selected the listings are the whole store. With one selected they are exactly those whose category matches case-insensitively, in store order, each kept as often as it occurs in the store. |
| `Directory.Shown` | src/pages/Directory.jsx:13-40 | The page shows a sorted, stable permutation of the filtered listings. With no category that is every listing. With a category it is exactly the case-insensitive matches. |
| `Directory.ShownOrder` | src/pages/Directory.jsx:10-36 | Views and recent give non-increasing fields and alphabetical gives non-decreasing titles. The initial choice and every unrecognised one give non-increasing ratings. |
| `Directory.InitialViewIsRatingSort` | src/pages/Directory.jsx:10-40 | The initial page with all categories is the store stably sorted by rating. |
| `CategoryPage.CategoryTitle` | src/pages/Category.jsx:17 | The title has the slug's length, its first character upper-cased and the rest unchanged. |
| `Text.Capitalize` | src/pages/Category.jsx:17 | Upper-casing the first character keeps the length and the tail. A lower-case ASCII initial becomes its capital. |
| `CategoryPage.View` | src/pages/Category.jsx:14-37 | The empty state appears exactly when no listing's category matches the slug. Otherwise the page shows a sorted, stable permutation of the category's listings under the chosen key, with rating as the default. |
| `CategoryPage.SlugCaseInsensitive` | src/pages/Category.jsx:16 | Slugs that lower-case alike show the same listings in the same order. |
| `CategoryPage.ViewOrder` | src/pages/Category.jsx:19-35 | The ordering each sort choice produces, stated on the fields. Rating is the default. |
| `WebsiteDetail.View` | src/pages/WebsiteDetail.jsx:29-52 | An id absent from the store gives the not-found page. Otherwise the page shows the record the lookup by id returns, which is the first one with the id, and its related listings. |
| `WebsiteDetail.SameCategoryOthers` | src/pages/WebsiteDetail.jsx:50-51 | An order-preserving subsequence holding exactly the records with the same category (case-sensitive) and a different id, each kept as often as it occurs in the store. |
| `WebsiteDetail.Related` | src/pages/WebsiteDetail.jsx:50-52 | At most three records, all in the same category with another id. They are the first three of those in store order, or all of them when there are fewer. |
| `WebsiteDetail.RatingPatch` | src/pages/WebsiteDetail.jsx:66-72 | The rating update sets rating to the new mean and votes to one more, and touches no other field. |
| `WebsiteDetail.HandleRating` | src/pages/WebsiteDetail.jsx:60-74 | A session that has already rated, or an absent id, changes nothing. Otherwise the session records the stars, and the listing then carries one more vote and the new mean. The store keeps its length and order. Every record with the id gets the shown listing's votes plus one and its new mean, and every other record is unchanged. |
| `WebsiteDetail.Rerate` | src/pages/WebsiteDetail.jsx:66-72 | The update the handler sends to the store: the same length, each record with the shown listing's id takes the new mean and one more vote, the rest are unchanged, and the lookup then returns the rated listing. |
| `WebsiteDetail.RateOnlyOnce` | src/pages/WebsiteDetail.jsx:61-63 | A second rating in the same page session leaves the store and the session as the first one left them. |
| `WebsiteDetail.NewMeanInRange` | src/pages/WebsiteDetail.jsx:66-67 | Given a prior mean in [0,5] and a star from 1 to 5, the new mean lies between the old mean and the star, and so within [0,5]. With no prior votes it equals the star. |
| `WebsiteDetail.RatingExample` | src/pages/WebsiteDetail.jsx:66-67 | A listing rated 4.0 over three votes that receives a five is rated 4.25 over four votes. |
| `WebsiteDetail.RatingIsRunningMean` | src/pages/WebsiteDetail.jsx:66-67 | The update keeps the rating equal to the arithmetic mean of all votes cast, starting from rating 0 with 0 votes. |
| `WebsiteDetail.VisitPatch` | src/pages/WebsiteDetail.jsx:56 | The visit update sets views to one more than the shown listing's count, and touches nothing else. |
| `WebsiteDetail.HandleVisit` | src/pages/WebsiteDetail.jsx:54-58 | An absent id changes nothing. Otherwise each record with the id gets the shown listing's view count plus one, and every other record is unchanged. |
| `Home.FeaturedStrip` | src/pages/Home.jsx:21 | At most three entries: a prefix of the featured list, and all of it when shorter. |
| `Home.PopularStrip` | src/pages/Home.jsx:22 | At most six entries: a prefix of the popular list, and all of it when shorter. |
| `Home.RecentStrip` | src/pages/Home.jsx:23 | At most six entries: a prefix of the recent list, and all of it when shorter. |
| `Home.PopularStripHasTopViews` | src/pages/Home.jsx:22 | No listing left out of the popular strip has more views than one shown. |
| `Home.CountIn` | src/pages/Home.jsx:27 | The count equals the number of entries of the store's category column equal to the category. It is at most the store size, zero exactly when no listing has that category, and the full size exactly when every listing has it. |
| `Home.WebsiteCounts` | src/pages/Home.jsx:26-29 | The keys are exactly the listed categories, and each maps to the number of listings whose category is exactly that name. |
| `Home.CountsPositive` | src/pages/Home.jsx:26-29 | For the derived category list, every count is at least one. |
| `Home.CountsSumToSize` | src/pages/Home.jsx:26-29 | For the derived category list, the counts add up to the number of listings. |
| `Home.TotalViews` | src/pages/Home.jsx:102 | The total view count is at least each listing's views, and zero exactly when no listing has been viewed. |
| `Home.TotalViewsAfterAdd` | src/pages/Home.jsx:102 | Adding a listing leaves the total view count unchanged, because new listings start at zero views. |
| `Home.TotalViewsAfterVisit` | src/pages/Home.jsx:102 | With distinct ids, one visit raises the total view count by exactly one. |
| `Submit.TrimmedPieces` | src/pages/Submit.jsx:36 | One piece per comma-separated part of the text, each piece being that part trimmed. |
| `Submit.ParseTags` | src/pages/Submit.jsx:36 | Every tag is non-empty, has no white space at either end and contains no comma. The tags are exactly the non-empty trimmed pieces, each kept as often as it occurs, in input order, and there are at most one more than the number of commas. |
| `Submit.ParseTagsExample` | src/pages/Submit.jsx:36 | The text `"design, tools"` from the form's placeholder gives the tags `design` and `tools`. |
| `Submit.NoTagsFromSeparators` | src/pages/Submit.jsx:36 | Text made only of commas and white space yields no tags. |
| `Submit.ParseJoinedTags` | src/pages/Submit.jsx:36 | Tags that are non-empty, trimmed and comma-free come back unchanged from their comma-joined text. |
| `Text.Split` | src/pages/Submit.jsx:36 | There is one more piece than there are separators, no piece contains the separator, and joining the pieces gives back the text. |
| `Text.SplitJoin` | src/pages/Submit.jsx:36 | Splitting undoes joining separator-free pieces. |
| `Text.Trim` | src/pages/Submit.jsx:36 | The result has no white space at either end. It is a block of the input with only white space cut away, and it is empty exactly when the input is all white space. |
| `Text.TrimIdempotent` | src/pages/Search.jsx:64-65 | Trimming twice gives the same as trimming once. |
| `Submit.ImageUrl` | src/pages/Submit.jsx:37 | The image address is the fixed prefix, then decimal digits that read back as the random number with no leading zero, then the fixed size suffix. |
| `Text.DecimalRoundTrip` | src/pages/Submit.jsx:37 | Reading back the decimal rendering of a number gives the number. |
| `Submit.Submission` | src/pages/Submit.jsx:34-38 | The record keeps the form's title, url, description and category, replaces the tag text with the parsed tags, and carries the image address. |
| `Submit.OnSubmit` | src/pages/Submit.jsx:27-48 | The store gains the new record in front. It keeps the form fields and parsed tags, while the store supplies the id, the date and zeroed counters. |
| `Submit.SubmittedListingIsShown` | src/pages/Submit.jsx:40-48 | The page the handler navigates to, for the new id, shows the new record. |

## Left out

- Rendering, animation, toasts, the `loading` flag and all styling are left out. They carry no logic.
- Routing and browser calls are left out: `useNavigate`, `useSearchParams`, `window.open`, `navigator.share`, the clipboard and `encodeURIComponent`. The route id, slug, query and sort choice are plain parameters.
- The simulated one-second delay and the delayed redirect in the submit handler are left out. They are asynchronous timing only.
- `Date.now().toString()` ids, `new Date().toISOString()` dates and `Math.random` are left out. The id, the creation time (as an integer timestamp) and the random photo number are parameters. Id freshness is the precondition of `WebsiteStore.AddPreservesUniqueIds`. `WebsiteStore.Add` itself, like the source, accepts any id.
- Date parsing in the recent comparator is left out. `new Date(b.dateAdded) - new Date(a.dateAdded)` is modelled on integer timestamps, so invalid dates, which give NaN in the source, are not modelled.
- `WebsiteDetail.NewMeanInRange`: the mean is an exact `real`, so IEEE-754 rounding of the division is not modelled.
- `Text.LexCompare`: `localeCompare` is locale-sensitive. The model orders titles lexicographically by code point, which is one total order.
- `Text.ToLower` and `Text.UpperChar` map ASCII letters only. JavaScript's Unicode case mapping can also change other letters, and sometimes the length.
- `CategoryPage.CategoryTitle`: the length-preserving property is stated for the ASCII mapping only.
- React state timing is left out: the derived category list is modelled as recomputed at once, without the one-render lag of the effect.
- The error thrown by `useWebsites` outside its provider is left out, as are the seed data (`src/data/mockData.js` is not part of this model) and the initial `categories` value of `[]`.
- The search page's effect that copies the `q` parameter back into the typed query, and its clear button, are left out. They are address-bar synchronisation only.
- The click handlers of the detail page run only when a listing was found. The model's handlers return the store unchanged for an absent id, which is the not-found page having no buttons.
- `votes` and `views` are natural numbers. The source never produces negative counts.
- `WebsiteDetail.NewMeanInRange` assumes a mean already in [0,5]. New listings start at rating 0 (`src/context/WebsiteContext.jsx`, line 30), and the only stars offered are 1 to 5 (`src/pages/WebsiteDetail.jsx`, line 217). From there the lemma keeps every rating in [0,5]. Ratings in the seed data are assumed to lie in that range too.
- The contact and about pages, the header, footer, card, filter and grid components, and the router are left out. They hold presentation or declarative form configuration only.
