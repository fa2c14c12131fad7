# RSS ingestion and deduplication store, in Dafny

This project models the server actions behind an RSS-to-newsletter service. Users subscribe to
RSS feeds. Fetching a feed upserts its items into one article collection, deduplicated by `guid`:
when several feeds carry the same item, the one article lists them all in `sourceFeedIds`.
Before a newsletter is generated, the feeds that are stale under a three-hour cache shared by
URL are refreshed. Then up to 100 articles of the chosen feeds and date range are selected,
newest first. Each comes with a `sourceCount`.

The document store is four classes in module `Store` (`ArticleTable`, `FeedTable`,
`NewsletterTable`, `UserTable`). Each holds its rows as a sequence in insertion order. Their
methods are the store primitives the actions use: `create`, `update`, `delete`, the raw `$pull`
update and `deleteMany`. The table invariants are stated as predicates:

- at most one article per guid;
- no feed listed twice for one article;
- feed and newsletter ids increasing;
- one user per provider id.

Each source file is one module:

- `RssArticle` models `actions/rss-article.ts`;
- `RssFeed` models `actions/rss-feed.ts`;
- `RssFetch` models `actions/rss-fetch.ts`;
- `FeedRefresh` models `lib/rss/feed-refresh.ts`;
- `Newsletters` models `actions/newsletter.ts`;
- `Users` models `actions/user.ts`.

An action that changes the store is a method. Its postcondition ties the new tables to a pure
function of the old ones (for example `UpsertArticle`, `BulkCreate`, `WithLastFetched`,
`ArticlesAfterFeedDelete`, `StoreAll`, `UpsertUser`). The lemmas about those functions state what
the actions promise.

The world outside the program becomes parameters:

- the current time is a `now: Time` argument (milliseconds);
- URL validation, feed fetching and parsing, and store failures on writes are the fields of an
  `Environment` value, fixed for one run. Writes that can fail are an article write, the
  `lastFetched` stamp of a feed, and the metadata update of a new feed.

The model follows the code where it differs from its own comments and design notes:

- A known guid gets the feed id appended with `push`, behind an `includes` check. It is not a
  store-side `$addToSet`.
- In the bulk loop, every call that returns counts as `created`. That includes a merge into an
  existing article and a re-sighting that changes nothing. Only a thrown unique-constraint error
  (P2002) counts as `skipped`.
- `fetchAndStoreFeed` returns the channel metadata but never writes it. Only
  `validateAndAddFeed` copies it onto the feed.
- The article selection used for newsletters is `getArticlesByFeedAndDateRange` in
  `actions/rss-article.ts`. The function of a similar name that `lib/rss/feed-refresh.ts`
  imports from `actions/rss-fetch.ts` is commented out there.
- `deleteRssFeed` rewrites the article table before it looks for the feed. An unknown feed id
  therefore fails only after the pull and the orphan deletion have run.

## Model

| member | source | states |
|---|---|---|
| Store.ArticleTable.Create | actions/rss-article.ts:45-59 | A second row for a stored guid fails with a unique-constraint violation and changes nothing; otherwise the row is appended |
| Store.ArticleTable.PushSource | actions/rss-article.ts:27-34 | An unknown guid fails with record-not-found; otherwise exactly that row gets the feed id appended to `sourceFeedIds`, and it is returned |
| Store.ArticleTable.PullSource | actions/rss-feed.ts:43-52 | Every article loses every occurrence of the feed id from `sourceFeedIds` |
| Store.ArticleTable.DeleteUnreferenced | actions/rss-feed.ts:55-61 | Exactly the articles with an empty `sourceFeedIds` are removed, the rest keep their order |
| Store.FeedTable.Create | actions/rss-fetch.ts:22-27 | The new feed gets a fresh id above every existing one, the user and URL, and null metadata and `lastFetched`; it is appended |
| Store.FeedTable.SetLastFetched | actions/rss-feed.ts:29-34 | Only the feed with that id gets `lastFetched` set; an unknown id fails with record-not-found |
| Store.FeedTable.SetMetadata | actions/rss-fetch.ts:35-44 | Only the feed with that id gets the five display columns from the metadata |
| Store.FeedTable.Delete | actions/rss-feed.ts:65-67 | The feed with that id is removed and returned; an unknown id fails with record-not-found and changes nothing |
| Store.NewsletterTable.Create | actions/newsletter.ts:28-41 | The newsletter is appended with the next id and `createdAt` set to now |
| Store.NewsletterTable.Delete | actions/newsletter.ts:148-152 | The newsletter with that id is removed and returned; an unknown id fails with record-not-found |
| Store.UserTable.Create | actions/user.ts:48-52 | A second user for a provider id fails with a unique-constraint violation; otherwise a user with both timestamps now is appended |
| Store.UserTable.Touch | actions/user.ts:39-44 | Only that user's `updatedAt` is set to now; an unknown provider id fails with record-not-found |
| Sorting.SortDesc | actions/rss-article.ts:120 | `orderBy` descending: the result is a permutation of the input ordered by non-increasing key |
| Sorting.SortDescMembers | actions/rss-article.ts:120 | Ordering keeps exactly the elements it was given |
| RssArticle.CreateRssArticle | actions/rss-article.ts:15-61 | The new table and the result are `UpsertArticle` of the old table: an injected store failure writes nothing and is returned; an unseen guid creates the row; a known guid from a new feed gets the feed pushed; a known guid already carrying the feed returns the stored row unchanged |
| RssArticle.UpsertArticle | actions/rss-article.ts:15-61 | An injected failure leaves the table and is returned; otherwise the call succeeds with a stored row for the item's guid that lists the sighting feed, and the table grows by at most one row |
| RssArticle.UpsertUnseenGuid | actions/rss-article.ts:45-59 | A first sighting appends exactly one row: the item's fields, the sighting feed as originator, `sourceFeedIds == [feedId]`, and categories defaulting to empty |
| RssArticle.UpsertNewSource | actions/rss-article.ts:24-35 | A known guid sighted by a new feed gets that feed appended at the end of its `sourceFeedIds`; no other column and no other row changes |
| RssArticle.UpsertRecordsSighting | actions/rss-article.ts:18-59 | Afterwards the guid is stored and the sighting feed is among its sources |
| RssArticle.UpsertIdempotent | actions/rss-article.ts:26-41 | Repeating the same sighting leaves the table unchanged |
| RssArticle.UpsertPreservesValid | actions/rss-article.ts:24-35 | The upsert keeps one article per guid and no feed listed twice for one article |
| RssArticle.UpsertSources | actions/rss-article.ts:15-61 | The set of feeds listed for any guid grows by exactly the sighting feed when the sighting is for that guid and succeeds, and otherwise stays the same |
| RssArticle.Tally | actions/rss-article.ts:68-88 | Counting outcome by outcome, created + skipped + errors equals the number of items |
| RssArticle.BulkCreate | actions/rss-article.ts:74-88 | Running the loop over a batch never shrinks the table and adds at most one row per item |
| RssArticle.BulkCounts | actions/rss-article.ts:74-88 | The loop's counters depend only on which writes throw: a failing item does not stop the loop; each item counts once, as skipped for a unique-constraint error, as an error for any other failure, and otherwise as created |
| RssArticle.BulkPreservesValid | actions/rss-article.ts:74-88 | The loop keeps one article per guid and no duplicate sources |
| RssArticle.BulkSources | actions/rss-article.ts:74-88 | After the loop, the feeds listed for a guid are those listed before plus every feed whose write for that guid succeeded, in any order of sightings |
| RssArticle.BulkCreateRssArticles | actions/rss-article.ts:65-92 | The loop leaves the table and returns the counters that `BulkCreate` defines for the batch |
| RssArticle.RankedMembers | actions/rss-article.ts:104-120 | The ranked list holds exactly the stored articles originating in, or sourced from, one of the feeds and published inside the inclusive date range |
| RssArticle.GetArticlesByFeedAndDateRange | actions/rss-article.ts:97-128 | The result is exactly the first `limit` (default 100) of the matching articles ordered newest first, or all of them when fewer match; each is a stored matching article, the dates do not increase, and `sourceCount` is the length of its `sourceFeedIds` |
| RssArticle.SelectionFromTable | actions/rss-article.ts:104-121 | No article appears in the selection more often than in the table |
| RssArticle.SelectionKeepsNewest | actions/rss-article.ts:120-121 | A matching article is left out only when the limit is reached, and then every selected article is at least as recent as it |
| RssFeed.GetRssFeedsByUserId | actions/rss-feed.ts:13-22 | The listing holds exactly the user's feeds |
| RssFeed.FeedsByUserNewestFirst | actions/rss-feed.ts:20 | The listing is strictly newest first |
| RssFeed.UpdateFeedLastFetched | actions/rss-feed.ts:27-36 | The feed's `lastFetched` is set to now; an unknown feed fails with record-not-found; an injected store failure is thrown and nothing is written |
| RssFeed.StampChangesOnlyThatFeed | actions/rss-feed.ts:29-34 | The stamp changes `lastFetched` of the feed with that id and nothing else |
| RssFeed.DeleteRssFeed | actions/rss-feed.ts:40-72 | The id is pulled from every article, articles left without sources are deleted, then the feed is deleted; the result is a failure exactly when the feed did not exist |
| RssFeed.ArticlesAfterFeedDelete | actions/rss-feed.ts:43-61 | The cleanup never adds articles, and every surviving article still has a source |
| RssFeed.WithoutSourceMembers | actions/rss-feed.ts:48 | `$pull` keeps exactly the other ids, and empties a list exactly when the list held only that id |
| RssFeed.FeedDeleteUnlinks | actions/rss-feed.ts:43-61 | Afterwards no article lists the deleted feed and none is left without a source |
| RssFeed.FeedDeleteKeepsOthers | actions/rss-feed.ts:43-61 | An article still carried by another feed survives, with only the deleted feed's id removed |
| RssFeed.FeedDeleteOnlyPulls | actions/rss-feed.ts:43-61 | Every surviving article is an original row with only the deleted feed's id removed |
| RssFeed.FeedDeleteDropsSoleSource | actions/rss-feed.ts:55-61 | An article carried only by the deleted feed is gone |
| RssFeed.FeedDeletePreservesValid | actions/rss-feed.ts:43-61 | The cleanup keeps guids unique and source lists free of duplicates |
| RssFetch.CreateDataAttributes | actions/rss-fetch.ts:84-95 | Every parsed item is turned into one create request, which names the refreshed feed and carries the item unchanged |
| RssFetch.FetchAndStoreFeed | actions/rss-fetch.ts:68-110 | An unknown feed fails with feed-not-found and a failed fetch fails; neither changes anything. Otherwise every item is upserted. Then the stamp is written and the metadata and counters are returned without writing the metadata. If the stamp's write fails, that error is thrown after the items are stored, and the feed stays unstamped |
| RssFetch.ValidateAndAddFeed | actions/rss-fetch.ts:14-63 | An invalid URL fails without creating a feed. Otherwise the feed is created and fetched once. On success it is stored with the fetched metadata and `lastFetched`, and the counts are returned. Any failure in the `try` is caught: a failed fetch, a failed stamp or a failed metadata update. The feed then keeps only what was written before the failure, the items stored before it stay, and the report has zero counts and an error message |
| FeedRefresh.RefreshedIsStale | lib/rss/feed-refresh.ts:43-80 | Every id returned is requested, exists, and no feed of any user with its URL was fetched within the window |
| FeedRefresh.GetFeedsToRefresh | lib/rss/feed-refresh.ts:38-83 | Only requested ids are returned, and no more of them than there are stored feeds (`RefreshIdsIncrease` and `RefreshExact` state that they are distinct and exist) |
| FeedRefresh.StaleIsRefreshed | lib/rss/feed-refresh.ts:43-80 | Every requested, existing feed whose URL nobody fetched within the window is returned |
| FeedRefresh.RefreshExact | lib/rss/feed-refresh.ts:38-83 | Both directions at once: an id is returned exactly when it is requested, exists and its URL is stale, the threshold being now minus three hours, inclusive |
| FeedRefresh.RefreshSharedUrl | lib/rss/feed-refresh.ts:55-80 | Requested feeds with the same URL are refreshed together or not at all |
| FeedRefresh.RefreshSuppressedBySameUrl | lib/rss/feed-refresh.ts:57-75 | A fetch within the window of any feed with the same URL, whoever owns it, makes the refresh unnecessary |
| FeedRefresh.NeverFetchedIsRefreshed | lib/rss/feed-refresh.ts:57-80 | A requested feed whose URL no feed has ever fetched is refreshed |
| FeedRefresh.RefreshIdsIncrease | lib/rss/feed-refresh.ts:43-80 | The returned ids come in table order, so none repeats even when the request repeats an id |
| FeedRefresh.LaterNowRefreshesMore | lib/rss/feed-refresh.ts:39-40 | Whatever is stale at one time is stale at any later time |
| FeedRefresh.LaterFetchesRefreshLess | lib/rss/feed-refresh.ts:57-80 | Moving any feed's `lastFetched` later, or setting one that was null, can only shrink the set of feeds to refresh |
| FeedRefresh.StampSuppressesRefresh | lib/rss/feed-refresh.ts:57-68 | Once a feed is stamped, no feed sharing its URL is refreshed until the window has passed |
| FeedRefresh.StoreAllPreservesValid | lib/rss/feed-refresh.ts:109-111 | A whole refresh round keeps one article per guid and no duplicate sources |
| FeedRefresh.RefreshFeed | lib/rss/feed-refresh.ts:110 | One refresh settles on its own. It succeeds exactly when the feed's URL fetches and its stamp is written. Otherwise it is rejected with the fetch failure or the stamp's store error. It stamps only that feed, and adds that feed's upserts whenever the fetch succeeded, even when the stamp then fails |
| FeedRefresh.RefreshAll | lib/rss/feed-refresh.ts:109-111 | There is one outcome per stale feed. Each succeeds exactly when its own fetch and stamp do, and is otherwise rejected by the fetch or by the stamp's store error. Afterwards exactly the feeds that refreshed carry the new `lastFetched`. The article table holds the upserts of every feed that fetched, in order |
| FeedRefresh.PrepareFeedsAndArticles | lib/rss/feed-refresh.ts:98-143 | The stale feeds are refreshed as `RefreshAll` states. Then the selection over the requested feeds with the 100-article limit is returned, or a no-articles error when it is empty |
| Newsletters.CreateNewsletter | actions/newsletter.ts:15-43 | The newsletter is stored with the data as given, `createdAt` now and an id no stored newsletter had |
| Newsletters.UserNewslettersMembers | actions/newsletter.ts:62-68 | The unpaginated listing holds exactly the user's newsletters |
| Newsletters.GetNewslettersByUserId | actions/newsletter.ts:54-73 | A page holds only the user's newsletters, at most `limit` of them, newest first |
| Newsletters.PageIsWindow | actions/newsletter.ts:66-70 | A page is the stretch of the full listing starting at `skip`, and its length is what remains, capped by `limit` |
| Newsletters.ConsecutivePages | actions/newsletter.ts:69-70 | A page of size n at `skip`, followed by everything from `skip + n`, is everything from `skip` |
| Newsletters.CountMatchesListing | actions/newsletter.ts:116-124 | The count equals the length of the unpaginated listing; skipping past it gives an empty page |
| Newsletters.GetNewslettersCountByUserId | actions/newsletter.ts:116-124 | The count is at most the number of stored newsletters, and is zero exactly when the user owns none |
| Newsletters.GetNewslettersById | actions/newsletter.ts:84-108 | No newsletter with the id gives a null result, not an error. Another user's newsletter gives an unauthorized error. Otherwise the caller's own newsletter is returned |
| Newsletters.ReadOnlyByOwner | actions/newsletter.ts:93-104 | With unique ids, each newsletter is returned to its owner and refused to everyone else |
| Newsletters.DeleteNewsletter | actions/newsletter.ts:134-154 | As written: a missing newsletter fails with an unauthorized error, and an existing one is removed and returned, whoever asks |
| Newsletters.DeleteOutcome | actions/newsletter.ts:137-152 | As written: success returns the stored newsletter with that id; failure is an unauthorized error and happens only when no newsletter has the id |
| Newsletters.DeleteIgnoresOwner | actions/newsletter.ts:136-152 | As written, user 2 deletes user 1's newsletter successfully |
| Newsletters.DeleteOwnNewsletter | actions/newsletter.ts:126-145 | With the ownership check the comments describe, deletion succeeds only for the owner, and a refused deletion changes nothing |
| Newsletters.OwnerDeleteOnlyByOwner | actions/newsletter.ts:126-145 | With the check, deleting an existing newsletter succeeds exactly for its owner and removes just that row |
| Newsletters.DeleteRemovesOnlyThat | actions/newsletter.ts:148-152 | Deleting removes that newsletter, no row with its id remains, and every other newsletter stays |
| Users.GetUserByClerkId | actions/user.ts:13-19 | Returns the stored user with that provider id, or none exactly when no user has it |
| Users.UpsertUserFromClerk | actions/user.ts:30-54 | An existing user gets `updatedAt` set to now; otherwise a user is created, and only then is a new id used. The table stays unique by provider id |
| Users.UpsertUser | actions/user.ts:30-54 | The returned user is stored with the provider id and `updatedAt` now; the table grows by one row exactly when no user had the provider id |
| Users.UpsertFindsUser | actions/user.ts:30-54 | Afterwards the returned user, with `updatedAt` now, is what a lookup by the provider id finds, and provider ids stay unique |
| Users.UpsertKeepsOthers | actions/user.ts:37-52 | A lookup for any other provider id finds what it found before |
| Users.UpsertTwice | actions/user.ts:37-45 | Signing in again adds no user and keeps the id and `createdAt`; only `updatedAt` moves |
| Users.UpsertOneUserPerId | actions/user.ts:30-54 | After an upsert exactly one user carries the provider id |
| Users.OnlyOneWithId | actions/user.ts:33-35 | With the unique index, at most one row carries a provider id, and exactly one when the lookup finds it |

## Left out

- Logging and the error wrapper `wrapDatabaseOperation`: errors are the `Error` values of module `Common`, without their messages. The one string the source returns as data (`"Feed created but initial fetch failed"`) is kept.
- Concurrency: `Promise.allSettled` runs the stale feeds one after the other, in table order. Interleavings of concurrent upserts are not modelled, including the race between `findUnique` and `create`. That race can still be represented by an injected unique-constraint failure, which the bulk loop counts as skipped.
- The race between `findUnique` and `create` in `upsertUserFromClerk` is not modelled; the store has no transactions.
- Network and parsing: `validateFeedUrl` and `fetchAndParseFeed` come from `lib/rss/parser`, which is not part of this model. They are functions of the `Environment`, fixed for one run, so the same URL and feed id always give the same outcome. Two feeds that share a URL may still get different outcomes in one round.
- Clock: `prepareFeedsAndArticles` uses one `now` for the staleness check and every stamp. The source reads the clock anew in each call.
- Dates are integer milliseconds, ids are natural numbers taken from a per-table counter rather than store-generated strings, and strings are compared exactly.
- RssFeed.FeedsByUserNewestFirst: `createdAt` of feeds is not stored; feed ids increase in creation order and stand in for it.
- Sorting.SortDesc: the store leaves the order of equal timestamps open; the model keeps such rows in table order. Queries without `orderBy` return rows in table order.
- The joined data that `include` adds (the feed of each article, article counts per feed) is not modelled.
- Newsletters.GetNewslettersByUserId: `limit` and `skip` are natural numbers; a negative `take`, which makes the store count from the end, is not modelled.
- The raw `$pull` command names the collection `RssArticles`. The schema that maps models to collection names is not part of this model, so the command is assumed to reach the article collection, and to match the feed id against `sourceFeedIds` with the same value type the store writes there.
- The schema's relation from an article to its originating feed, and its `onDelete` action, are not part of this model. `rssFeed.delete` is assumed to leave articles whose `feedId` names the deleted feed in place. Under a restricting action the delete would fail while such an article survives the cleanup; under a cascading one that article would be deleted. Either way `RssFeed.FeedDeleteKeepsOthers` would no longer describe the source.
- `lib/rss/feed-refresh.ts` imports `getArticlesByFeedsAndDateRange` from `actions/rss-fetch.ts`, where that function is commented out. The model uses the live `getArticlesByFeedAndDateRange` of `actions/rss-article.ts`, with the 100-article limit.
- Store reads never fail in this model. A failure of `findUnique`, `findMany` or `groupBy` is not represented; only the writes named in the `Environment` can fail.
- RssFetch.FetchAndStoreFeed: a store failure of the feed lookup (`findUnique`) is not modelled; the lookup always answers.
- RssFetch.ValidateAndAddFeed: a store failure of the `create` of the feed itself is not modelled; a failed lookup inside the initial fetch is not modelled either.
- FeedRefresh.RefreshFeed: a refresh cannot be rejected by a failed feed lookup, only by its fetch or by its stamp's write.
- FeedRefresh.RefreshAll: as for `RefreshFeed`, the outcomes leave out rejections by a failed feed lookup.
- FeedRefresh.PrepareFeedsAndArticles: the reads of `getFeedsToRefresh` and of the article selection never fail, so the only error it returns is the no-articles error.
- The newsletter generation route, the dashboard components and `actions/generate-newsletter.ts` are not part of this model.

## Findings

| source | as written | input that shows it | evidently intended | confidence | as-written member | corrected member |
|---|---|---|---|---|---|---|
| actions/newsletter.ts:134-154 | The newsletter is deleted once it exists; `userId` is never compared with its owner | Newsletter 0 owned by user 1, then `deleteNewsletter(0, 2)` deletes it | Refuse with an unauthorized error unless the caller owns it, as the comments at lines 126-128 and 136 say | high; not executed | Newsletters.DeleteIgnoresOwner | Newsletters.DeleteOwnNewsletter |
