/**
 * Fetch actions: refresh one feed from the network into the article table, and subscribe a
 * user to a new URL with an initial fetch.
 */
module RssFetch {
  import opened Common
  import opened Schema
  import opened Store
  import opened RssArticle
  import opened RssFeed

  /** What the feed parser yields for a URL: channel metadata and items, or a failure. */
  datatype FetchOutcome = Fetched(metadata: FeedMetadata, items: seq<ParsedArticle>) | FetchError

  /**
   * Everything outside the program, fixed for one run: whether a URL validates as a feed,
   * what fetching and parsing a URL yields, and which writes the store rejects: an article
   * write, the `lastFetched` stamp of a feed, or the metadata update of a feed.
   */
  datatype Environment = Environment(
    validateFeedUrl: string -> bool,
    fetchAndParseFeed: (string, FeedId) -> FetchOutcome,
    writeFault: ArticleInput -> Option<Error>,
    stampFault: FeedId -> Option<Error>,
    metadataFault: FeedId -> Option<Error>)

  datatype FetchReport = FetchReport(metadata: FeedMetadata, created: nat, skipped: nat, errors: nat)

  /** The parsed items, each attributed to the feed being refreshed. */
  function ToCreateData(feedId: FeedId, items: seq<ParsedArticle>): seq<ArticleInput> {
    seq(|items|, i requires 0 <= i < |items| => ArticleInput(feedId, items[i]))
  }

  /** The item a create request carries, without the feed it is attributed to. */
  function ItemOf(data: ArticleInput): ParsedArticle { data.item }

  /** Attribution is lossless: every request names the feed and carries its parsed item unchanged. */
  lemma CreateDataAttributes(feedId: FeedId, items: seq<ParsedArticle>)
    ensures var batch := ToCreateData(feedId, items);
      |batch| == |items| && forall i :: 0 <= i < |batch| ==> batch[i].feedId == feedId && ItemOf(batch[i]) == items[i]
  {
  }

  // ================================================================ fetchAndStoreFeed

  /**
   * `fetchAndStoreFeed`: look the feed up, fetch and parse its URL, upsert every item, then
   * stamp `lastFetched`. Metadata is returned, not written. An unknown feed or a failed fetch
   * throws before anything is written; per-item store failures only show in the counters. A
   * failing stamp throws after the items are stored, and leaves the feed unstamped.
   */
  method FetchAndStoreFeed(feeds: FeedTable, articles: ArticleTable, env: Environment, feedId: FeedId, now: Time)
    returns (r: Result<FetchReport>)
    requires feeds.Valid()
    modifies feeds, articles
    ensures feeds.Valid() && feeds.nextId == old(feeds.nextId)
    ensures FeedIndex(old(feeds.rows), feedId).None? ==>
      r == Failure(FeedNotFound(feedId)) && feeds.rows == old(feeds.rows) && articles.rows == old(articles.rows)
    ensures FeedIndex(old(feeds.rows), feedId).Some? ==>
      var outcome := env.fetchAndParseFeed(old(feeds.rows)[FeedIndex(old(feeds.rows), feedId).value].url, feedId);
      && (outcome.FetchError? ==>
            r == Failure(FetchFailed) && feeds.rows == old(feeds.rows) && articles.rows == old(articles.rows))
      && (outcome.Fetched? ==>
            var (stored, tally) := BulkCreate(old(articles.rows), ToCreateData(feedId, outcome.items), env.writeFault);
            && articles.rows == stored
            && (env.stampFault(feedId).Some? ==>
                  feeds.rows == old(feeds.rows) && r == Failure(env.stampFault(feedId).value))
            && (env.stampFault(feedId).None? ==>
                  && feeds.rows == WithLastFetched(old(feeds.rows), feedId, now)
                  && r == Success(FetchReport(outcome.metadata, tally.created, tally.skipped, tally.errors))))
  {
    var index := FeedIndex(feeds.rows, feedId);
    if index.None? {
      return Failure(FeedNotFound(feedId));
    }
    var feed := feeds.rows[index.value];
    var outcome := env.fetchAndParseFeed(feed.url, feedId);
    if outcome.FetchError? {
      return Failure(FetchFailed);
    }
    var batch := ToCreateData(feed.id, outcome.items);
    var result := BulkCreateRssArticles(articles, batch, env.writeFault);
    ghost var before := feeds.rows;
    var stamped := UpdateFeedLastFetched(feeds, feedId, now, env.stampFault(feedId));
    if stamped.Failure? && env.stampFault(feedId).Some? {
      return Failure(stamped.error);
    }
    FeedIndexSameIds(before, feeds.rows, feedId);
    assert stamped.Success?;
    return Success(FetchReport(outcome.metadata, result.created, result.skipped, result.errors));
  }

  // ================================================================ validateAndAddFeed

  datatype AddReport = AddReport(feed: Feed, articlesCreated: nat, articlesSkipped: nat, error: Option<string>)

  const InitialFetchFailed: string := "Feed created but initial fetch failed"

  /**
   * `validateAndAddFeed`: reject an invalid URL; otherwise create the feed, run the initial
   * fetch and copy the channel metadata onto the feed. A failure anywhere in the initial fetch
   * or the metadata update is caught: the feed stays, with whatever was written before the
   * failure, and the report carries zero counts and an error message.
   */
  method ValidateAndAddFeed(feeds: FeedTable, articles: ArticleTable, env: Environment, userId: UserId, url: string, now: Time)
    returns (r: Result<AddReport>)
    requires feeds.Valid()
    modifies feeds, articles
    ensures feeds.Valid()
    ensures !env.validateFeedUrl(url) ==>
      && r == Failure(InvalidFeedUrl)
      && feeds.rows == old(feeds.rows) && feeds.nextId == old(feeds.nextId)
      && articles.rows == old(articles.rows)
    ensures env.validateFeedUrl(url) ==>
      var created := NewFeed(old(feeds.nextId), userId, url);
      var outcome := env.fetchAndParseFeed(url, created.id);
      && feeds.nextId == old(feeds.nextId) + 1
      && (outcome.FetchError? ==>
            && feeds.rows == old(feeds.rows) + [created]
            && articles.rows == old(articles.rows)
            && r == Success(AddReport(created, 0, 0, Some(InitialFetchFailed))))
      && (outcome.Fetched? ==>
            var (stored, tally) := BulkCreate(old(articles.rows), ToCreateData(created.id, outcome.items), env.writeFault);
            var stamped := created.(lastFetched := Some(now));
            && articles.rows == stored
            && (env.stampFault(created.id).Some? ==>
                  && feeds.rows == old(feeds.rows) + [created]
                  && r == Success(AddReport(created, 0, 0, Some(InitialFetchFailed))))
            && (env.stampFault(created.id).None? && env.metadataFault(created.id).Some? ==>
                  && feeds.rows == old(feeds.rows) + [stamped]
                  && r == Success(AddReport(created, 0, 0, Some(InitialFetchFailed))))
            && (env.stampFault(created.id).None? && env.metadataFault(created.id).None? ==>
                  && feeds.rows == old(feeds.rows) + [Described(created, outcome.metadata).(lastFetched := Some(now))]
                  && r == Success(AddReport(created, tally.created, tally.skipped, None))))
  {
    if !env.validateFeedUrl(url) {
      return Failure(InvalidFeedUrl);
    }
    ghost var rows0 := feeds.rows;
    var feed := feeds.Create(userId, url);
    FeedIndexOfNewest(rows0, feed);
    var fetched := FetchAndStoreFeed(feeds, articles, env, feed.id, now);
    if fetched.Failure? {
      return Success(AddReport(feed, 0, 0, Some(InitialFetchFailed)));
    }
    UpdateNewest(rows0, feed, now, fetched.value.metadata);
    FeedIndexOfNewest(rows0, feed.(lastFetched := Some(now)));
    if env.metadataFault(feed.id).Some? {
      return Success(AddReport(feed, 0, 0, Some(InitialFetchFailed)));
    }
    var described := feeds.SetMetadata(feed.id, fetched.value.metadata);
    FeedIndexOfNewest(rows0, Described(feed, fetched.value.metadata).(lastFetched := Some(now)));
    assert described.Success?;
    return Success(AddReport(feed, fetched.value.created, fetched.value.skipped, None));
  }
}
