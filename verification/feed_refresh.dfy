/**
 * Newsletter preparation: decide which requested feeds are stale under the shared three-hour
 * cache, refresh those, then select the articles for the date range.
 */
module FeedRefresh {
  import opened Common
  import opened Schema
  import opened Seqs
  import opened Store
  import opened RssArticle
  import opened RssFeed
  import opened RssFetch

  /** How long a fetch of a URL counts as fresh, in milliseconds: three hours. */
  const CacheWindow: int := 3 * 60 * 60 * 1000

  /** How many articles a newsletter is generated from at most. */
  const ArticleLimit: nat := 100

  // ================================================================ getFeedsToRefresh

  /** The feed was fetched at or after the threshold (the bound is inclusive). */
  predicate FetchedSince(f: Feed, threshold: Time) {
    f.lastFetched.Some? && f.lastFetched.value >= threshold
  }

  /** Some feed with this URL, whoever owns it, was fetched at or after the threshold. */
  predicate UrlFetchedSince(rows: seq<Feed>, url: string, threshold: Time) {
    exists i :: 0 <= i < |rows| && rows[i].url == url && FetchedSince(rows[i], threshold)
  }

  predicate IsRequested(feedIds: seq<FeedId>, f: Feed) { f.id in feedIds }
  predicate UrlNotIn(urls: set<string>, f: Feed) { f.url !in urls }

  /** `findMany({ where: { id: { in: feedIds } } })`: each existing requested feed once, in table order. */
  function Requested(rows: seq<Feed>, feedIds: seq<FeedId>): seq<Feed> {
    Filter(rows, f => IsRequested(feedIds, f))
  }

  /** The `groupBy` over URLs restricted to fetches since the threshold. */
  function RecentlyFetchedUrls(rows: seq<Feed>, urls: set<string>, threshold: Time): set<string> {
    set u | u in urls && UrlFetchedSince(rows, u, threshold)
  }

  function IdsOf(fs: seq<Feed>): seq<FeedId> {
    seq(|fs|, i requires 0 <= i < |fs| => fs[i].id)
  }

  /**
   * `getFeedsToRefresh`: the requested feeds whose URL no feed of any user has fetched within
   * the cache window. The cache is keyed by URL, not by feed.
   */
  function GetFeedsToRefresh(rows: seq<Feed>, feedIds: seq<FeedId>, now: Time): (r: seq<FeedId>)
    ensures |r| <= |rows|
    ensures forall i :: 0 <= i < |r| ==> r[i] in feedIds
  {
    var requested := Requested(rows, feedIds);
    var urls := set i | 0 <= i < |requested| :: requested[i].url;
    var recent := RecentlyFetchedUrls(rows, urls, now - CacheWindow);
    IdsOf(Filter(requested, f => UrlNotIn(recent, f)))
  }

  /** Every refreshed id is requested, exists, and belongs to a feed whose URL is stale. */
  lemma RefreshedIsStale(rows: seq<Feed>, feedIds: seq<FeedId>, now: Time, id: FeedId)
    requires Pairwise(rows, IdsIncrease)
    requires id in GetFeedsToRefresh(rows, feedIds, now)
    ensures id in feedIds && FeedIndex(rows, id).Some?
    ensures !UrlFetchedSince(rows, rows[FeedIndex(rows, id).value].url, now - CacheWindow)
  {
    var requested := Requested(rows, feedIds);
    var urls := set i | 0 <= i < |requested| :: requested[i].url;
    var recent := RecentlyFetchedUrls(rows, urls, now - CacheWindow);
    var stale := Filter(requested, f => UrlNotIn(recent, f));
    var r := IdsOf(stale);
    var m :| 0 <= m < |r| && r[m] == id;
    var f := stale[m];
    assert f in requested && f.url !in recent;
    var q :| 0 <= q < |requested| && requested[q] == f;
    assert f.url in urls;
    var j :| 0 <= j < |rows| && rows[j] == f;
    FeedIndexOfRow(rows, j);
  }

  /** Every requested, existing feed whose URL is stale is refreshed. */
  lemma StaleIsRefreshed(rows: seq<Feed>, feedIds: seq<FeedId>, now: Time, k: nat)
    requires k < |rows| && rows[k].id in feedIds
    requires !UrlFetchedSince(rows, rows[k].url, now - CacheWindow)
    ensures rows[k].id in GetFeedsToRefresh(rows, feedIds, now)
  {
    var requested := Requested(rows, feedIds);
    var urls := set i | 0 <= i < |requested| :: requested[i].url;
    var recent := RecentlyFetchedUrls(rows, urls, now - CacheWindow);
    var stale := Filter(requested, f => UrlNotIn(recent, f));
    var f := rows[k];
    assert f in requested;
    assert f.url !in recent;
    assert f in stale;
    var m :| 0 <= m < |stale| && stale[m] == f;
    assert IdsOf(stale)[m] == f.id;
  }

  /** A feed id is refreshed exactly when it is requested, exists, and its URL is stale. */
  lemma RefreshExact(rows: seq<Feed>, feedIds: seq<FeedId>, now: Time, id: FeedId)
    requires Pairwise(rows, IdsIncrease)
    ensures id in GetFeedsToRefresh(rows, feedIds, now) <==>
      && id in feedIds
      && FeedIndex(rows, id).Some?
      && !UrlFetchedSince(rows, rows[FeedIndex(rows, id).value].url, now - CacheWindow)
  {
    if id in GetFeedsToRefresh(rows, feedIds, now) {
      RefreshedIsStale(rows, feedIds, now, id);
    }
    if id in feedIds && FeedIndex(rows, id).Some? {
      var k := FeedIndex(rows, id).value;
      if !UrlFetchedSince(rows, rows[k].url, now - CacheWindow) {
        StaleIsRefreshed(rows, feedIds, now, k);
      }
    }
  }

  /** Feeds that share a URL are refreshed together or not at all. */
  lemma RefreshSharedUrl(rows: seq<Feed>, feedIds: seq<FeedId>, now: Time, i: nat, j: nat)
    requires Pairwise(rows, IdsIncrease)
    requires i < |rows| && j < |rows| && rows[i].url == rows[j].url
    requires rows[i].id in feedIds && rows[j].id in feedIds
    ensures rows[i].id in GetFeedsToRefresh(rows, feedIds, now) <==> rows[j].id in GetFeedsToRefresh(rows, feedIds, now)
  {
    FeedIndexOfRow(rows, i);
    FeedIndexOfRow(rows, j);
    RefreshExact(rows, feedIds, now, rows[i].id);
    RefreshExact(rows, feedIds, now, rows[j].id);
  }

  /** A fetch within the window of any feed with the same URL, of any user, makes a refresh unnecessary. */
  lemma RefreshSuppressedBySameUrl(rows: seq<Feed>, feedIds: seq<FeedId>, now: Time, i: nat, j: nat)
    requires Pairwise(rows, IdsIncrease)
    requires i < |rows| && j < |rows| && rows[j].url == rows[i].url
    requires FetchedSince(rows[j], now - CacheWindow)
    ensures rows[i].id !in GetFeedsToRefresh(rows, feedIds, now)
  {
    FeedIndexOfRow(rows, i);
    RefreshExact(rows, feedIds, now, rows[i].id);
  }

  /** A requested feed whose URL was never fetched, by anyone, is always refreshed. */
  lemma NeverFetchedIsRefreshed(rows: seq<Feed>, feedIds: seq<FeedId>, now: Time, i: nat)
    requires Pairwise(rows, IdsIncrease)
    requires i < |rows| && rows[i].id in feedIds
    requires forall j :: 0 <= j < |rows| && rows[j].url == rows[i].url ==> rows[j].lastFetched.None?
    ensures rows[i].id in GetFeedsToRefresh(rows, feedIds, now)
  {
    FeedIndexOfRow(rows, i);
    RefreshExact(rows, feedIds, now, rows[i].id);
  }

  /** The ids come back in table order, hence strictly increasing and without repeats. */
  lemma RefreshIdsIncrease(rows: seq<Feed>, feedIds: seq<FeedId>, now: Time)
    requires Pairwise(rows, IdsIncrease)
    ensures var r := GetFeedsToRefresh(rows, feedIds, now);
      forall a, b :: 0 <= a < b < |r| ==> r[a] < r[b]
  {
    var requested := Requested(rows, feedIds);
    var urls := set i | 0 <= i < |requested| :: requested[i].url;
    var recent := RecentlyFetchedUrls(rows, urls, now - CacheWindow);
    FilterPairwise(rows, f => IsRequested(feedIds, f), IdsIncrease);
    FilterPairwise(requested, f => UrlNotIn(recent, f), IdsIncrease);
    var stale := Filter(requested, f => UrlNotIn(recent, f));
    var r := GetFeedsToRefresh(rows, feedIds, now);
    forall a, b | 0 <= a < b < |r| ensures r[a] < r[b] {
      assert IdsIncrease(stale[a], stale[b]);
    }
  }

  /** Staleness only grows with time: whatever is stale now is stale later. */
  lemma LaterNowRefreshesMore(rows: seq<Feed>, feedIds: seq<FeedId>, now: Time, later: Time, id: FeedId)
    requires Pairwise(rows, IdsIncrease) && now <= later
    requires id in GetFeedsToRefresh(rows, feedIds, now)
    ensures id in GetFeedsToRefresh(rows, feedIds, later)
  {
    RefreshExact(rows, feedIds, now, id);
    RefreshExact(rows, feedIds, later, id);
  }

  /** `after` was fetched no earlier than `before`: a fetch time is kept or moved later, never cleared. */
  predicate FetchedNoEarlier(before: Feed, after: Feed) {
    before.lastFetched.Some? ==> after.lastFetched.Some? && after.lastFetched.value >= before.lastFetched.value
  }

  /**
   * Moving any `lastFetched` later, or setting one that was null, can only shrink what is
   * refreshed: a feed stale in the later table was already stale before.
   */
  lemma LaterFetchesRefreshLess(rows: seq<Feed>, later: seq<Feed>, feedIds: seq<FeedId>, now: Time, id: FeedId)
    requires Pairwise(rows, IdsIncrease) && |later| == |rows|
    requires forall i :: 0 <= i < |rows| ==>
      later[i].id == rows[i].id && later[i].url == rows[i].url && FetchedNoEarlier(rows[i], later[i])
    requires id in GetFeedsToRefresh(later, feedIds, now)
    ensures id in GetFeedsToRefresh(rows, feedIds, now)
  {
    assert Pairwise(later, IdsIncrease) by {
      forall a, b | 0 <= a < b < |later| ensures IdsIncrease(later[a], later[b]) {
        assert IdsIncrease(rows[a], rows[b]);
      }
    }
    RefreshExact(later, feedIds, now, id);
    FeedIndexSameIds(rows, later, id);
    var k := FeedIndex(rows, id).value;
    if UrlFetchedSince(rows, rows[k].url, now - CacheWindow) {
      var j :| 0 <= j < |rows| && rows[j].url == rows[k].url && FetchedSince(rows[j], now - CacheWindow);
      assert later[j].url == later[k].url && FetchedSince(later[j], now - CacheWindow);
    }
    RefreshExact(rows, feedIds, now, id);
  }

  /**
   * After feed `k` is stamped at `t`, no feed sharing its URL is refreshed again until the
   * window has passed.
   */
  lemma StampSuppressesRefresh(rows: seq<Feed>, feedIds: seq<FeedId>, k: nat, t: Time, now: Time, i: nat)
    requires Pairwise(rows, IdsIncrease)
    requires k < |rows| && i < |rows| && rows[i].url == rows[k].url
    requires t <= now <= t + CacheWindow
    ensures rows[i].id !in GetFeedsToRefresh(WithLastFetched(rows, rows[k].id, t), feedIds, now)
  {
    var after := WithLastFetched(rows, rows[k].id, t);
    StampChangesOnlyThatFeed(rows, rows[k].id, t);
    assert Pairwise(after, IdsIncrease) by {
      forall a, b | 0 <= a < b < |after| ensures IdsIncrease(after[a], after[b]) {
        assert IdsIncrease(rows[a], rows[b]);
      }
    }
    RefreshSuppressedBySameUrl(after, feedIds, now, i, k);
  }

  // ================================================================ prepareFeedsAndArticles

  /** Refreshing this feed id succeeds: the feed exists, its URL fetches and parses, and the stamp is written. */
  predicate RefreshSucceeds(env: Environment, rows: seq<Feed>, id: FeedId) {
    match FeedIndex(rows, id)
    case None => false
    case Some(i) => env.fetchAndParseFeed(rows[i].url, id).Fetched? && env.stampFault(id).None?
  }

  /** The article table after refreshing one feed: its items upserted if it exists and fetches. */
  function StoreOne(arts: seq<Article>, rows: seq<Feed>, id: FeedId, env: Environment): seq<Article> {
    match FeedIndex(rows, id)
    case None => arts
    case Some(i) =>
      match env.fetchAndParseFeed(rows[i].url, id)
      case FetchError => arts
      case Fetched(_, items) => BulkCreate(arts, ToCreateData(id, items), env.writeFault).0
  }

  /** The article table after refreshing the first `n` of the given feeds, one after the other. */
  function StoreAll(arts: seq<Article>, rows: seq<Feed>, ids: seq<FeedId>, n: nat, env: Environment): seq<Article>
    requires n <= |ids|
  {
    if n == 0 then arts
    else StoreOne(StoreAll(arts, rows, ids, n - 1, env), rows, ids[n - 1], env)
  }

  /** A refresh round keeps guids unique and source lists free of duplicates. */
  lemma {:induction false} StoreAllPreservesValid(arts: seq<Article>, rows: seq<Feed>, ids: seq<FeedId>, n: nat, env: Environment)
    requires n <= |ids| && ArticlesValid(arts)
    ensures ArticlesValid(StoreAll(arts, rows, ids, n, env))
  {
    if n > 0 {
      var prev := StoreAll(arts, rows, ids, n - 1, env);
      StoreAllPreservesValid(arts, rows, ids, n - 1, env);
      var id := ids[n - 1];
      match FeedIndex(rows, id)
      case None =>
      case Some(i) =>
        match env.fetchAndParseFeed(rows[i].url, id)
        case FetchError =>
        case Fetched(_, items) =>
          BulkPreservesValid(prev, ToCreateData(id, items), env.writeFault);
    }
  }

  /** The feed's URL fetches and parses, and its stamp is written. */
  predicate FetchSucceeds(env: Environment, f: Feed) {
    env.fetchAndParseFeed(f.url, f.id).Fetched? && env.stampFault(f.id).None?
  }

  /** The feed table after refreshing `done`: exactly the feeds that refreshed are stamped. */
  ghost predicate StampedAfter(rows0: seq<Feed>, rows: seq<Feed>, done: seq<FeedId>, env: Environment, now: Time) {
    && |rows| == |rows0|
    && forall j :: 0 <= j < |rows0| ==>
         rows[j] ==
           if rows0[j].id in done && FetchSucceeds(env, rows0[j])
           then rows0[j].(lastFetched := Some(now))
           else rows0[j]
  }

  /**
   * One refresh step, of `ids[i]` after `ids[..i]`: the feed is still found where it was,
   * under the same URL, and stamping it exactly when its fetch succeeds extends the invariant.
   */
  lemma StampStep(rows0: seq<Feed>, before: seq<Feed>, ids: seq<FeedId>, i: nat, env: Environment, now: Time)
    requires Pairwise(rows0, IdsIncrease) && Pairwise(before, IdsIncrease)
    requires i < |ids| && forall a, b :: 0 <= a < b < |ids| ==> ids[a] < ids[b]
    requires StampedAfter(rows0, before, ids[..i], env, now)
    requires FeedIndex(rows0, ids[i]).Some?
    ensures FeedIndex(before, ids[i]) == FeedIndex(rows0, ids[i])
    ensures before[FeedIndex(rows0, ids[i]).value].url == rows0[FeedIndex(rows0, ids[i]).value].url
    ensures RefreshSucceeds(env, rows0, ids[i]) ==>
      StampedAfter(rows0, WithLastFetched(before, ids[i], now), ids[..i + 1], env, now)
    ensures !RefreshSucceeds(env, rows0, ids[i]) ==> StampedAfter(rows0, before, ids[..i + 1], env, now)
  {
    var id := ids[i];
    var k := FeedIndex(rows0, id).value;
    assert ids[..i + 1] == ids[..i] + [id];
    assert id !in ids[..i];
    assert SameIds(rows0, before);
    FeedIndexSameIds(rows0, before, id);
    StampChangesOnlyThatFeed(before, id, now);
    forall j | 0 <= j < |rows0|
      ensures rows0[j].id in ids[..i + 1] <==> rows0[j].id in ids[..i] || j == k
    {
      FeedIndexOfRow(rows0, j);
    }
  }

  /**
   * How the refresh of feed `id` settles: fulfilled exactly when it succeeds, else rejected by
   * the failed fetch or by the store failure of the stamp.
   */
  predicate SettledAs(res: Result<FetchReport>, env: Environment, rows0: seq<Feed>, id: FeedId) {
    && (res.Success? <==> RefreshSucceeds(env, rows0, id))
    && (res.Failure? ==> res.error == FetchFailed || env.stampFault(id) == Some(res.error))
  }

  /** The outcomes of refreshing the first `n` of `ids`, one per feed, each settled on its own. */
  ghost predicate AllSettled(settled: seq<Result<FetchReport>>, env: Environment, rows0: seq<Feed>, ids: seq<FeedId>, n: nat) {
    && n <= |ids| && |settled| == n
    && forall k :: 0 <= k < n ==> SettledAs(settled[k], env, rows0, ids[k])
  }

  lemma AllSettledStep(settled: seq<Result<FetchReport>>, res: Result<FetchReport>, env: Environment, rows0: seq<Feed>, ids: seq<FeedId>, n: nat)
    requires AllSettled(settled, env, rows0, ids, n) && n < |ids|
    requires SettledAs(res, env, rows0, ids[n])
    ensures AllSettled(settled + [res], env, rows0, ids, n + 1)
  {
    assert forall k :: 0 <= k < n ==> (settled + [res])[k] == settled[k];
  }

  /** One settled refresh of feed `ids[i]`, with `ids[..i]` already refreshed since `rows0` and `arts0`. */
  method RefreshFeed(
    feeds: FeedTable, articles: ArticleTable, env: Environment, now: Time,
    ghost rows0: seq<Feed>, ghost arts0: seq<Article>, ids: seq<FeedId>, i: nat)
    returns (res: Result<FetchReport>)
    requires feeds.Valid() && Pairwise(rows0, IdsIncrease)
    requires i < |ids| && forall a, b :: 0 <= a < b < |ids| ==> ids[a] < ids[b]
    requires StampedAfter(rows0, feeds.rows, ids[..i], env, now)
    requires FeedIndex(rows0, ids[i]).Some?
    requires articles.rows == StoreAll(arts0, rows0, ids, i, env)
    modifies feeds, articles
    ensures feeds.Valid() && feeds.nextId == old(feeds.nextId)
    ensures SettledAs(res, env, rows0, ids[i])
    ensures StampedAfter(rows0, feeds.rows, ids[..i + 1], env, now)
    ensures articles.rows == StoreAll(arts0, rows0, ids, i + 1, env)
  {
    StampStep(rows0, feeds.rows, ids, i, env, now);
    res := FetchAndStoreFeed(feeds, articles, env, ids[i], now);
  }

  /**
   * The `Promise.allSettled` over the stale feeds, run one feed after the other: every feed
   * settles on its own, whatever happened to the ones before it.
   */
  method RefreshAll(feeds: FeedTable, articles: ArticleTable, env: Environment, stale: seq<FeedId>, now: Time)
    returns (settled: seq<Result<FetchReport>>)
    requires feeds.Valid()
    requires forall a, b :: 0 <= a < b < |stale| ==> stale[a] < stale[b]
    requires forall k :: 0 <= k < |stale| ==> FeedIndex(feeds.rows, stale[k]).Some?
    modifies feeds, articles
    ensures feeds.Valid() && feeds.nextId == old(feeds.nextId)
    ensures AllSettled(settled, env, old(feeds.rows), stale, |stale|)
    ensures StampedAfter(old(feeds.rows), feeds.rows, stale, env, now)
    ensures articles.rows == StoreAll(old(articles.rows), old(feeds.rows), stale, |stale|, env)
  {
    ghost var rows0 := feeds.rows;
    ghost var arts0 := articles.rows;
    settled := [];
    for i := 0 to |stale|
      invariant feeds.Valid() && feeds.nextId == old(feeds.nextId)
      invariant AllSettled(settled, env, rows0, stale, i)
      invariant StampedAfter(rows0, feeds.rows, stale[..i], env, now)
      invariant articles.rows == StoreAll(arts0, rows0, stale, i, env)
    {
      var res := RefreshFeed(feeds, articles, env, now, rows0, arts0, stale, i);
      AllSettledStep(settled, res, env, rows0, stale, i);
      settled := settled + [res];
    }
    assert stale[..|stale|] == stale;
  }

  /**
   * `prepareFeedsAndArticles`: refresh every stale feed, then select at most `ArticleLimit`
   * articles for the range; no article at all is an error. `settled` holds one outcome per
   * stale feed, as `Promise.allSettled` reports them.
   */
  method PrepareFeedsAndArticles(
    feeds: FeedTable, articles: ArticleTable, env: Environment,
    feedIds: seq<FeedId>, startDate: Time, endDate: Time, now: Time)
    returns (settled: seq<Result<FetchReport>>, r: Result<seq<ScoredArticle>>)
    requires feeds.Valid()
    modifies feeds, articles
    ensures feeds.Valid() && feeds.nextId == old(feeds.nextId)
    ensures var stale := GetFeedsToRefresh(old(feeds.rows), feedIds, now);
      && AllSettled(settled, env, old(feeds.rows), stale, |stale|)
      && StampedAfter(old(feeds.rows), feeds.rows, stale, env, now)
      && articles.rows == StoreAll(old(articles.rows), old(feeds.rows), stale, |stale|, env)
    ensures var selected := GetArticlesByFeedAndDateRange(articles.rows, feedIds, startDate, endDate, ArticleLimit);
      r == if selected == [] then Failure(NoArticlesFound) else Success(selected)
  {
    var stale := GetFeedsToRefresh(feeds.rows, feedIds, now);
    RefreshIdsIncrease(feeds.rows, feedIds, now);
    forall k | 0 <= k < |stale| ensures FeedIndex(feeds.rows, stale[k]).Some? {
      RefreshExact(feeds.rows, feedIds, now, stale[k]);
    }
    settled := RefreshAll(feeds, articles, env, stale, now);
    var selected := GetArticlesByFeedAndDateRange(articles.rows, feedIds, startDate, endDate, ArticleLimit);
    if selected == [] {
      r := Failure(NoArticlesFound);
    } else {
      r := Success(selected);
    }
  }
}
