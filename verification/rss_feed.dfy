/** Feed actions: list a user's feeds, stamp `lastFetched`, and delete a feed with article cleanup. */
module RssFeed {
  import opened Common
  import opened Schema
  import opened Seqs
  import opened Store

  // ================================================================ getRssFeedsByUserId

  predicate OwnedBy(userId: UserId, f: Feed) { f.userId == userId }

  /**
   * `getRssFeedsByUserId`: the user's feeds, most recently created first. Rows sit in creation
   * order, so that order is the table order reversed.
   */
  function GetRssFeedsByUserId(rows: seq<Feed>, userId: UserId): (r: seq<Feed>)
    ensures forall i :: 0 <= i < |r| ==> r[i] in rows && r[i].userId == userId
    ensures forall i :: 0 <= i < |rows| && rows[i].userId == userId ==> rows[i] in r
  {
    var mine := Filter(rows, f => OwnedBy(userId, f));
    assert forall x :: x in mine ==> x in Reverse(mine) by {
      forall x | x in mine ensures x in Reverse(mine) {
        var k :| 0 <= k < |mine| && mine[k] == x;
        assert Reverse(mine)[|mine| - 1 - k] == x;
      }
    }
    Reverse(mine)
  }

  /** With ids handed out in creation order, the listing is strictly newest first. */
  lemma FeedsByUserNewestFirst(rows: seq<Feed>, userId: UserId)
    requires Pairwise(rows, IdsIncrease)
    ensures var r := GetRssFeedsByUserId(rows, userId);
      forall i, j :: 0 <= i < j < |r| ==> r[i].id > r[j].id
  {
    var mine := Filter(rows, f => OwnedBy(userId, f));
    FilterPairwise(rows, f => OwnedBy(userId, f), IdsIncrease);
    var r := Reverse(mine);
    assert GetRssFeedsByUserId(rows, userId) == r;
    forall i, j | 0 <= i < j < |r| ensures r[i].id > r[j].id {
      assert IdsIncrease(mine[|mine| - 1 - j], mine[|mine| - 1 - i]);
    }
  }

  // ================================================================ updateFeedLastFetched

  /**
   * `updateFeedLastFetched`: stamps the feed with the current time; throws if it does not exist.
   * `fault` is a store failure the environment may inject: the update then throws it and
   * writes nothing.
   */
  method UpdateFeedLastFetched(feeds: FeedTable, feedId: FeedId, now: Time, fault: Option<Error>) returns (r: Result<Feed>)
    requires feeds.Valid()
    modifies feeds
    ensures feeds.Valid() && feeds.nextId == old(feeds.nextId)
    ensures fault.Some? ==> r == Failure(fault.value) && feeds.rows == old(feeds.rows)
    ensures fault.None? ==> feeds.rows == WithLastFetched(old(feeds.rows), feedId, now) && r == FeedAt(feeds.rows, feedId)
  {
    if fault.Some? {
      return Failure(fault.value);
    }
    r := feeds.SetLastFetched(feedId, now);
  }

  /** The stamp changes the `lastFetched` of the feed with that id and nothing else. */
  lemma StampChangesOnlyThatFeed(rows: seq<Feed>, feedId: FeedId, now: Time)
    requires Pairwise(rows, IdsIncrease)
    ensures var after := WithLastFetched(rows, feedId, now);
      && |after| == |rows|
      && forall i :: 0 <= i < |rows| ==>
           after[i] == if rows[i].id == feedId then rows[i].(lastFetched := Some(now)) else rows[i]
  {
    match FeedIndex(rows, feedId)
    case None =>
    case Some(k) =>
      forall i | 0 <= i < |rows| && i != k ensures rows[i].id != feedId {
        if i < k {
          assert IdsIncrease(rows[i], rows[k]);
        } else {
          assert IdsIncrease(rows[k], rows[i]);
        }
      }
  }

  // ================================================================ deleteRssFeed

  /** The article table once a feed's id has been pulled everywhere and orphans deleted. */
  function ArticlesAfterFeedDelete(rows: seq<Article>, feedId: FeedId): (r: seq<Article>)
    ensures |r| <= |rows|
    ensures forall i :: 0 <= i < |r| ==> IsReferenced(r[i])
  {
    ReferencedOnly(PulledFromAll(rows, feedId))
  }

  /**
   * `deleteRssFeed`: pull the id from every article, delete the articles left without a
   * source, then delete the feed. The article steps run first, so an unknown feed id throws
   * only after the article table has been rewritten.
   */
  method DeleteRssFeed(feeds: FeedTable, articles: ArticleTable, feedId: FeedId) returns (r: Result<()>)
    requires feeds.Valid()
    modifies feeds, articles
    ensures feeds.Valid() && feeds.nextId == old(feeds.nextId)
    ensures articles.rows == ArticlesAfterFeedDelete(old(articles.rows), feedId)
    ensures feeds.rows == WithoutFeed(old(feeds.rows), feedId)
    ensures r.Success? <==> FeedIndex(old(feeds.rows), feedId).Some?
    ensures r.Failure? ==> r.error == RecordNotFound
  {
    articles.PullSource(feedId);
    articles.DeleteUnreferenced();
    var deleted := feeds.Delete(feedId);
    if deleted.Failure? {
      return Failure(deleted.error);
    }
    return Success(());
  }

  /** The pulled list keeps the other ids, in order, and drops every occurrence of the feed. */
  lemma WithoutSourceMembers(ids: seq<FeedId>, feedId: FeedId)
    ensures forall x :: x in WithoutSource(ids, feedId) <==> x in ids && x != feedId
    ensures WithoutSource(ids, feedId) == [] <==> forall x :: x in ids ==> x == feedId
  {
    var r := WithoutSource(ids, feedId);
    if r != [] {
      assert r[0] in r;
    }
    forall x ensures x in r <==> x in ids && x != feedId {
      if x in r {
        var k :| 0 <= k < |r| && r[k] == x;
      }
      if x in ids && x != feedId {
        var k :| 0 <= k < |ids| && ids[k] == x;
      }
    }
  }

  /** Afterwards no article lists the deleted feed, and none is left without a source. */
  lemma FeedDeleteUnlinks(rows: seq<Article>, feedId: FeedId)
    ensures var r := ArticlesAfterFeedDelete(rows, feedId);
      forall i :: 0 <= i < |r| ==> feedId !in r[i].sourceFeedIds && |r[i].sourceFeedIds| > 0
  {
    var pulled := PulledFromAll(rows, feedId);
    var r := ArticlesAfterFeedDelete(rows, feedId);
    forall i | 0 <= i < |r| ensures feedId !in r[i].sourceFeedIds && |r[i].sourceFeedIds| > 0 {
      assert r[i] in pulled && IsReferenced(r[i]);
      var j :| 0 <= j < |pulled| && pulled[j] == r[i];
      WithoutSourceMembers(rows[j].sourceFeedIds, feedId);
    }
  }

  /** An article that still has another source survives, with only the feed id pulled out. */
  lemma FeedDeleteKeepsOthers(rows: seq<Article>, feedId: FeedId, i: nat, other: FeedId)
    requires i < |rows| && other in rows[i].sourceFeedIds && other != feedId
    ensures rows[i].(sourceFeedIds := WithoutSource(rows[i].sourceFeedIds, feedId))
      in ArticlesAfterFeedDelete(rows, feedId)
  {
    var pulled := PulledFromAll(rows, feedId);
    WithoutSourceMembers(rows[i].sourceFeedIds, feedId);
    assert IsReferenced(pulled[i]);
  }

  /** Every surviving article is an original row with only the feed id pulled out. */
  lemma FeedDeleteOnlyPulls(rows: seq<Article>, feedId: FeedId)
    ensures var r := ArticlesAfterFeedDelete(rows, feedId);
      forall k :: 0 <= k < |r| ==>
        (exists j :: 0 <= j < |rows| && r[k] == rows[j].(sourceFeedIds := WithoutSource(rows[j].sourceFeedIds, feedId)))
  {
    var pulled := PulledFromAll(rows, feedId);
    var r := ArticlesAfterFeedDelete(rows, feedId);
    forall k | 0 <= k < |r|
      ensures exists j :: 0 <= j < |rows| && r[k] == rows[j].(sourceFeedIds := WithoutSource(rows[j].sourceFeedIds, feedId))
    {
      assert r[k] in pulled;
      var j :| 0 <= j < |pulled| && pulled[j] == r[k];
    }
  }

  /** An article whose only source was the deleted feed is gone. */
  lemma FeedDeleteDropsSoleSource(rows: seq<Article>, feedId: FeedId, i: nat)
    requires ArticlesValid(rows)
    requires i < |rows| && forall x :: x in rows[i].sourceFeedIds ==> x == feedId
    ensures forall a :: a in ArticlesAfterFeedDelete(rows, feedId) ==> a.guid != rows[i].guid
  {
    var pulled := PulledFromAll(rows, feedId);
    var r := ArticlesAfterFeedDelete(rows, feedId);
    WithoutSourceMembers(rows[i].sourceFeedIds, feedId);
    assert !IsReferenced(pulled[i]);
    forall a | a in r ensures a.guid != rows[i].guid {
      assert a in pulled && IsReferenced(a);
      var j :| 0 <= j < |pulled| && pulled[j] == a;
      assert j != i;
      if j < i {
        assert GuidsDiffer(rows[j], rows[i]);
      } else {
        assert GuidsDiffer(rows[i], rows[j]);
      }
    }
  }

  /** The cleanup keeps guids unique and source lists free of duplicates. */
  lemma FeedDeletePreservesValid(rows: seq<Article>, feedId: FeedId)
    requires ArticlesValid(rows)
    ensures ArticlesValid(ArticlesAfterFeedDelete(rows, feedId))
  {
    var pulled := PulledFromAll(rows, feedId);
    assert Pairwise(pulled, GuidsDiffer) by {
      forall i, j | 0 <= i < j < |pulled| ensures GuidsDiffer(pulled[i], pulled[j]) {
        assert GuidsDiffer(rows[i], rows[j]);
      }
    }
    forall i | 0 <= i < |pulled| ensures NoDuplicates(pulled[i].sourceFeedIds) {
      FilterNoDuplicates(rows[i].sourceFeedIds, x => x != feedId);
    }
    FilterPairwise(pulled, IsReferenced, GuidsDiffer);
    var r := ArticlesAfterFeedDelete(rows, feedId);
    forall i | 0 <= i < |r| ensures NoDuplicates(r[i].sourceFeedIds) {
      assert r[i] in pulled;
    }
  }
}
