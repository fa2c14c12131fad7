/**
 * Article actions: the guid-keyed upsert with multi-source tracking, the counting bulk loop,
 * and the selection of articles for a set of feeds and a date range.
 */
module RssArticle {
  import opened Common
  import opened Schema
  import opened Seqs
  import opened Sorting
  import opened Store

  // ================================================================ createRssArticle

  /** The row written for a guid seen for the first time; missing categories become `[]`. */
  function NewArticle(data: ArticleInput): Article {
    var item := data.item;
    Article(item.guid, data.feedId, [data.feedId], item.title, item.link, item.content,
            item.summary, item.pubDate, item.author,
            if item.categories.Some? then item.categories.value else [],
            item.imageUrl)
  }

  /**
   * The article table after `createRssArticle(data)`, and what the call returns. `fault` is a
   * store failure the environment may inject: the call then throws it before writing anything.
   */
  function UpsertArticle(rows: seq<Article>, data: ArticleInput, fault: Option<Error>): (r: (seq<Article>, Result<Article>))
    ensures fault.Some? ==> r == (rows, Failure(fault.value))
    ensures fault.None? ==>
      && r.1.Success? && r.1.value in r.0
      && r.1.value.guid == data.item.guid && data.feedId in r.1.value.sourceFeedIds
    ensures |rows| <= |r.0| <= |rows| + 1
  {
    if fault.Some? then (rows, Failure(fault.value))
    else match GuidIndex(rows, data.item.guid)
      case None => (rows + [NewArticle(data)], Success(NewArticle(data)))
      case Some(i) =>
        if data.feedId in rows[i].sourceFeedIds then (rows, Success(rows[i]))
        else
          var a := rows[i].(sourceFeedIds := rows[i].sourceFeedIds + [data.feedId]);
          assert rows[i := a][i] == a;
          (rows[i := a], Success(a))
  }

  /** `createRssArticle`: look the guid up, then push the feed id, re-read, or create. */
  method CreateRssArticle(table: ArticleTable, data: ArticleInput, fault: Option<Error>) returns (r: Result<Article>)
    modifies table
    ensures (table.rows, r) == UpsertArticle(old(table.rows), data, fault)
  {
    if fault.Some? {
      return Failure(fault.value);
    }
    var existing := GuidIndex(table.rows, data.item.guid);
    if existing.Some? {
      var i := existing.value;
      if data.feedId !in table.rows[i].sourceFeedIds {
        r := table.PushSource(data.item.guid, data.feedId);
        return;
      }
      return Success(table.rows[i]);
    }
    r := table.Create(NewArticle(data));
  }

  /** A first sighting of a guid appends exactly one row, attributed to the sighting feed. */
  lemma UpsertUnseenGuid(rows: seq<Article>, data: ArticleInput)
    requires forall j :: 0 <= j < |rows| ==> rows[j].guid != data.item.guid
    ensures var (after, r) := UpsertArticle(rows, data, None);
      && r.Success? && after == rows + [r.value]
      && r.value.guid == data.item.guid
      && r.value.feedId == data.feedId
      && r.value.sourceFeedIds == [data.feedId]
      && r.value.categories == (if data.item.categories.None? then [] else data.item.categories.value)
      && r.value.title == data.item.title && r.value.link == data.item.link
      && r.value.content == data.item.content && r.value.summary == data.item.summary
      && r.value.pubDate == data.item.pubDate && r.value.author == data.item.author
      && r.value.imageUrl == data.item.imageUrl
  {
  }

  /**
   * A new feed sighting a known guid is appended at the end of `sourceFeedIds`; nothing else
   * in that row or in any other row changes.
   */
  lemma UpsertNewSource(rows: seq<Article>, data: ArticleInput, i: nat)
    requires ArticlesValid(rows)
    requires i < |rows| && rows[i].guid == data.item.guid
    requires data.feedId !in rows[i].sourceFeedIds
    ensures var (after, r) := UpsertArticle(rows, data, None);
      && after == rows[i := rows[i].(sourceFeedIds := rows[i].sourceFeedIds + [data.feedId])]
      && r == Success(after[i])
  {
    forall j | 0 <= j < i ensures !HasGuid(data.item.guid, rows[j]) {
      assert GuidsDiffer(rows[j], rows[i]);
    }
    IndexWhereAt(rows, x => HasGuid(data.item.guid, x), i);
  }

  /** The guid is in the table afterwards, and the sighting feed is among its sources. */
  lemma UpsertRecordsSighting(rows: seq<Article>, data: ArticleInput)
    ensures var after := UpsertArticle(rows, data, None).0;
      var k := GuidIndex(after, data.item.guid);
      k.Some? && data.feedId in after[k.value].sourceFeedIds
  {
    var after := UpsertArticle(rows, data, None).0;
    var g := data.item.guid;
    match GuidIndex(rows, g)
    case None =>
      assert after[|rows|].guid == g;
      GuidIndexAppend(rows, NewArticle(data), g);
    case Some(i) =>
      if data.feedId !in rows[i].sourceFeedIds {
        GuidIndexSameGuids(rows, after, g);
      }
  }

  /** Re-sending the same (guid, feed) sighting leaves the table as it is. */
  lemma UpsertIdempotent(rows: seq<Article>, data: ArticleInput)
    ensures var once := UpsertArticle(rows, data, None).0;
      UpsertArticle(once, data, None).0 == once
  {
    UpsertRecordsSighting(rows, data);
  }

  /** The upsert keeps guids unique and never lists a feed twice for one article. */
  lemma UpsertPreservesValid(rows: seq<Article>, data: ArticleInput, fault: Option<Error>)
    requires ArticlesValid(rows)
    ensures ArticlesValid(UpsertArticle(rows, data, fault).0)
  {
    var after := UpsertArticle(rows, data, fault).0;
    if fault.None? {
      match GuidIndex(rows, data.item.guid)
      case None =>
        forall i, j | 0 <= i < j < |after| ensures GuidsDiffer(after[i], after[j]) {
          if j == |rows| {
            assert after[i] == rows[i];
          }
        }
      case Some(k) =>
        if data.feedId !in rows[k].sourceFeedIds {
          var s := rows[k].sourceFeedIds + [data.feedId];
          assert NoDuplicates(s) by {
            forall i, j | 0 <= i < j < |s| ensures s[i] != s[j] {
              if j == |s| - 1 {
                assert s[i] in rows[k].sourceFeedIds;
              }
            }
          }
          forall i, j | 0 <= i < j < |after| ensures GuidsDiffer(after[i], after[j]) {
            assert after[i].guid == rows[i].guid && after[j].guid == rows[j].guid;
          }
        }
    }
  }

  // ---------------------------------------------------------------- guid lookups after a write

  lemma GuidIndexAppend(rows: seq<Article>, a: Article, g: string)
    ensures GuidIndex(rows + [a], g) ==
      if GuidIndex(rows, g).Some? then GuidIndex(rows, g)
      else if a.guid == g then Some(|rows|)
      else None
  {
    IndexWhereAppend(rows, a, x => HasGuid(g, x));
  }

  lemma GuidIndexSameGuids(a: seq<Article>, b: seq<Article>, g: string)
    requires |a| == |b|
    requires forall i :: 0 <= i < |a| ==> a[i].guid == b[i].guid
    ensures GuidIndex(a, g) == GuidIndex(b, g)
  {
    IndexWhereAgrees(a, b, x => HasGuid(g, x));
  }

  // ================================================================ bulkCreateRssArticles

  datatype BulkResult = BulkResult(created: nat, skipped: nat, errors: nat)

  /**
   * One more outcome: a call that returned counts as created (a merge or a no-op re-sighting
   * included), a thrown P2002 as skipped, any other throw as an error.
   */
  function Count(acc: BulkResult, thrown: Option<Error>): BulkResult {
    match thrown
    case None => acc.(created := acc.created + 1)
    case Some(UniqueConstraintViolation) => acc.(skipped := acc.skipped + 1)
    case Some(_) => acc.(errors := acc.errors + 1)
  }

  function Thrown(r: Result<Article>): Option<Error> {
    if r.Success? then None else Some(r.error)
  }

  /** The article table and the counters after the loop has handled every item of `batch`, in order. */
  function BulkCreate(rows: seq<Article>, batch: seq<ArticleInput>, fault: ArticleInput -> Option<Error>): (r: (seq<Article>, BulkResult))
    ensures |rows| <= |r.0| <= |rows| + |batch|
    decreases |batch|
  {
    if |batch| == 0 then (rows, BulkResult(0, 0, 0))
    else
      var (before, acc) := BulkCreate(rows, batch[..|batch| - 1], fault);
      var last := batch[|batch| - 1];
      var (after, r) := UpsertArticle(before, last, fault(last));
      (after, Count(acc, Thrown(r)))
  }

  /** The counters determined by the injected faults alone, item by item. */
  function Tally(batch: seq<ArticleInput>, fault: ArticleInput -> Option<Error>): (t: BulkResult)
    ensures t.created + t.skipped + t.errors == |batch|
    decreases |batch|
  {
    if |batch| == 0 then BulkResult(0, 0, 0)
    else Count(Tally(batch[..|batch| - 1], fault), fault(batch[|batch| - 1]))
  }

  /**
   * Every item is counted exactly once, by its own outcome: a failing item neither stops the
   * loop nor changes how the other items are counted.
   */
  lemma {:induction false} BulkCounts(rows: seq<Article>, batch: seq<ArticleInput>, fault: ArticleInput -> Option<Error>)
    ensures BulkCreate(rows, batch, fault).1 == Tally(batch, fault)
    ensures var t := BulkCreate(rows, batch, fault).1; t.created + t.skipped + t.errors == |batch|
    decreases |batch|
  {
    if |batch| > 0 {
      BulkCounts(rows, batch[..|batch| - 1], fault);
    }
  }

  /** The loop keeps the table's invariant. */
  lemma {:induction false} BulkPreservesValid(rows: seq<Article>, batch: seq<ArticleInput>, fault: ArticleInput -> Option<Error>)
    requires ArticlesValid(rows)
    ensures ArticlesValid(BulkCreate(rows, batch, fault).0)
    decreases |batch|
  {
    if |batch| > 0 {
      BulkPreservesValid(rows, batch[..|batch| - 1], fault);
      var before := BulkCreate(rows, batch[..|batch| - 1], fault).0;
      var last := batch[|batch| - 1];
      UpsertPreservesValid(before, last, fault(last));
    }
  }

  /** The set of feeds listed for `guid`, empty when the guid is not stored. */
  function SourcesOf(rows: seq<Article>, guid: string): set<FeedId> {
    match GuidIndex(rows, guid)
    case None => {}
    case Some(i) => set f | f in rows[i].sourceFeedIds
  }

  /** The feeds that sighted `guid` in `batch` with a write that did not fail. */
  function Sightings(batch: seq<ArticleInput>, fault: ArticleInput -> Option<Error>, guid: string): set<FeedId> {
    set k | 0 <= k < |batch| && batch[k].item.guid == guid && fault(batch[k]).None? :: batch[k].feedId
  }

  lemma UpsertSources(rows: seq<Article>, data: ArticleInput, fault: Option<Error>, g: string)
    ensures SourcesOf(UpsertArticle(rows, data, fault).0, g) ==
      SourcesOf(rows, g) + (if fault.None? && data.item.guid == g then {data.feedId} else {})
  {
    var after := UpsertArticle(rows, data, fault).0;
    if fault.None? {
      match GuidIndex(rows, data.item.guid)
      case None =>
        GuidIndexAppend(rows, NewArticle(data), g);
      case Some(i) =>
        if data.feedId !in rows[i].sourceFeedIds {
          GuidIndexSameGuids(rows, after, g);
        }
    }
  }

  /** The sightings in a batch are those of all but its last item, plus the last one's. */
  lemma SightingsStep(batch: seq<ArticleInput>, fault: ArticleInput -> Option<Error>, g: string)
    requires |batch| > 0
    ensures var last := batch[|batch| - 1];
      Sightings(batch, fault, g) == Sightings(batch[..|batch| - 1], fault, g) +
        (if fault(last).None? && last.item.guid == g then {last.feedId} else {})
  {
    var n := |batch| - 1;
    var prefix := batch[..n];
    var last := batch[n];
    var added := if fault(last).None? && last.item.guid == g then {last.feedId} else {};
    forall f | f in Sightings(batch, fault, g) ensures f in Sightings(prefix, fault, g) + added {
      var k :| 0 <= k < |batch| && batch[k].item.guid == g && fault(batch[k]).None? && batch[k].feedId == f;
      if k < n {
        assert prefix[k] == batch[k];
      }
    }
    forall f | f in Sightings(prefix, fault, g) ensures f in Sightings(batch, fault, g) {
      var k :| 0 <= k < |prefix| && prefix[k].item.guid == g && fault(prefix[k]).None? && prefix[k].feedId == f;
      assert batch[k] == prefix[k];
    }
  }

  /**
   * Deduplication across feeds: after the loop, the feeds listed for a guid are exactly those
   * listed before plus every feed that sighted it without a failing write, whatever the order.
   */
  lemma {:induction false} BulkSources(rows: seq<Article>, batch: seq<ArticleInput>, fault: ArticleInput -> Option<Error>, g: string)
    ensures SourcesOf(BulkCreate(rows, batch, fault).0, g) == SourcesOf(rows, g) + Sightings(batch, fault, g)
    decreases |batch|
  {
    if |batch| > 0 {
      var n := |batch| - 1;
      BulkSources(rows, batch[..n], fault, g);
      UpsertSources(BulkCreate(rows, batch[..n], fault).0, batch[n], fault(batch[n]), g);
      SightingsStep(batch, fault, g);
    }
  }

  /** `bulkCreateRssArticles`: the counting loop over `createRssArticle`. */
  method BulkCreateRssArticles(table: ArticleTable, batch: seq<ArticleInput>, fault: ArticleInput -> Option<Error>)
    returns (result: BulkResult)
    modifies table
    ensures (table.rows, result) == BulkCreate(old(table.rows), batch, fault)
  {
    result := BulkResult(0, 0, 0);
    for i := 0 to |batch|
      invariant (table.rows, result) == BulkCreate(old(table.rows), batch[..i], fault)
    {
      var r := CreateRssArticle(table, batch[i], fault(batch[i]));
      assert batch[..i + 1][..i] == batch[..i];
      result := Count(result, Thrown(r));
    }
    assert batch[..|batch|] == batch;
  }

  // ================================================================ getArticlesByFeedAndDateRange

  /** An article with its importance score: the number of feeds that carried it. */
  datatype ScoredArticle = ScoredArticle(article: Article, sourceCount: nat)

  /** Surfaced by one of `feedIds` (as originator or as a source) and published inside `[start, end]`. */
  predicate Matches(a: Article, feedIds: seq<FeedId>, start: Time, end: Time) {
    && (a.feedId in feedIds || exists f :: f in a.sourceFeedIds && f in feedIds)
    && start <= a.pubDate <= end
  }

  function PubDate(a: Article): int { a.pubDate }

  /** All matching rows, newest first. */
  function MatchingNewestFirst(rows: seq<Article>, feedIds: seq<FeedId>, start: Time, end: Time): seq<Article> {
    SortDesc(Filter(rows, a => Matches(a, feedIds, start, end)), PubDate)
  }

  function Selected(r: seq<ScoredArticle>): (s: seq<Article>)
    ensures |s| == |r| && forall i :: 0 <= i < |r| ==> s[i] == r[i].article
  {
    seq(|r|, i requires 0 <= i < |r| => r[i].article)
  }

  lemma RankedMembers(rows: seq<Article>, feedIds: seq<FeedId>, start: Time, end: Time)
    ensures forall x :: x in MatchingNewestFirst(rows, feedIds, start, end) <==>
      x in rows && Matches(x, feedIds, start, end)
  {
    var matching := Filter(rows, a => Matches(a, feedIds, start, end));
    SortDescMembers(matching, PubDate);
    forall x ensures x in matching <==> x in rows && Matches(x, feedIds, start, end) {
      if x in matching {
        var i :| 0 <= i < |matching| && matching[i] == x;
      }
      if x in rows && Matches(x, feedIds, start, end) {
        var i :| 0 <= i < |rows| && rows[i] == x;
      }
    }
  }

  /** `getArticlesByFeedAndDateRange`: filter, order by date descending, take `limit`, score. */
  function GetArticlesByFeedAndDateRange(rows: seq<Article>, feedIds: seq<FeedId>, start: Time, end: Time, limit: nat := 100)
    : (r: seq<ScoredArticle>)
    ensures |r| <= limit
    ensures forall i :: 0 <= i < |r| ==> r[i].article in rows && Matches(r[i].article, feedIds, start, end)
    ensures forall i :: 0 <= i < |r| ==> r[i].sourceCount == |r[i].article.sourceFeedIds|
    ensures forall i, j :: 0 <= i < j < |r| ==> r[i].article.pubDate >= r[j].article.pubDate
    ensures var ranked := MatchingNewestFirst(rows, feedIds, start, end);
      |r| == (if |ranked| <= limit then |ranked| else limit) && Selected(r) == ranked[..|r|]
  {
    var ranked := MatchingNewestFirst(rows, feedIds, start, end);
    RankedMembers(rows, feedIds, start, end);
    var n := if |ranked| <= limit then |ranked| else limit;
    SortedDescWindow(ranked, PubDate, 0, n);
    assert ranked[0..n] == ranked[..n];
    Score(ranked[..n])
  }

  /** Each article paired with its `sourceCount`, the number of feeds that carried it. */
  function Score(taken: seq<Article>): (r: seq<ScoredArticle>)
    ensures Selected(r) == taken
    ensures forall i :: 0 <= i < |r| ==> r[i].sourceCount == |r[i].article.sourceFeedIds|
  {
    seq(|taken|, i requires 0 <= i < |taken| => ScoredArticle(taken[i], |taken[i].sourceFeedIds|))
  }

  /** The selection repeats no stored article: each appears at most as often as in the table. */
  lemma SelectionFromTable(rows: seq<Article>, feedIds: seq<FeedId>, start: Time, end: Time, limit: nat)
    ensures multiset(Selected(GetArticlesByFeedAndDateRange(rows, feedIds, start, end, limit))) <= multiset(rows)
  {
    var r := GetArticlesByFeedAndDateRange(rows, feedIds, start, end, limit);
    var matching := Filter(rows, a => Matches(a, feedIds, start, end));
    var ranked := SortDesc(matching, PubDate);
    FilterSubMultiset(rows, a => Matches(a, feedIds, start, end));
    PrefixSubMultiset(ranked, |r|);
    assert multiset(Selected(r)) == multiset(ranked[..|r|]);
  }

  /**
   * Nothing newer is left out: a matching article missing from the selection means the
   * selection is full and every selected article is at least as recent.
   */
  lemma SelectionKeepsNewest(rows: seq<Article>, feedIds: seq<FeedId>, start: Time, end: Time, limit: nat, k: nat)
    requires k < |rows| && Matches(rows[k], feedIds, start, end)
    requires rows[k] !in Selected(GetArticlesByFeedAndDateRange(rows, feedIds, start, end, limit))
    ensures var r := GetArticlesByFeedAndDateRange(rows, feedIds, start, end, limit);
      |r| == limit && forall i :: 0 <= i < |r| ==> r[i].article.pubDate >= rows[k].pubDate
  {
    var r := GetArticlesByFeedAndDateRange(rows, feedIds, start, end, limit);
    var ranked := MatchingNewestFirst(rows, feedIds, start, end);
    RankedMembers(rows, feedIds, start, end);
    var m :| 0 <= m < |ranked| && ranked[m] == rows[k];
    assert forall i :: 0 <= i < |r| ==> Selected(r)[i] == ranked[i];
    assert m >= |r|;
    assert |r| == limit;
    forall i | 0 <= i < |r| ensures r[i].article.pubDate >= rows[k].pubDate {
      assert r[i].article == ranked[i];
      assert PubDate(ranked[i]) >= PubDate(ranked[m]);
    }
  }
}
