/**
 * The document store, held in memory. Each collection is a class whose `rows` field is the
 * collection in insertion order; its methods are the store primitives the actions call
 * (`create`, `update`, `delete`, `updateMany` with `$pull`, `deleteMany`). Lookups by a unique
 * key (`findUnique`) are the functions at the top.
 */
module Store {
  import opened Common
  import opened Schema
  import opened Seqs

  // ---------------------------------------------------------------- lookups by unique key

  predicate HasGuid(guid: string, a: Article) { a.guid == guid }
  predicate HasFeedId(id: FeedId, f: Feed) { f.id == id }
  predicate HasNewsletterId(id: NewsletterId, n: Newsletter) { n.id == id }
  predicate HasClerkId(clerkUserId: string, u: User) { u.clerkUserId == clerkUserId }

  function GuidIndex(rows: seq<Article>, guid: string): Option<nat> {
    IndexWhere(rows, a => HasGuid(guid, a))
  }

  function FeedIndex(rows: seq<Feed>, id: FeedId): Option<nat> {
    IndexWhere(rows, f => HasFeedId(id, f))
  }

  function NewsletterIndex(rows: seq<Newsletter>, id: NewsletterId): Option<nat> {
    IndexWhere(rows, n => HasNewsletterId(id, n))
  }

  function ClerkIndex(rows: seq<User>, clerkUserId: string): Option<nat> {
    IndexWhere(rows, u => HasClerkId(clerkUserId, u))
  }

  // ---------------------------------------------------------------- table invariants

  predicate GuidsDiffer(a: Article, b: Article) { a.guid != b.guid }
  predicate IdsIncrease(a: Feed, b: Feed) { a.id < b.id }
  predicate NewsletterIdsIncrease(a: Newsletter, b: Newsletter) { a.id < b.id }
  predicate ClerkIdsDiffer(a: User, b: User) { a.clerkUserId != b.clerkUserId }

  /** At most one article per guid, and no feed listed twice as a source of one article. */
  ghost predicate ArticlesValid(rows: seq<Article>) {
    && Pairwise(rows, GuidsDiffer)
    && forall i :: 0 <= i < |rows| ==> NoDuplicates(rows[i].sourceFeedIds)
  }

  // ---------------------------------------------------------------- bulk article updates

  /** `$pull: { sourceFeedIds: feedId }` on one list: every occurrence goes. */
  function WithoutSource(ids: seq<FeedId>, feedId: FeedId): seq<FeedId> {
    Filter(ids, x => x != feedId)
  }

  /** The `$pull` update applied to every article (`multi: true`). */
  function PulledFromAll(rows: seq<Article>, feedId: FeedId): (r: seq<Article>)
    ensures |r| == |rows|
  {
    seq(|rows|, i requires 0 <= i < |rows| =>
      rows[i].(sourceFeedIds := WithoutSource(rows[i].sourceFeedIds, feedId)))
  }

  predicate IsReferenced(a: Article) { |a.sourceFeedIds| > 0 }

  /** `deleteMany({ where: { sourceFeedIds: { isEmpty: true } } })`. */
  function ReferencedOnly(rows: seq<Article>): seq<Article> {
    Filter(rows, IsReferenced)
  }

  // ---------------------------------------------------------------- single-feed updates

  function NewFeed(id: FeedId, userId: UserId, url: string): Feed {
    Feed(id, userId, url, None, None, None, None, None, None)
  }

  function WithLastFetched(rows: seq<Feed>, id: FeedId, t: Time): seq<Feed> {
    match FeedIndex(rows, id)
    case None => rows
    case Some(i) => rows[i := rows[i].(lastFetched := Some(t))]
  }

  function Described(f: Feed, m: FeedMetadata): Feed {
    f.(title := m.title, description := m.description, link := m.link,
       imageUrl := m.imageUrl, language := m.language)
  }

  function WithMetadata(rows: seq<Feed>, id: FeedId, m: FeedMetadata): seq<Feed> {
    match FeedIndex(rows, id)
    case None => rows
    case Some(i) => rows[i := Described(rows[i], m)]
  }

  function WithoutFeed(rows: seq<Feed>, id: FeedId): seq<Feed> {
    match FeedIndex(rows, id)
    case None => rows
    case Some(i) => rows[..i] + rows[i + 1..]
  }

  /** The row an `update` or `delete` by feed id acts on, or the error it throws. */
  function FeedAt(rows: seq<Feed>, id: FeedId): Result<Feed> {
    match FeedIndex(rows, id)
    case None => Failure(RecordNotFound)
    case Some(i) => Success(rows[i])
  }

  // ---------------------------------------------------------------- lookups after a feed update

  /** Same ids in the same places: an update of other columns keeps every id lookup. */
  ghost predicate SameIds(a: seq<Feed>, b: seq<Feed>) {
    |a| == |b| && forall i :: 0 <= i < |a| ==> a[i].id == b[i].id
  }

  lemma FeedIndexSameIds(a: seq<Feed>, b: seq<Feed>, id: FeedId)
    requires SameIds(a, b)
    ensures FeedIndex(a, id) == FeedIndex(b, id)
  {
    IndexWhereAgrees(a, b, f => HasFeedId(id, f));
  }

  /** The feed appended last, with an id no earlier row carries, is found at the end. */
  lemma FeedIndexOfNewest(rows: seq<Feed>, f: Feed)
    requires forall i :: 0 <= i < |rows| ==> rows[i].id < f.id
    ensures FeedIndex(rows + [f], f.id) == Some(|rows|)
  {
    IndexWhereAt(rows + [f], g => HasFeedId(f.id, g), |rows|);
  }

  /** Updates by the id of the feed appended last touch only that feed. */
  lemma UpdateNewest(rows: seq<Feed>, f: Feed, t: Time, m: FeedMetadata)
    requires forall i :: 0 <= i < |rows| ==> rows[i].id < f.id
    ensures WithLastFetched(rows + [f], f.id, t) == rows + [f.(lastFetched := Some(t))]
    ensures WithMetadata(rows + [f.(lastFetched := Some(t))], f.id, m) == rows + [Described(f, m).(lastFetched := Some(t))]
  {
    FeedIndexOfNewest(rows, f);
    FeedIndexOfNewest(rows, f.(lastFetched := Some(t)));
  }

  /** With ids unique, looking a row's own id up finds that row. */
  lemma FeedIndexOfRow(rows: seq<Feed>, i: nat)
    requires Pairwise(rows, IdsIncrease) && i < |rows|
    ensures FeedIndex(rows, rows[i].id) == Some(i)
  {
    forall j | 0 <= j < i ensures rows[j].id != rows[i].id {
      assert IdsIncrease(rows[j], rows[i]);
    }
    IndexWhereAt(rows, f => HasFeedId(rows[i].id, f), i);
  }

  // ---------------------------------------------------------------- the collections

  class ArticleTable {
    var rows: seq<Article>

    constructor ()
      ensures rows == []
    {
      rows := [];
    }

    /** `rssArticle.create`: the unique index on `guid` rejects a second row for a guid. */
    method Create(a: Article) returns (r: Result<Article>)
      modifies this
      ensures GuidIndex(old(rows), a.guid).Some? ==> r == Failure(UniqueConstraintViolation) && rows == old(rows)
      ensures GuidIndex(old(rows), a.guid).None? ==> r == Success(a) && rows == old(rows) + [a]
    {
      if GuidIndex(rows, a.guid).Some? {
        r := Failure(UniqueConstraintViolation);
      } else {
        rows := rows + [a];
        r := Success(a);
      }
    }

    /** `rssArticle.update({ where: { guid }, data: { sourceFeedIds: { push: feedId } } })`. */
    method PushSource(guid: string, feedId: FeedId) returns (r: Result<Article>)
      modifies this
      ensures GuidIndex(old(rows), guid).None? ==> r == Failure(RecordNotFound) && rows == old(rows)
      ensures GuidIndex(old(rows), guid).Some? ==>
        var i := GuidIndex(old(rows), guid).value;
        var a := old(rows)[i].(sourceFeedIds := old(rows)[i].sourceFeedIds + [feedId]);
        r == Success(a) && rows == old(rows)[i := a]
    {
      match GuidIndex(rows, guid)
      case None =>
        r := Failure(RecordNotFound);
      case Some(i) =>
        var a := rows[i].(sourceFeedIds := rows[i].sourceFeedIds + [feedId]);
        rows := rows[i := a];
        r := Success(a);
    }

    /** The raw `update` command with `$pull` and `multi: true`. */
    method PullSource(feedId: FeedId)
      modifies this
      ensures rows == PulledFromAll(old(rows), feedId)
    {
      rows := PulledFromAll(rows, feedId);
    }

    /** `deleteMany` of the articles whose `sourceFeedIds` is empty. */
    method DeleteUnreferenced()
      modifies this
      ensures rows == ReferencedOnly(old(rows))
    {
      rows := ReferencedOnly(rows);
    }
  }

  class FeedTable {
    var rows: seq<Feed>
    var nextId: FeedId

    /** Ids are handed out in increasing order and never reused. */
    ghost predicate Valid()
      reads this
    {
      && Pairwise(rows, IdsIncrease)
      && forall i :: 0 <= i < |rows| ==> rows[i].id < nextId
    }

    constructor ()
      ensures Valid() && rows == []
    {
      rows := [];
      nextId := 0;
    }

    /** `rssFeed.create({ data: { userId, url } })`. */
    method Create(userId: UserId, url: string) returns (feed: Feed)
      requires Valid()
      modifies this
      ensures Valid()
      ensures feed == NewFeed(old(nextId), userId, url)
      ensures rows == old(rows) + [feed] && nextId == old(nextId) + 1
    {
      feed := NewFeed(nextId, userId, url);
      rows := rows + [feed];
      nextId := nextId + 1;
    }

    /** `rssFeed.update({ where: { id }, data: { lastFetched: t } })`. */
    method SetLastFetched(id: FeedId, t: Time) returns (r: Result<Feed>)
      requires Valid()
      modifies this
      ensures Valid() && nextId == old(nextId)
      ensures rows == WithLastFetched(old(rows), id, t)
      ensures r == FeedAt(rows, id)
    {
      match FeedIndex(rows, id)
      case None =>
        r := Failure(RecordNotFound);
      case Some(i) =>
        rows := rows[i := rows[i].(lastFetched := Some(t))];
        r := Success(rows[i]);
    }

    /** `rssFeed.update` of the five display columns. */
    method SetMetadata(id: FeedId, m: FeedMetadata) returns (r: Result<Feed>)
      requires Valid()
      modifies this
      ensures Valid() && nextId == old(nextId)
      ensures rows == WithMetadata(old(rows), id, m)
      ensures r == FeedAt(rows, id)
    {
      match FeedIndex(rows, id)
      case None =>
        r := Failure(RecordNotFound);
      case Some(i) =>
        rows := rows[i := Described(rows[i], m)];
        r := Success(rows[i]);
    }

    /** `rssFeed.delete({ where: { id } })`: throws when there is no such row. */
    method Delete(id: FeedId) returns (r: Result<Feed>)
      requires Valid()
      modifies this
      ensures Valid() && nextId == old(nextId)
      ensures rows == WithoutFeed(old(rows), id)
      ensures r == FeedAt(old(rows), id)
    {
      match FeedIndex(rows, id)
      case None =>
        r := Failure(RecordNotFound);
      case Some(i) =>
        r := Success(rows[i]);
        PairwiseRemove(rows, i, IdsIncrease);
        rows := rows[..i] + rows[i + 1..];
    }
  }

  class NewsletterTable {
    var rows: seq<Newsletter>
    var nextId: NewsletterId

    /** Ids are handed out in increasing order and never reused. */
    ghost predicate Valid()
      reads this
    {
      && Pairwise(rows, NewsletterIdsIncrease)
      && forall i :: 0 <= i < |rows| ==> rows[i].id < nextId
    }

    constructor ()
      ensures Valid() && rows == []
    {
      rows := [];
      nextId := 0;
    }

    /** `newsletter.create`: the store adds the id and `createdAt`. */
    method Create(data: NewsletterData, now: Time) returns (n: Newsletter)
      requires Valid()
      modifies this
      ensures Valid()
      ensures n == Newsletter(old(nextId), now, data)
      ensures rows == old(rows) + [n] && nextId == old(nextId) + 1
    {
      n := Newsletter(nextId, now, data);
      rows := rows + [n];
      nextId := nextId + 1;
    }

    /** `newsletter.delete({ where: { id } })`. */
    method Delete(id: NewsletterId) returns (r: Result<Newsletter>)
      requires Valid()
      modifies this
      ensures Valid() && nextId == old(nextId)
      ensures NewsletterIndex(old(rows), id).None? ==> r == Failure(RecordNotFound) && rows == old(rows)
      ensures NewsletterIndex(old(rows), id).Some? ==>
        var i := NewsletterIndex(old(rows), id).value;
        r == Success(old(rows)[i]) && rows == old(rows)[..i] + old(rows)[i + 1..]
    {
      match NewsletterIndex(rows, id)
      case None =>
        r := Failure(RecordNotFound);
      case Some(i) =>
        r := Success(rows[i]);
        PairwiseRemove(rows, i, NewsletterIdsIncrease);
        rows := rows[..i] + rows[i + 1..];
    }
  }

  class UserTable {
    var rows: seq<User>
    var nextId: UserId

    /** The unique index on `clerkUserId`. */
    ghost predicate Valid()
      reads this
    {
      Pairwise(rows, ClerkIdsDiffer)
    }

    constructor ()
      ensures Valid() && rows == []
    {
      rows := [];
      nextId := 0;
    }

    /** `user.create({ data: { clerkUserId } })`; a second row for the same id violates the index. */
    method Create(clerkUserId: string, now: Time) returns (r: Result<User>)
      requires Valid()
      modifies this
      ensures Valid()
      ensures ClerkIndex(old(rows), clerkUserId).Some? ==>
        r == Failure(UniqueConstraintViolation) && rows == old(rows) && nextId == old(nextId)
      ensures ClerkIndex(old(rows), clerkUserId).None? ==>
        var u := User(old(nextId), clerkUserId, now, now);
        r == Success(u) && rows == old(rows) + [u] && nextId == old(nextId) + 1
    {
      if ClerkIndex(rows, clerkUserId).Some? {
        r := Failure(UniqueConstraintViolation);
      } else {
        var u := User(nextId, clerkUserId, now, now);
        rows := rows + [u];
        nextId := nextId + 1;
        r := Success(u);
      }
    }

    /** `user.update({ where: { clerkUserId }, data: { updatedAt: now } })`. */
    method Touch(clerkUserId: string, now: Time) returns (r: Result<User>)
      requires Valid()
      modifies this
      ensures Valid() && nextId == old(nextId)
      ensures ClerkIndex(old(rows), clerkUserId).None? ==> r == Failure(RecordNotFound) && rows == old(rows)
      ensures ClerkIndex(old(rows), clerkUserId).Some? ==>
        var i := ClerkIndex(old(rows), clerkUserId).value;
        r == Success(old(rows)[i].(updatedAt := now)) && rows == old(rows)[i := old(rows)[i].(updatedAt := now)]
    {
      match ClerkIndex(rows, clerkUserId)
      case None =>
        r := Failure(RecordNotFound);
      case Some(i) =>
        r := Success(rows[i].(updatedAt := now));
        rows := rows[i := rows[i].(updatedAt := now)];
    }
  }
}
