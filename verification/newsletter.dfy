/** Newsletter actions: save a generated newsletter, list, count, read and delete a user's newsletters. */
module Newsletters {
  import opened Common
  import opened Schema
  import opened Seqs
  import opened Sorting
  import opened Store

  // ================================================================ createNewsletter

  /** `createNewsletter`: stores the data as given; the store adds a fresh id and `createdAt`. */
  method CreateNewsletter(table: NewsletterTable, data: NewsletterData, now: Time) returns (n: Newsletter)
    requires table.Valid()
    modifies table
    ensures table.Valid()
    ensures n.data == data && n.createdAt == now
    ensures NewsletterIndex(old(table.rows), n.id).None?
    ensures table.rows == old(table.rows) + [n]
  {
    n := table.Create(data, now);
    assert forall i :: 0 <= i < |old(table.rows)| ==> old(table.rows)[i].id != n.id;
  }

  // ================================================================ getNewslettersByUserId

  predicate OwnedByUser(userId: UserId, n: Newsletter) { n.data.userId == userId }

  function CreatedAt(n: Newsletter): int { n.createdAt }

  function Min(a: nat, b: nat): nat { if a <= b then a else b }

  /** All of the user's newsletters, most recently created first. */
  function UserNewsletters(rows: seq<Newsletter>, userId: UserId): seq<Newsletter> {
    SortDesc(Filter(rows, n => OwnedByUser(userId, n)), CreatedAt)
  }

  /** The listing holds exactly the user's newsletters. */
  lemma UserNewslettersMembers(rows: seq<Newsletter>, userId: UserId)
    ensures forall x :: x in UserNewsletters(rows, userId) <==> x in rows && x.data.userId == userId
  {
    var mine := Filter(rows, n => OwnedByUser(userId, n));
    SortDescMembers(mine, CreatedAt);
    forall x ensures x in mine <==> x in rows && x.data.userId == userId {
      if x in mine {
        var i :| 0 <= i < |mine| && mine[i] == x;
      }
      if x in rows && x.data.userId == userId {
        var i :| 0 <= i < |rows| && rows[i] == x;
      }
    }
  }

  /**
   * `getNewslettersByUserId`: one page of the user's newsletters, newest first. A missing
   * `skip` starts at the beginning; a missing `limit` runs to the end.
   */
  function GetNewslettersByUserId(rows: seq<Newsletter>, userId: UserId, limit: Option<nat>, skip: Option<nat>): (r: seq<Newsletter>)
    ensures limit.Some? ==> |r| <= limit.value
    ensures forall i :: 0 <= i < |r| ==> r[i] in rows && r[i].data.userId == userId
    ensures SortedDesc(r, CreatedAt)
  {
    var all := UserNewsletters(rows, userId);
    UserNewslettersMembers(rows, userId);
    var from := if skip.Some? then Min(skip.value, |all|) else 0;
    var n := if limit.Some? then Min(limit.value, |all| - from) else |all| - from;
    SortedDescWindow(all, CreatedAt, from, n);
    all[from..from + n]
  }

  /** A page is the stretch of the full listing that starts at `skip`. */
  lemma PageIsWindow(rows: seq<Newsletter>, userId: UserId, limit: Option<nat>, skip: nat)
    ensures var all := UserNewsletters(rows, userId);
      var r := GetNewslettersByUserId(rows, userId, limit, Some(skip));
      && |r| == (if skip >= |all| then 0 else if limit.Some? then Min(limit.value, |all| - skip) else |all| - skip)
      && forall i :: 0 <= i < |r| ==> r[i] == all[skip + i]
  {
    var all := UserNewsletters(rows, userId);
    var to := if limit.Some? then Min(skip + limit.value, |all|) else |all|;
    PageSlice(rows, userId, limit, skip, Min(skip, |all|), to);
    WindowAt(all, GetNewslettersByUserId(rows, userId, limit, Some(skip)), Min(skip, |all|), to);
  }

  /** Two consecutive pages put together are the listing from the first page's start. */
  lemma ConsecutivePages(rows: seq<Newsletter>, userId: UserId, size: nat, skip: nat)
    ensures GetNewslettersByUserId(rows, userId, Some(size), Some(skip))
          + GetNewslettersByUserId(rows, userId, None, Some(skip + size))
         == GetNewslettersByUserId(rows, userId, None, Some(skip))
  {
    var all := UserNewsletters(rows, userId);
    var a, b := Min(skip, |all|), Min(skip + size, |all|);
    PageSlice(rows, userId, Some(size), skip, a, b);
    PageSlice(rows, userId, None, skip + size, b, |all|);
    PageSlice(rows, userId, None, skip, a, |all|);
    AdjacentSlices(all, a, b, |all|);
  }

  /** The page at `skip` as a slice of the full listing between `from` and `to`. */
  lemma PageSlice(rows: seq<Newsletter>, userId: UserId, limit: Option<nat>, skip: nat, from: nat, to: nat)
    requires from == Min(skip, |UserNewsletters(rows, userId)|)
    requires to == if limit.Some? then Min(skip + limit.value, |UserNewsletters(rows, userId)|) else |UserNewsletters(rows, userId)|
    ensures from <= to <= |UserNewsletters(rows, userId)|
    ensures GetNewslettersByUserId(rows, userId, limit, Some(skip)) == UserNewsletters(rows, userId)[from..to]
  {
  }

  // ================================================================ getNewslettersCountByUserId

  /** `getNewslettersCountByUserId`: how many newsletters the user has. */
  function GetNewslettersCountByUserId(rows: seq<Newsletter>, userId: UserId): (r: nat)
    ensures r <= |rows|
    ensures r == 0 <==> forall i :: 0 <= i < |rows| ==> rows[i].data.userId != userId
  {
    var mine := Filter(rows, n => OwnedByUser(userId, n));
    assert |mine| > 0 ==> exists i :: 0 <= i < |rows| && rows[i] == mine[0];
    |mine|
  }

  /** The count is the length of the unpaginated listing, and bounds the number of pages worth fetching. */
  lemma CountMatchesListing(rows: seq<Newsletter>, userId: UserId, limit: Option<nat>, skip: nat)
    ensures GetNewslettersCountByUserId(rows, userId) == |GetNewslettersByUserId(rows, userId, None, None)|
    ensures skip >= GetNewslettersCountByUserId(rows, userId) ==> GetNewslettersByUserId(rows, userId, limit, Some(skip)) == []
  {
    PageIsWindow(rows, userId, limit, skip);
  }

  // ================================================================ getNewslettersById

  /**
   * `getNewslettersById`: no newsletter with the id is not an error (`null`); one that belongs
   * to someone else is.
   */
  function GetNewslettersById(rows: seq<Newsletter>, id: NewsletterId, userId: UserId): (r: Result<Option<Newsletter>>)
    ensures r == Success(None) <==> forall i :: 0 <= i < |rows| ==> rows[i].id != id
    ensures r.Success? && r.value.Some? ==> r.value.value in rows && r.value.value.id == id && r.value.value.data.userId == userId
    ensures r.Failure? ==> r.error == Unauthorized
  {
    match NewsletterIndex(rows, id)
    case None => Success(None)
    case Some(i) =>
      if rows[i].data.userId != userId then Failure(Unauthorized) else Success(Some(rows[i]))
  }

  /** With ids unique, each newsletter is readable by its owner and by nobody else. */
  lemma ReadOnlyByOwner(rows: seq<Newsletter>, k: nat, userId: UserId)
    requires Pairwise(rows, NewsletterIdsIncrease) && k < |rows|
    ensures GetNewslettersById(rows, rows[k].id, userId) ==
      if rows[k].data.userId == userId then Success(Some(rows[k])) else Failure(Unauthorized)
  {
    forall j | 0 <= j < k ensures rows[j].id != rows[k].id {
      assert NewsletterIdsIncrease(rows[j], rows[k]);
    }
    IndexWhereAt(rows, n => HasNewsletterId(rows[k].id, n), k);
  }

  // ================================================================ deleteNewsletter

  function WithoutNewsletter(rows: seq<Newsletter>, id: NewsletterId): seq<Newsletter> {
    match NewsletterIndex(rows, id)
    case None => rows
    case Some(i) => rows[..i] + rows[i + 1..]
  }

  /** The outcome of `deleteNewsletter` as written: it checks only that the newsletter exists. */
  function DeleteOutcome(rows: seq<Newsletter>, id: NewsletterId, userId: UserId): (r: Result<Newsletter>)
    ensures r.Success? ==> r.value in rows && r.value.id == id
    ensures r.Failure? ==> r.error == Unauthorized && forall i :: 0 <= i < |rows| ==> rows[i].id != id
  {
    match NewsletterIndex(rows, id)
    case None => Failure(Unauthorized)
    case Some(i) => Success(rows[i])
  }

  /**
   * `deleteNewsletter` as written: a missing newsletter is reported as `Unauthorized`; an
   * existing one is deleted whoever asks. `userId` is not consulted.
   */
  method DeleteNewsletter(table: NewsletterTable, id: NewsletterId, userId: UserId) returns (r: Result<Newsletter>)
    requires table.Valid()
    modifies table
    ensures table.Valid()
    ensures r == DeleteOutcome(old(table.rows), id, userId)
    ensures table.rows == WithoutNewsletter(old(table.rows), id)
  {
    if NewsletterIndex(table.rows, id).None? {
      return Failure(Unauthorized);
    }
    r := table.Delete(id);
  }

  /** As written, anyone can delete another user's newsletter: here user 2 deletes user 1's. */
  lemma DeleteIgnoresOwner(data: NewsletterData)
    requires data.userId == 1
    ensures DeleteOutcome([Newsletter(0, 0, data)], 0, 2) == Success(Newsletter(0, 0, data))
  {
  }

  /** The outcome the comments promise: the newsletter must exist and belong to the caller. */
  function OwnerDeleteOutcome(rows: seq<Newsletter>, id: NewsletterId, userId: UserId): Result<Newsletter> {
    match NewsletterIndex(rows, id)
    case None => Failure(Unauthorized)
    case Some(i) => if rows[i].data.userId != userId then Failure(Unauthorized) else Success(rows[i])
  }

  /** `deleteNewsletter` with the ownership check its comments describe. */
  method DeleteOwnNewsletter(table: NewsletterTable, id: NewsletterId, userId: UserId) returns (r: Result<Newsletter>)
    requires table.Valid()
    modifies table
    ensures table.Valid()
    ensures r == OwnerDeleteOutcome(old(table.rows), id, userId)
    ensures table.rows == if r.Success? then WithoutNewsletter(old(table.rows), id) else old(table.rows)
  {
    match NewsletterIndex(table.rows, id)
    case None =>
      return Failure(Unauthorized);
    case Some(i) =>
      if table.rows[i].data.userId != userId {
        return Failure(Unauthorized);
      }
      r := table.Delete(id);
  }

  /** With the check, a deletion succeeds exactly for the owner, and removes just that newsletter. */
  lemma OwnerDeleteOnlyByOwner(rows: seq<Newsletter>, k: nat, userId: UserId)
    requires Pairwise(rows, NewsletterIdsIncrease) && k < |rows|
    ensures OwnerDeleteOutcome(rows, rows[k].id, userId).Success? <==> rows[k].data.userId == userId
    ensures OwnerDeleteOutcome(rows, rows[k].id, userId).Success? ==>
      WithoutNewsletter(rows, rows[k].id) == rows[..k] + rows[k + 1..]
  {
    forall j | 0 <= j < k ensures rows[j].id != rows[k].id {
      assert NewsletterIdsIncrease(rows[j], rows[k]);
    }
    IndexWhereAt(rows, n => HasNewsletterId(rows[k].id, n), k);
  }

  /** Deleting removes that one newsletter and keeps the others, in order. */
  lemma DeleteRemovesOnlyThat(rows: seq<Newsletter>, k: nat)
    requires Pairwise(rows, NewsletterIdsIncrease) && k < |rows|
    ensures var after := WithoutNewsletter(rows, rows[k].id);
      && |after| == |rows| - 1
      && (forall i :: 0 <= i < |after| ==> after[i].id != rows[k].id)
      && (forall i :: 0 <= i < |rows| && i != k ==> rows[i] in after)
  {
    forall j | 0 <= j < k ensures rows[j].id != rows[k].id {
      assert NewsletterIdsIncrease(rows[j], rows[k]);
    }
    IndexWhereAt(rows, n => HasNewsletterId(rows[k].id, n), k);
    var after := WithoutNewsletter(rows, rows[k].id);
    forall i | 0 <= i < |after| ensures after[i].id != rows[k].id {
      if i < k {
        assert after[i] == rows[i];
        assert NewsletterIdsIncrease(rows[i], rows[k]);
      } else {
        assert after[i] == rows[i + 1];
        assert NewsletterIdsIncrease(rows[k], rows[i + 1]);
      }
    }
    forall i | 0 <= i < |rows| && i != k ensures rows[i] in after {
      if i < k {
        assert after[i] == rows[i];
      } else {
        assert after[i - 1] == rows[i];
      }
    }
  }
}
