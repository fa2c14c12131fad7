/** User actions: look a user up by the authentication provider's id, and create-or-touch on sign-in. */
module Users {
  import opened Common
  import opened Schema
  import opened Seqs
  import opened Store

  /** `getUserByClerkId`: the user with that provider id, or none. */
  function GetUserByClerkId(rows: seq<User>, clerkUserId: string): (r: Option<User>)
    ensures r.Some? ==> r.value in rows && r.value.clerkUserId == clerkUserId
    ensures r.None? <==> forall i :: 0 <= i < |rows| ==> rows[i].clerkUserId != clerkUserId
  {
    match ClerkIndex(rows, clerkUserId)
    case None => None
    case Some(i) => Some(rows[i])
  }

  /**
   * The table and the returned user after `upsertUserFromClerk`: an existing user gets
   * `updatedAt` set to now; otherwise a user is created with both timestamps now.
   */
  function UpsertUser(rows: seq<User>, nextId: UserId, clerkUserId: string, now: Time): (r: (seq<User>, User))
    ensures r.1 in r.0 && r.1.clerkUserId == clerkUserId && r.1.updatedAt == now
    ensures |r.0| == if ClerkIndex(rows, clerkUserId).Some? then |rows| else |rows| + 1
  {
    match ClerkIndex(rows, clerkUserId)
    case Some(i) =>
      var u := rows[i].(updatedAt := now);
      assert rows[i := u][i] == u;
      (rows[i := u], u)
    case None =>
      var u := User(nextId, clerkUserId, now, now);
      (rows + [u], u)
  }

  /** `upsertUserFromClerk`: find by provider id, then update the timestamp or create. */
  method UpsertUserFromClerk(users: UserTable, clerkUserId: string, now: Time) returns (u: User)
    requires users.Valid()
    modifies users
    ensures users.Valid()
    ensures (users.rows, u) == UpsertUser(old(users.rows), old(users.nextId), clerkUserId, now)
    ensures users.nextId == if GetUserByClerkId(old(users.rows), clerkUserId).Some? then old(users.nextId) else old(users.nextId) + 1
  {
    if GetUserByClerkId(users.rows, clerkUserId).Some? {
      var touched := users.Touch(clerkUserId, now);
      u := touched.value;
    } else {
      var created := users.Create(clerkUserId, now);
      u := created.value;
    }
  }

  /** The upsert keeps provider ids unique and afterwards finds the returned user under that id. */
  lemma UpsertFindsUser(rows: seq<User>, nextId: UserId, clerkUserId: string, now: Time)
    requires Pairwise(rows, ClerkIdsDiffer)
    ensures var (after, u) := UpsertUser(rows, nextId, clerkUserId, now);
      && Pairwise(after, ClerkIdsDiffer)
      && u.clerkUserId == clerkUserId && u.updatedAt == now
      && GetUserByClerkId(after, clerkUserId) == Some(u)
  {
    var (after, u) := UpsertUser(rows, nextId, clerkUserId, now);
    match ClerkIndex(rows, clerkUserId)
    case Some(i) =>
      assert forall j :: 0 <= j < |after| ==> after[j].clerkUserId == rows[j].clerkUserId;
      IndexWhereAgrees(rows, after, x => HasClerkId(clerkUserId, x));
      assert forall a, b :: 0 <= a < b < |after| ==> ClerkIdsDiffer(rows[a], rows[b]);
    case None =>
      IndexWhereAppend(rows, u, x => HasClerkId(clerkUserId, x));
      assert forall j :: 0 <= j < |rows| ==> after[j] == rows[j];
  }

  /** Nobody else is touched: every other provider id finds what it found before. */
  lemma UpsertKeepsOthers(rows: seq<User>, nextId: UserId, clerkUserId: string, now: Time, other: string)
    requires other != clerkUserId
    ensures GetUserByClerkId(UpsertUser(rows, nextId, clerkUserId, now).0, other) == GetUserByClerkId(rows, other)
  {
    var (after, u) := UpsertUser(rows, nextId, clerkUserId, now);
    match ClerkIndex(rows, clerkUserId)
    case Some(i) =>
      assert forall j :: 0 <= j < |after| ==> HasClerkId(other, after[j]) == HasClerkId(other, rows[j]);
      IndexWhereAgrees(rows, after, x => HasClerkId(other, x));
    case None =>
      IndexWhereAppend(rows, u, x => HasClerkId(other, x));
      if ClerkIndex(rows, other).Some? {
        assert after[ClerkIndex(rows, other).value] == rows[ClerkIndex(rows, other).value];
      }
  }

  /**
   * Signing in again adds no user: the second upsert keeps the id and `createdAt` of the first
   * and only moves `updatedAt`.
   */
  lemma UpsertTwice(rows: seq<User>, nextId: UserId, clerkUserId: string, t1: Time, t2: Time)
    requires Pairwise(rows, ClerkIdsDiffer)
    ensures var (once, u1) := UpsertUser(rows, nextId, clerkUserId, t1);
      var (twice, u2) := UpsertUser(once, nextId + 1, clerkUserId, t2);
      && |twice| == |once|
      && u2 == u1.(updatedAt := t2)
  {
    UpsertFindsUser(rows, nextId, clerkUserId, t1);
  }

  /** Whatever the order of sign-ins, each provider id has exactly one user. */
  lemma UpsertOneUserPerId(rows: seq<User>, nextId: UserId, clerkUserId: string, now: Time)
    requires Pairwise(rows, ClerkIdsDiffer)
    ensures var after := UpsertUser(rows, nextId, clerkUserId, now).0;
      |Filter(after, x => HasClerkId(clerkUserId, x))| == 1
  {
    UpsertFindsUser(rows, nextId, clerkUserId, now);
    var after := UpsertUser(rows, nextId, clerkUserId, now).0;
    OnlyOneWithId(after, clerkUserId);
  }

  /** With unique provider ids, at most one row carries a given id, and a found one is it. */
  lemma {:induction false} OnlyOneWithId(rows: seq<User>, clerkUserId: string)
    requires Pairwise(rows, ClerkIdsDiffer)
    ensures |Filter(rows, x => HasClerkId(clerkUserId, x))| == if GetUserByClerkId(rows, clerkUserId).Some? then 1 else 0
  {
    if |rows| > 0 {
      var rest := rows[1..];
      assert Pairwise(rest, ClerkIdsDiffer) by {
        forall a, b | 0 <= a < b < |rest| ensures ClerkIdsDiffer(rest[a], rest[b]) {
          assert ClerkIdsDiffer(rows[a + 1], rows[b + 1]);
        }
      }
      OnlyOneWithId(rest, clerkUserId);
      if rows[0].clerkUserId == clerkUserId {
        assert forall j :: 0 <= j < |rest| ==> rest[j].clerkUserId != clerkUserId by {
          forall j | 0 <= j < |rest| ensures rest[j].clerkUserId != clerkUserId {
            assert ClerkIdsDiffer(rows[0], rows[j + 1]);
          }
        }
      }
    }
  }
}
