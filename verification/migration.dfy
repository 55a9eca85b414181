/**
 * utils/db.py `migrate_users_without_id`: every user document lacking the
 * legacy integer `id` gets the next integer after the highest one present
 * (or 1), in the collection's natural order.
 */
module Migration {
  import opened Options
  import opened Store

  predicate HasId(d: UserDoc) {
    d.legacyId.Some?
  }

  /** The `id` of `find_one(sort=[("id", -1)])`: the largest `id` present, if any. */
  function HighestId(users: seq<UserDoc>): (r: Option<int>)
    ensures r.None? <==> forall k :: 0 <= k < |users| ==> !HasId(users[k])
    ensures r.Some? ==> exists k :: 0 <= k < |users| && users[k].legacyId == r
    ensures r.Some? ==> forall k :: 0 <= k < |users| && HasId(users[k]) ==> users[k].legacyId.value <= r.value
  {
    if users == [] then None
    else
      var rest := HighestId(users[1..]);
      assert forall k :: 1 <= k < |users| ==> users[k] == users[1..][k - 1];
      match users[0].legacyId
      case None => rest
      case Some(n) =>
        if rest.Some? && rest.value > n then rest else Some(n)
  }

  /** `highest_user.get("id", 0) + 1`. */
  function FirstNewId(users: seq<UserDoc>): (r: int)
    ensures forall k :: 0 <= k < |users| && HasId(users[k]) ==> users[k].legacyId.value < r
  {
    HighestId(users).GetOr(0) + 1
  }

  /** How many documents lack an `id`. */
  function CountMissing(users: seq<UserDoc>): (r: nat)
    ensures r <= |users|
  {
    if users == [] then 0 else (if HasId(users[0]) then 0 else 1) + CountMissing(users[1..])
  }

  /**
   * The loop over `users_without_id`: the id-less documents get `next`,
   * `next + 1`, ... in order, until an id does not fit 64 bits; that
   * `update_one` raises, and it and every later document stay as they were.
   * Also whether the loop ran to the end.
   */
  function AssignFrom(users: seq<UserDoc>, next: int): (r: (bool, seq<UserDoc>))
    ensures |r.1| == |users|
    ensures r.0 <==> CountMissing(users) == 0 || (InInt64(next) && InInt64(next + CountMissing(users) - 1))
    ensures forall k :: 0 <= k < |users| && HasId(users[k]) ==> r.1[k] == users[k]
    ensures forall k :: 0 <= k < |users| && !HasId(users[k]) && Int64Min <= next && next + CountMissing(users[..k]) <= Int64Max ==>
      r.1[k] == users[k].(legacyId := Some(next + CountMissing(users[..k])))
    ensures forall k :: 0 <= k < |users| && !HasId(users[k]) && !(Int64Min <= next && next + CountMissing(users[..k]) <= Int64Max) ==>
      r.1[k] == users[k]
  {
    if users == [] then (true, [])
    else if !HasId(users[0]) && !InInt64(next) then
      AssignStops(users, next);
      (false, users)
    else
      var head := if HasId(users[0]) then users[0] else users[0].(legacyId := Some(next));
      var tail := AssignFrom(users[1..], if HasId(users[0]) then next else next + 1);
      CountMissingTail(users);
      (tail.0, [head] + tail.1)
  }

  /** Counting id-less documents before position `k` is counting the first one, then those before `k - 1` in the rest. */
  lemma CountMissingTail(users: seq<UserDoc>)
    requires users != []
    ensures forall k :: 1 <= k < |users| ==>
      CountMissing(users[..k]) == (if HasId(users[0]) then 0 else 1) + CountMissing(users[1..][..k - 1])
  {
    forall k | 1 <= k < |users|
      ensures CountMissing(users[..k]) == (if HasId(users[0]) then 0 else 1) + CountMissing(users[1..][..k - 1])
    {
      assert users[..k][1..] == users[1..][..k - 1];
    }
  }

  /** Once the first id does not fit, no later one does either. */
  lemma AssignStops(users: seq<UserDoc>, next: int)
    requires users != [] && !HasId(users[0]) && !InInt64(next)
    ensures forall k :: 0 <= k < |users| && !HasId(users[k]) ==>
      !(Int64Min <= next && next + CountMissing(users[..k]) <= Int64Max)
  {
    forall k | 0 <= k < |users| && !HasId(users[k]) && Int64Min <= next
      ensures next + CountMissing(users[..k]) > Int64Max
    {
    }
  }

  /** The `id` the loop gives the document at `k` if it lacks one: one more per id-less document before it. */
  function NewId(users: seq<UserDoc>, k: nat): int
    requires k <= |users|
  {
    FirstNewId(users) + CountMissing(users[..k])
  }

  /**
   * `after` is `before` with some id-less documents numbered: an `id` already
   * there is kept, and a document that gained one got `NewId`, within 64 bits.
   */
  predicate Renumbered(before: seq<UserDoc>, after: seq<UserDoc>) {
    && |after| == |before|
    && (forall k :: 0 <= k < |before| && HasId(before[k]) ==> after[k] == before[k])
    && (forall k :: 0 <= k < |before| && !HasId(before[k]) && HasId(after[k]) ==>
          after[k] == before[k].(legacyId := Some(NewId(before, k))) && InInt64(NewId(before, k)))
  }

  /**
   * `migrate_users_without_id(db)`: whether it returned True, and the
   * documents afterwards. A failing database returns False before any update;
   * an id beyond 64 bits returns False after the updates before it. When it
   * returns True every document has an `id`.
   */
  function Migrate(db: Db): (r: (bool, seq<UserDoc>))
    ensures r.0 <==>
      && !db.failing
      && (CountMissing(db.users) == 0 ||
          (InInt64(FirstNewId(db.users)) && InInt64(FirstNewId(db.users) + CountMissing(db.users) - 1)))
    ensures db.failing ==> r.1 == db.users
    ensures Renumbered(db.users, r.1)
    ensures r.0 ==> forall k :: 0 <= k < |r.1| ==> HasId(r.1[k])
  {
    if db.failing then (false, db.users) else NumberMissing(db.users)
  }

  /** The loop of `migrate_users_without_id` started from the id after the highest one. */
  function NumberMissing(users: seq<UserDoc>): (r: (bool, seq<UserDoc>))
    ensures r.0 <==>
      CountMissing(users) == 0 || (InInt64(FirstNewId(users)) && InInt64(FirstNewId(users) + CountMissing(users) - 1))
    ensures Renumbered(users, r.1)
    ensures r.0 ==> forall k :: 0 <= k < |r.1| ==> HasId(r.1[k])
  {
    if CountMissing(users) == 0 then
      NoneMissingIffAllHaveIds(users);
      (true, users)
    else
      var next := FirstNewId(users);
      AllNumberedWhenDone(users, next);
      AssignRenumbers(users);
      AssignFrom(users, next)
  }

  /** The loop from the first new id numbers documents as `Renumbered` describes. */
  lemma AssignRenumbers(users: seq<UserDoc>)
    ensures Renumbered(users, AssignFrom(users, FirstNewId(users)).1)
  {
    var r := AssignFrom(users, FirstNewId(users));
    forall k | 0 <= k < |users| && !HasId(users[k]) && HasId(r.1[k])
      ensures r.1[k] == users[k].(legacyId := Some(NewId(users, k))) && InInt64(NewId(users, k))
    {
    }
  }

  /** A loop that ran to the end numbered every document that lacked an `id`. */
  lemma AllNumberedWhenDone(users: seq<UserDoc>, next: int)
    ensures AssignFrom(users, next).0 ==> forall k :: 0 <= k < |users| ==> HasId(AssignFrom(users, next).1[k])
  {
    var r := AssignFrom(users, next);
    if r.0 {
      forall k | 0 <= k < |users| ensures HasId(r.1[k]) {
        if !HasId(users[k]) {
          CountMissingGrows(users, k, |users|);
          assert users[..|users|] == users;
        }
      }
    }
  }

  /** No document is counted as missing exactly when every document has an `id`. */
  lemma {:induction false} NoneMissingIffAllHaveIds(users: seq<UserDoc>)
    ensures CountMissing(users) == 0 <==> forall k :: 0 <= k < |users| ==> HasId(users[k])
  {
    if users != [] {
      NoneMissingIffAllHaveIds(users[1..]);
      assert forall k :: 1 <= k < |users| ==> users[k] == users[1..][k - 1];
    }
  }

  lemma {:induction false} CountMissingPrefixStep(users: seq<UserDoc>, k: nat)
    requires k < |users|
    ensures CountMissing(users[..k + 1]) == CountMissing(users[..k]) + (if HasId(users[k]) then 0 else 1)
  {
    if k > 0 {
      assert users[..k + 1][1..] == users[1..][..k];
      assert users[..k][1..] == users[1..][..k - 1];
      CountMissingPrefixStep(users[1..], k - 1);
    } else {
      assert users[..1][1..] == [];
    }
  }

  /** Earlier id-less documents have strictly fewer id-less documents before them. */
  lemma CountMissingGrows(users: seq<UserDoc>, i: nat, j: nat)
    requires i < j <= |users| && !HasId(users[i])
    ensures CountMissing(users[..i]) < CountMissing(users[..j])
    decreases j - i
  {
    CountMissingPrefixStep(users, i);
    if i + 1 < j {
      CountMissingMonotone(users, i + 1, j);
    }
  }

  lemma CountMissingMonotone(users: seq<UserDoc>, i: nat, j: nat)
    requires i <= j <= |users|
    ensures CountMissing(users[..i]) <= CountMissing(users[..j])
    decreases j - i
  {
    if i < j {
      CountMissingPrefixStep(users, j - 1);
      CountMissingMonotone(users, i, j - 1);
    }
  }

  /** Whether the migration gave the document at `k` an `id` it lacked. */
  predicate NewlyNumbered(db: Db, k: nat)
    requires k < |db.users|
  {
    !HasId(db.users[k]) && HasId(Migrate(db).1[k])
  }

  /**
   * The new ids are the consecutive integers from the first new id, in
   * collection order; hence they are pairwise distinct and larger than every
   * id that was already there.
   */
  lemma MigrateFreshIds(db: Db, i: nat, j: nat)
    requires i < j < |db.users|
    ensures NewlyNumbered(db, i) ==> Migrate(db).1[i].legacyId == Some(NewId(db.users, i))
    ensures NewlyNumbered(db, i) && NewlyNumbered(db, j) ==>
      Migrate(db).1[i].legacyId.value < Migrate(db).1[j].legacyId.value
    ensures NewlyNumbered(db, i) && HasId(db.users[j]) ==>
      Migrate(db).1[i].legacyId.value > db.users[j].legacyId.value
    ensures HasId(db.users[i]) && NewlyNumbered(db, j) ==>
      Migrate(db).1[j].legacyId.value > db.users[i].legacyId.value
  {
    if NewlyNumbered(db, i) && NewlyNumbered(db, j) {
      CountMissingGrows(db.users, i, j);
    }
  }

  /**
   * The documents numbered are the first id-less ones: the loop stops at the
   * first id that does not fit, never skipping one to number a later one.
   */
  lemma MigrateNumbersAPrefix(db: Db, i: nat, j: nat)
    requires i < j < |db.users| && !HasId(db.users[i]) && NewlyNumbered(db, j)
    ensures NewlyNumbered(db, i)
  {
    CountMissingGrows(db.users, i, j);
  }

  /** After a run that returned True, a second run finds every user with an `id`, changes nothing and returns True. */
  lemma MigrateIdempotent(db: Db)
    requires Migrate(db).0
    ensures var once := Migrate(db).1;
      Migrate(Db(once, false)) == (true, once)
  {
    NoneMissingIffAllHaveIds(Migrate(db).1);
  }
}
