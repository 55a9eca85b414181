/**
 * The `users` collection as the routes see it through pymongo: a sequence of
 * documents in natural order, `find_one` returning the first match and
 * `update_one` changing only the first match.
 */
module Store {
  import opened Options
  import ObjectIds

  /** A date field as stored: a native timestamp or a string. */
  datatype DateValue = Instant(ticks: int) | DateText(text: string)

  /** A document's `_id`: normally an ObjectId; any other value is kept as its `str()` text. */
  datatype DocId = ObjectIdKey(oid: ObjectIds.ObjectId) | OtherKey(text: string)

  /** A user document; each optional field may be absent from the document. */
  datatype UserDoc = UserDoc(
    docId: DocId,
    legacyId: Option<int>,
    username: Option<string>,
    password: Option<string>,
    fullName: Option<string>,
    role: Option<string>,
    registerDate: Option<DateValue>,
    updatedAt: Option<DateValue>)

  /**
   * A connected database. When `failing` holds every query and update raises
   * (a pymongo operation error after the client was obtained).
   */
  datatype Db = Db(users: seq<UserDoc>, failing: bool)

  /** The two filters the core issues: `{'_id': oid}` and `{'id': n}` (`{'id': None}` matches a document lacking `id`). */
  datatype Query = ByObjectId(oid: ObjectIds.ObjectId) | ByLegacyId(id: Option<int>)

  const Int64Min := -0x8000_0000_0000_0000
  const Int64Max := 0x7FFF_FFFF_FFFF_FFFF

  /**
   * Whether pymongo can encode the filter: BSON integers are at most 64 bits
   * wide, and a larger Python int makes the call raise OverflowError before
   * anything is sent.
   */
  predicate Encodable(q: Query) {
    match q
    case ByObjectId(_) => true
    case ByLegacyId(n) => n.None? || InInt64(n.value)
  }

  /** Whether a Python int fits a BSON 64-bit integer. */
  predicate InInt64(n: int) {
    Int64Min <= n <= Int64Max
  }

  predicate Matches(d: UserDoc, q: Query) {
    match q
    case ByObjectId(o) => d.docId == ObjectIdKey(o)
    case ByLegacyId(n) => d.legacyId == n
  }

  /** The `$set` part of an update: every present field is overwritten, every absent one kept. */
  datatype SetDoc = SetDoc(
    legacyId: Option<int>,
    password: Option<string>,
    fullName: Option<string>,
    updatedAt: Option<DateValue>)

  function Apply(d: UserDoc, u: SetDoc): (r: UserDoc)
    ensures r.docId == d.docId && r.username == d.username && r.role == d.role
    ensures r.registerDate == d.registerDate
    ensures r.legacyId == (if u.legacyId.Some? then u.legacyId else d.legacyId)
    ensures r.password == (if u.password.Some? then u.password else d.password)
    ensures r.fullName == (if u.fullName.Some? then u.fullName else d.fullName)
    ensures r.updatedAt == (if u.updatedAt.Some? then u.updatedAt else d.updatedAt)
  {
    d.(legacyId := if u.legacyId.Some? then u.legacyId else d.legacyId,
       password := if u.password.Some? then u.password else d.password,
       fullName := if u.fullName.Some? then u.fullName else d.fullName,
       updatedAt := if u.updatedAt.Some? then u.updatedAt else d.updatedAt)
  }

  /** Position of the first document matching `q`, if any. */
  function FirstMatch(users: seq<UserDoc>, q: Query): (r: Option<nat>)
    ensures r.Some? ==> r.value < |users| && Matches(users[r.value], q)
    ensures r.Some? ==> forall j :: 0 <= j < r.value ==> !Matches(users[j], q)
    ensures r.None? ==> forall j :: 0 <= j < |users| ==> !Matches(users[j], q)
  {
    if users == [] then None
    else if Matches(users[0], q) then Some(0)
    else
      match FirstMatch(users[1..], q)
      case None => None
      case Some(i) => Some(i + 1)
  }

  /** The outcome of `find_one`: it raised, or it returned a document or `None`. */
  datatype Found = Raised | Found(doc: Option<UserDoc>) {
    /** The document a caller that swallows the exception ends up with. */
    function Answer(): Option<UserDoc> {
      if Found? then doc else None
    }
  }

  function FindOne(db: Db, q: Query): (r: Found)
    ensures r.Raised? <==> db.failing || !Encodable(q)
    ensures r.Found? && r.doc.Some? ==> r.doc.value in db.users && Matches(r.doc.value, q)
    ensures r.Found? && r.doc.None? ==> forall j :: 0 <= j < |db.users| ==> !Matches(db.users[j], q)
  {
    if db.failing || !Encodable(q) then Raised
    else
      match FirstMatch(db.users, q)
      case None => Found(None)
      case Some(i) => Found(Some(db.users[i]))
  }

  /** The outcome of `update_one`: it raised, or it reports `matched_count` and the collection after. */
  datatype Updated = UpdateRaised | Updated(matched: nat, users: seq<UserDoc>)

  function UpdateOne(db: Db, q: Query, u: SetDoc): (r: Updated)
    ensures r.UpdateRaised? <==> db.failing || !Encodable(q)
    ensures r.Updated? ==> |r.users| == |db.users| && r.matched <= 1
    ensures r.Updated? && r.matched == 0 ==> r.users == db.users
    ensures r.Updated? && r.matched == 0 ==> forall j :: 0 <= j < |db.users| ==> !Matches(db.users[j], q)
    ensures r.Updated? ==> (r.matched == 1 <==> FirstMatch(db.users, q).Some?)
    ensures r.Updated? && r.matched == 1 ==>
      var i := FirstMatch(db.users, q).value;
      r.users == db.users[i := Apply(db.users[i], u)]
  {
    if db.failing || !Encodable(q) then UpdateRaised
    else
      match FirstMatch(db.users, q)
      case None => Updated(0, db.users)
      case Some(i) => Updated(1, db.users[i := Apply(db.users[i], u)])
  }

  /** No two documents share an `_id` (MongoDB's unique index on `_id`). */
  predicate UniqueDocIds(users: seq<UserDoc>) {
    forall i, j :: 0 <= i < j < |users| ==> users[i].docId != users[j].docId
  }

  /** Two collections that differ at most in the stored passwords. */
  predicate SameExceptPasswords(a: seq<UserDoc>, b: seq<UserDoc>) {
    |a| == |b| && forall k :: 0 <= k < |a| ==> b[k] == a[k].(password := b[k].password)
  }

  /** No query the core issues looks at the password, so password changes move no match. */
  lemma {:induction false} FirstMatchIgnoresPassword(a: seq<UserDoc>, b: seq<UserDoc>, q: Query)
    requires SameExceptPasswords(a, b)
    ensures FirstMatch(a, q) == FirstMatch(b, q)
  {
    if a != [] {
      FirstMatchIgnoresPassword(a[1..], b[1..], q);
    }
  }

  /** `find_one` answers the same on collections differing only in passwords, up to the password returned. */
  lemma FindOneIgnoresPassword(a: seq<UserDoc>, b: seq<UserDoc>, failing: bool, q: Query)
    requires SameExceptPasswords(a, b)
    ensures var fa := FindOne(Db(a, failing), q);
      var fb := FindOne(Db(b, failing), q);
      && fa.Raised? == fb.Raised?
      && fa.Answer().Some? == fb.Answer().Some?
      && (fa.Answer().Some? ==> fb.Answer().value == fa.Answer().value.(password := fb.Answer().value.password))
  {
    FirstMatchIgnoresPassword(a, b, q);
  }

  /**
   * An update that leaves `id` alone (and `$set` never touches `_id`) keeps
   * the updated document the first match of the query that found it.
   */
  lemma FirstMatchAfterUpdate(users: seq<UserDoc>, q: Query, u: SetDoc)
    requires FirstMatch(users, q).Some? && u.legacyId.None?
    ensures var i := FirstMatch(users, q).value;
      FirstMatch(users[i := Apply(users[i], u)], q) == Some(i)
  {
    var i := FirstMatch(users, q).value;
    var after := users[i := Apply(users[i], u)];
    assert Matches(after[i], q);
    assert forall j :: 0 <= j < i ==> after[j] == users[j];
  }
}
