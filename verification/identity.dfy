/**
 * User-identity resolution. A session `user_id` is text that may name a
 * user by its native `_id` (an ObjectId) or by the legacy integer `id`. The
 * source resolves it in two different ways:
 *  - `find_user_by_id` (routes/user_routes.py) requires an ObjectId text and
 *    tries the integer only after the `_id` lookup found nothing;
 *  - `get_user_data` (utils/auth_utils.py) and `update_profile` try the
 *    integer only when the ObjectId attempt raised.
 * Each resolution returns the user found and the queries it issued, in order.
 */
module Identity {
  import opened Options
  import Text
  import ObjectIds
  import opened Store

  /** The two generations of user identifier. */
  datatype Identifier = Native(oid: ObjectIds.ObjectId) | Legacy(n: int)

  function QueryFor(id: Identifier): Query {
    match id
    case Native(o) => ByObjectId(o)
    case Legacy(n) => ByLegacyId(Some(n))
  }

  /** Native form first, then the integer form: the reading used when the `_id` attempt raises on a bad text. */
  function Classify(s: string): (r: Option<Identifier>)
    ensures r.Some? && r.value.Native? <==> ObjectIds.IsObjectIdText(s)
    ensures r.Some? && r.value.Legacy? <==> !ObjectIds.IsObjectIdText(s) && Text.ParseInt(s).Some?
    ensures r.Some? && r.value.Legacy? ==> Text.ParseInt(s) == Some(r.value.n)
  {
    match ObjectIds.ParseObjectId(s)
    case Some(o) => Some(Native(o))
    case None =>
      match Text.ParseInt(s)
      case Some(n) => Some(Legacy(n))
      case None => None
  }

  /** A resolution's answer and the queries it sent to the collection. */
  datatype Lookup = Lookup(user: Option<UserDoc>, queries: seq<Query>)

  /** `find_user_by_id(db, user_id)`; every exception, including InvalidId, yields `None`. */
  function FindUserById(db: Db, s: string): (r: Lookup)
    ensures !ObjectIds.IsObjectIdText(s) ==> r == Lookup(None, [])
    ensures r.user.Some? ==> r.user.value in db.users
    ensures r.user.Some? ==> exists q :: q in r.queries && Matches(r.user.value, q)
    ensures r.user.Some? ==>
      var q := r.queries[|r.queries| - 1];
      && Encodable(q)
      && FirstMatch(db.users, q).Some?
      && r.user.value == db.users[FirstMatch(db.users, q).value]
    ensures db.failing ==> r.user.None?
    ensures |r.queries| <= 2
    ensures |r.queries| == 2 ==>
      && !db.failing
      && Text.AllDigits(s)
      && r.queries[1] == ByLegacyId(Text.ParseInt(s))
      && forall j :: 0 <= j < |db.users| ==> !Matches(db.users[j], r.queries[0])
  {
    match ObjectIds.ParseObjectId(s)
    case None => Lookup(None, [])
    case Some(o) =>
      var byOid := ByObjectId(o);
      match FindOne(db, byOid)
      case Raised => Lookup(None, [byOid])
      case Found(Some(u)) => Lookup(Some(u), [byOid])
      case Found(None) =>
        match Text.ParseInt(s)
        case None => Lookup(None, [byOid])
        case Some(n) =>
          ObjectIds.ObjectIdTextAsInt(s);
          var byInt := ByLegacyId(Some(n));
          match FindOne(db, byInt)
          case Raised => Lookup(None, [byOid, byInt])
          case Found(d) => Lookup(d, [byOid, byInt])
  }

  /** In `find_user_by_id` an `_id` match wins: the first such document is returned and no integer lookup follows. */
  lemma FindUserByIdObjectIdWins(db: Db, s: string, i: nat)
    requires !db.failing && ObjectIds.IsObjectIdText(s)
    requires i < |db.users| && Matches(db.users[i], ByObjectId(ObjectIds.ParseObjectId(s).value))
    ensures FindUserById(db, s).queries == [ByObjectId(ObjectIds.ParseObjectId(s).value)]
    ensures FindUserById(db, s).user.Some?
    ensures Matches(FindUserById(db, s).user.value, ByObjectId(ObjectIds.ParseObjectId(s).value))
  {
  }

  /**
   * `find_user_by_id` in full on a working database: the `_id` lookup's
   * document if there is one; otherwise, for an all-digit text, the first
   * document whose `id` is that integer; otherwise nothing.
   */
  lemma FindUserByIdAnswer(db: Db, s: string)
    requires !db.failing && ObjectIds.IsObjectIdText(s)
    ensures var byOid := ByObjectId(ObjectIds.ParseObjectId(s).value);
      var byInt := ByLegacyId(Text.ParseInt(s));
      FindUserById(db, s) ==
        if FindOne(db, byOid).Answer().Some? then Lookup(FindOne(db, byOid).Answer(), [byOid])
        else if Text.AllDigits(s) then Lookup(FindOne(db, byInt).Answer(), [byOid, byInt])
        else Lookup(None, [byOid])
  {
    ObjectIds.ObjectIdTextAsInt(s);
  }

  /**
   * `get_user_data`'s lookup. `conn` is `None` when no database was obtained;
   * then `db.users` raises before any query. A raise in the `_id` attempt (a
   * bad text, or a database error) sends the text down the integer path; a
   * raise there leaves the user `None`.
   */
  function ResolveParseFirst(conn: Option<Db>, s: string): (r: Lookup)
    ensures r.user.Some? ==> conn.Some? && !conn.value.failing && r.user.value in conn.value.users
    ensures r.user.Some? ==> exists q :: q in r.queries && Matches(r.user.value, q)
    ensures conn.None? ==> r == Lookup(None, [])
  {
    var first: Found :=
      match (conn, ObjectIds.ParseObjectId(s))
      case (Some(db), Some(o)) => FindOne(db, ByObjectId(o))
      case _ => Raised;
    var sent: seq<Query> :=
      match (conn, ObjectIds.ParseObjectId(s))
      case (Some(db), Some(o)) => [ByObjectId(o)]
      case _ => [];
    match first
    case Found(d) => Lookup(d, sent)
    case Raised =>
      match (conn, Text.ParseInt(s))
      case (Some(db), Some(n)) =>
        (match FindOne(db, ByLegacyId(Some(n)))
         case Raised => Lookup(None, sent + [ByLegacyId(Some(n))])
         case Found(d) => Lookup(d, sent + [ByLegacyId(Some(n))]))
      case _ => Lookup(None, sent)
  }

  /**
   * Against a working database `get_user_data`'s lookup issues exactly the one
   * query its classification names (none for an unclassifiable text) and
   * returns that query's first match: a valid ObjectId text is never retried
   * as an integer, even when it matches nothing.
   */
  lemma ResolveParseFirstFollowsClassify(db: Db, s: string)
    requires !db.failing
    ensures Classify(s).None? ==> ResolveParseFirst(Some(db), s) == Lookup(None, [])
    ensures Classify(s).Some? ==>
      var q := QueryFor(Classify(s).value);
      ResolveParseFirst(Some(db), s) == Lookup(FindOne(db, q).Answer(), [q])
  {
  }

  /**
   * A legacy identifier beyond 64 bits cannot be sent to the collection: the
   * lookup raises, so `get_user_data`'s resolution finds nobody, whatever the
   * collection holds.
   */
  lemma WideLegacyIdFindsNobody(db: Db, s: string)
    requires Classify(s).Some? && Classify(s).value.Legacy?
    requires !(Int64Min <= Classify(s).value.n <= Int64Max)
    ensures ResolveParseFirst(Some(db), s) == Lookup(None, [ByLegacyId(Some(Classify(s).value.n))])
  {
  }

  /** A database that raises on every query makes `get_user_data`'s lookup return `None`. */
  lemma ResolveParseFirstFailingDb(db: Db, s: string)
    requires db.failing
    ensures ResolveParseFirst(Some(db), s).user.None?
  {
  }

  /**
   * The two procedures disagree on a digits-only text that is not 24
   * characters long: `find_user_by_id` issues no query, while
   * `get_user_data` looks the integer up.
   */
  lemma ShortNumericTextDiverges(db: Db, s: string)
    requires !db.failing && 0 < |s| <= Text.MaxStrDigits && |s| != ObjectIds.ObjectIdLength && Text.AllDigits(s)
    ensures FindUserById(db, s) == Lookup(None, [])
    ensures Classify(s) == Some(Legacy(Text.DigitsValue(s)))
    ensures ResolveParseFirst(Some(db), s).queries == [ByLegacyId(Some(Text.DigitsValue(s)))]
  {
    assert !ObjectIds.IsObjectIdText(s);
    assert Text.ParseInt(s) == Some(Text.DigitsValue(s)) by {
      Text.DigitsParse(s);
    }
    ResolveParseFirstFollowsClassify(db, s);
  }

  /**
   * And on a 24-digit text that matches no `_id`: `find_user_by_id` goes on to
   * the integer lookup, `get_user_data` does not.
   */
  lemma MissedNumericObjectIdDiverges(db: Db, s: string)
    requires !db.failing && ObjectIds.IsObjectIdText(s) && Text.AllDigits(s)
    requires FindOne(db, ByObjectId(ObjectIds.ParseObjectId(s).value)) == Found(None)
    ensures |FindUserById(db, s).queries| == 2
    ensures |ResolveParseFirst(Some(db), s).queries| == 1
    ensures ResolveParseFirst(Some(db), s).user.None?
  {
    ObjectIds.ObjectIdTextAsInt(s);
  }

  /** `find_user_by_id` never looks at passwords: collections differing only there give the same user up to the password. */
  lemma FindUserByIdIgnoresPassword(a: seq<UserDoc>, b: seq<UserDoc>, failing: bool, s: string)
    requires SameExceptPasswords(a, b)
    ensures var ra := FindUserById(Db(a, failing), s);
      var rb := FindUserById(Db(b, failing), s);
      && ra.queries == rb.queries
      && ra.user.Some? == rb.user.Some?
      && (ra.user.Some? ==> rb.user.value == ra.user.value.(password := rb.user.value.password))
  {
    match ObjectIds.ParseObjectId(s)
    case None =>
    case Some(o) =>
      FindOneIgnoresPassword(a, b, failing, ByObjectId(o));
      match Text.ParseInt(s)
      case None =>
      case Some(n) =>
        FindOneIgnoresPassword(a, b, failing, ByLegacyId(Some(n)));
  }
}
