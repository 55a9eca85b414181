/**
 * utils/auth_utils.py: the page-level login guard and `get_user_data`, the
 * record the account page renders.
 */
module AuthUtils {
  import opened Options
  import ObjectIds
  import opened Store
  import Identity

  /** The parts of the Flask session the core reads. */
  datatype Session = Session(userId: Option<string>, username: Option<string>)

  predicate LoggedIn(s: Session) {
    s.userId.Some?
  }

  /** A redirect to an endpoint, with the flashed message if one was flashed. */
  datatype Redirect = Redirect(endpoint: string, flash: Option<string>)

  const LoginEndpoint := "login"
  const LoginPrompt := "Vui lòng đăng nhập để xem trang này"

  /** `login_required(redirect_url)`: `None` lets the page proceed. */
  function LoginRequired(session: Session, redirectUrl: string): (r: Option<Redirect>)
    ensures r.None? <==> LoggedIn(session)
    ensures r.Some? ==> r.value.endpoint == redirectUrl && r.value.flash.Some?
  {
    if LoggedIn(session) then None else Some(Redirect(redirectUrl, Some(LoginPrompt)))
  }

  /** `str(user.get('_id'))`. */
  function DocIdText(id: DocId): string {
    match id
    case ObjectIdKey(o) => ObjectIds.ObjectIdText(o)
    case OtherKey(t) => t
  }

  /**
   * The dictionary `get_user_data` returns: the record of a found user (no
   * password key), or the default record built from the session.
   */
  datatype UserData =
    | Profile(username: string, id: string, fullName: string, registerDate: DateValue, role: string)
    | Fallback(username: string, userId: string, registerDate: DateValue)

  /** The record of a found user, each missing field replaced by its default. */
  function Shape(u: UserDoc, now: DateValue): (r: UserData)
    ensures r.Profile?
    ensures u.username.Some? ==> r.username == u.username.value
    ensures u.username.None? ==> r.username == "User"
    ensures r.id == DocIdText(u.docId)
    ensures r.fullName == (if u.fullName.Some? then u.fullName.value else "")
    ensures r.registerDate == (if u.registerDate.Some? then u.registerDate.value else now)
    ensures r.role == (if u.role.Some? then u.role.value else "")
  {
    Profile(u.username.GetOr("User"), DocIdText(u.docId), u.fullName.GetOr(""),
            u.registerDate.GetOr(now), u.role.GetOr(""))
  }

  /**
   * `get_user_data(user_id)`. `conn` is what `get_db_connection` returned
   * (`None` for `(None, None)`) and `now` the clock reading; every failure is
   * absorbed into the default record.
   */
  function GetUserData(session: Session, userId: string, conn: Option<Db>, now: DateValue): (r: UserData)
    ensures r.Fallback? <==> Identity.ResolveParseFirst(conn, userId).user.None?
    ensures r.Fallback? ==> r == Fallback(session.username.GetOr("User"), userId, now)
    ensures r.Profile? ==> r == Shape(Identity.ResolveParseFirst(conn, userId).user.value, now)
  {
    match Identity.ResolveParseFirst(conn, userId).user
    case Some(u) => Shape(u, now)
    case None => Fallback(session.username.GetOr("User"), userId, now)
  }

  /** Without a database, or with one that raises, the default record comes back. */
  lemma GetUserDataUnavailable(session: Session, userId: string, conn: Option<Db>, now: DateValue)
    requires conn.None? || conn.value.failing
    ensures GetUserData(session, userId, conn, now) == Fallback(session.username.GetOr("User"), userId, now)
  {
    if conn.Some? {
      Identity.ResolveParseFirstFailingDb(conn.value, userId);
    }
  }

  /** The stored password never reaches the record: changing it changes nothing returned. */
  lemma GetUserDataHidesPassword(session: Session, userId: string, users: seq<UserDoc>, i: nat, pw: Option<string>, now: DateValue)
    requires i < |users|
    ensures var other := users[i := users[i].(password := pw)];
      GetUserData(session, userId, Some(Db(users, false)), now)
      == GetUserData(session, userId, Some(Db(other, false)), now)
  {
    var db1 := Db(users, false);
    var db2 := Db(users[i := users[i].(password := pw)], false);
    forall q: Query ensures SamePublic(FindOne(db1, q), FindOne(db2, q)) {
      FirstMatchIgnoresPassword(db1.users, db2.users, q);
    }
    Identity.ResolveParseFirstFollowsClassify(db1, userId);
    Identity.ResolveParseFirstFollowsClassify(db2, userId);
  }

  /** Two `find_one` answers that differ at most in the password of the document found. */
  predicate SamePublic(a: Found, b: Found) {
    && a.Raised? == b.Raised?
    && (a.Found? ==> a.doc.Some? == b.doc.Some?)
    && (a.Found? && a.doc.Some? ==> b.doc.value == a.doc.value.(password := b.doc.value.password))
  }
}
