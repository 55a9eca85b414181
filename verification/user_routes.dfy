/**
 * routes/user_routes.py: the JSON account API (profile data, profile update,
 * password change), its `login_required_api` guard, and the blueprint's
 * favorite handlers. `conn` is what `get_db()` returned (`None` for
 * `(None, None)`), `now` is `datetime.utcnow()`, and the password-hash check
 * and the favorite model are parameters.
 */
module UserRoutes {
  import opened Options
  import Text
  import ObjectIds
  import opened Store
  import opened Responses
  import opened AuthUtils
  import Identity
  import Pagination
  import FavoriteFilm

  /** `login_required_api`: the wrapped handler runs only for a session carrying `user_id`. */
  function LoginRequiredApi<R>(session: Session, denied: R, handler: string -> R): (r: R)
    ensures !LoggedIn(session) ==> r == denied
    ensures LoggedIn(session) ==> r == handler(session.userId.value)
  {
    if !LoggedIn(session) then denied else handler(session.userId.value)
  }

  const Unauthorized := Response(401, ErrorBody(AuthRequired))

  /** Whatever the wrapped handler is, an anonymous request gets the denial. */
  lemma LoginRequiredApiNeverCallsHandler<R>(session: Session, denied: R, h1: string -> R, h2: string -> R)
    requires !LoggedIn(session)
    ensures LoginRequiredApi(session, denied, h1) == denied
    ensures LoginRequiredApi(session, denied, h1) == LoginRequiredApi(session, denied, h2)
  {
  }

  /** The API guard and the page guard admit exactly the same sessions. */
  lemma GuardsAgree<R>(session: Session, url: string, denied: R, h: string -> R)
    ensures LoginRequired(session, url).None? <==> LoggedIn(session)
    ensures LoginRequired(session, url).None? ==> LoginRequiredApi(session, denied, h) == h(session.userId.value)
    ensures LoginRequired(session, url).Some? ==> LoginRequiredApi(session, denied, h) == denied
  {
  }

  // ----- request bodies -----

  /** A JSON field as `data.get(key, '')` sees it. */
  datatype Field = Absent | JsonText(text: string) | NonText

  /** `data.get(key, '').strip()`; `None` when the value is not a string and `.strip` raises. */
  function FieldText(f: Field): (r: Option<string>)
    ensures f.Absent? ==> r == Some("")
    ensures f.JsonText? ==> r == Some(Text.Strip(f.text))
    ensures f.NonText? ==> r.None?
  {
    match f
    case Absent => Some("")
    case JsonText(t) => Some(Text.Strip(t))
    case NonText => None
  }

  datatype ProfileForm = ProfileForm(fullName: Field)
  datatype PasswordForm = PasswordForm(currentPassword: Field, newPassword: Field)

  /** A handler's response and the database after it ran. */
  datatype Handled = Handled(response: Response, conn: Option<Db>)

  // ----- profile_data -----

  /** The `registerDate` sent: a falsy (empty text) date is kept, any other is formatted. */
  function RegisterDateJson(d: Option<DateValue>, formatDate: DateValue -> string): Option<DateValue> {
    match d
    case None => None
    case Some(v) => if v == DateText("") then Some(v) else Some(DateText(formatDate(v)))
  }

  /** The user document with `_id` as text and the password removed. */
  function PublicProfile(u: UserDoc, formatDate: DateValue -> string): (r: ProfileJson)
    ensures r.id == DocIdText(u.docId)
    ensures r.legacyId == u.legacyId && r.username == u.username && r.fullName == u.fullName
    ensures r.role == u.role && r.updatedAt == u.updatedAt
    ensures r.registerDate.Some? <==> u.registerDate.Some?
  {
    ProfileJson(DocIdText(u.docId), u.legacyId, u.username, u.fullName, u.role,
                RegisterDateJson(u.registerDate, formatDate), u.updatedAt)
  }

  function ProfileDataBody(session: Session, userId: string, conn: Option<Db>, formatDate: DateValue -> string): Response {
    match conn
    case None => Response(500, DbErrorBody(session.username.GetOr("User"), DbConnectionFailed))
    case Some(db) =>
      match Identity.FindUserById(db, userId).user
      case None => Response(404, ErrorBody(UserNotFound))
      case Some(u) => Json(ProfileBody(PublicProfile(u, formatDate)))
  }

  /** `profile_data`: the user `find_user_by_id` finds, without the password. */
  function ProfileData(session: Session, conn: Option<Db>, formatDate: DateValue -> string): (r: Response)
    ensures !LoggedIn(session) ==> r == Unauthorized
    ensures LoggedIn(session) && conn.None? ==>
      r == Response(500, DbErrorBody(session.username.GetOr("User"), DbConnectionFailed))
    ensures LoggedIn(session) && conn.Some? ==>
      var found := Identity.FindUserById(conn.value, session.userId.value).user;
      && (found.None? ==> r == Response(404, ErrorBody(UserNotFound)))
      && (found.Some? ==> r == Json(ProfileBody(PublicProfile(found.value, formatDate))))
  {
    LoginRequiredApi(session, Unauthorized, uid => ProfileDataBody(session, uid, conn, formatDate))
  }

  /** The password never reaches `profile_data`'s answer: changing a stored password changes nothing sent. */
  lemma ProfileDataHidesPassword(session: Session, users: seq<UserDoc>, i: nat, pw: Option<string>, formatDate: DateValue -> string)
    requires i < |users|
    ensures var other := users[i := users[i].(password := pw)];
      ProfileData(session, Some(Db(users, false)), formatDate)
      == ProfileData(session, Some(Db(other, false)), formatDate)
  {
    var other := users[i := users[i].(password := pw)];
    if LoggedIn(session) {
      Identity.FindUserByIdIgnoresPassword(users, other, false, session.userId.value);
    }
  }

  // ----- update_profile -----

  /** The `$set` document of `update_profile`: `updatedAt` always, `fullName` only when non-empty after stripping. */
  function ProfileUpdate(fullName: string, now: DateValue): (r: SetDoc)
    ensures r.updatedAt == Some(now)
    ensures r.fullName.Some? <==> fullName != ""
    ensures r.fullName.Some? ==> r.fullName.value == fullName
    ensures r.legacyId.None? && r.password.None?
  {
    SetDoc(None, None, if fullName != "" then Some(fullName) else None, Some(now))
  }

  /**
   * `update_one` against `{'_id': ObjectId(user_id)}`, or, when that raised,
   * against `{'id': int(user_id)}`; `UpdateRaised` when the second attempt raised too.
   */
  function UpdateParseFirst(db: Db, userId: string, u: SetDoc): (r: Updated)
    ensures db.failing || Identity.Classify(userId).None? ==> r.UpdateRaised?
    ensures !db.failing && Identity.Classify(userId).Some? ==>
      r == UpdateOne(db, Identity.QueryFor(Identity.Classify(userId).value), u)
  {
    var first :=
      match ObjectIds.ParseObjectId(userId)
      case Some(o) => UpdateOne(db, ByObjectId(o), u)
      case None => UpdateRaised;
    match first
    case Updated(_, _) => first
    case UpdateRaised =>
      match Text.ParseInt(userId)
      case Some(n) => UpdateOne(db, ByLegacyId(Some(n)), u)
      case None => UpdateRaised
  }

  /** The name `update_profile` will store: the stripped text, or nothing when that is empty. */
  function NewFullName(form: ProfileForm): Option<string>
    requires !form.fullName.NonText?
  {
    var t := FieldText(form.fullName).value;
    if t == "" then None else Some(t)
  }

  /**
   * `update_profile`. On success exactly one document changed: its
   * `updatedAt` is `now`, its `fullName` is the stripped new name when that is
   * non-empty (else unchanged), and every other field and document is as it was.
   * Any other outcome leaves the database as it was.
   */
  function UpdateProfileBody(userId: string, conn: Option<Db>, form: Option<ProfileForm>, now: DateValue): (r: Handled)
    ensures r.response.status != Ok ==> r.conn == conn
    ensures conn.None? ==> r == Handled(Response(500, ErrorBody(DbConnectionFailed)), conn)
    ensures conn.Some? && (form.None? || form.value.fullName.NonText?) ==>
      r == Handled(Response(500, MessageBody(ExceptionText)), conn)
    ensures conn.Some? && conn.value.failing && form.Some? && !form.value.fullName.NonText? ==>
      r == Handled(Response(404, MessageBody(UserNotFound)), conn)
    ensures r.response.status == Ok ==>
      && conn.Some? && !conn.value.failing && form.Some? && !form.value.fullName.NonText?
      && Identity.Classify(userId).Some?
      && Encodable(Identity.QueryFor(Identity.Classify(userId).value))
      && var before := conn.value.users;
         var target := FirstMatch(before, Identity.QueryFor(Identity.Classify(userId).value));
         && target.Some?
         && var i := target.value;
            r.conn == Some(conn.value.(users := before[i := before[i].(
              updatedAt := Some(now),
              fullName := if NewFullName(form.value).Some? then NewFullName(form.value) else before[i].fullName)]))
    ensures conn.Some? && !conn.value.failing && form.Some? && !form.value.fullName.NonText? ==>
      var id := Identity.Classify(userId);
      (id.None? || !Encodable(Identity.QueryFor(id.value)) || FirstMatch(conn.value.users, Identity.QueryFor(id.value)).None?)
      <==> r == Handled(Response(404, MessageBody(UserNotFound)), conn)
  {
    match conn
    case None => Handled(Response(500, ErrorBody(DbConnectionFailed)), conn)
    case Some(db) =>
      match form
      case None => Handled(Response(500, MessageBody(ExceptionText)), conn)
      case Some(f) =>
        match FieldText(f.fullName)
        case None => Handled(Response(500, MessageBody(ExceptionText)), conn)
        case Some(fullName) =>
          match UpdateParseFirst(db, userId, ProfileUpdate(fullName, now))
          case UpdateRaised => Handled(Response(404, MessageBody(UserNotFound)), conn)
          case Updated(matched, users) =>
            if matched == 0 then Handled(Response(404, MessageBody(UserNotFound)), conn)
            else
              ProfileUpdateApplied(f, fullName, now);
              Handled(Json(MessageBody(ProfileUpdated)), Some(db.(users := users)))
  }

  lemma ProfileUpdateApplied(f: ProfileForm, fullName: string, now: DateValue)
    requires FieldText(f.fullName) == Some(fullName)
    ensures forall d: UserDoc :: (Apply(d, ProfileUpdate(fullName, now))
      == d.(updatedAt := Some(now), fullName := if NewFullName(f).Some? then NewFullName(f) else d.fullName))
  {
  }

  /** `update_profile`, `login_required_api` applied. */
  function UpdateProfile(session: Session, conn: Option<Db>, form: Option<ProfileForm>, now: DateValue): Handled
  {
    LoginRequiredApi(session, Handled(Unauthorized, conn), uid => UpdateProfileBody(uid, conn, form, now))
  }

  /**
   * Against a working database `update_profile` changes exactly the first
   * document the classified user id names, and answers 404 without any change
   * when there is none. A valid ObjectId text that matches nothing is not
   * retried as an integer, and a text that is neither kind, or an integer
   * beyond 64 bits, is 404 at once.
   */
  lemma UpdateProfileTarget(session: Session, db: Db, f: ProfileForm, now: DateValue)
    requires LoggedIn(session) && !db.failing && !f.fullName.NonText?
    ensures var r := UpdateProfile(session, Some(db), Some(f), now);
      var id := Identity.Classify(session.userId.value);
      var target := if id.Some? && Encodable(Identity.QueryFor(id.value))
                    then FirstMatch(db.users, Identity.QueryFor(id.value)) else None;
      && (target.None? ==> r == Handled(Response(404, MessageBody(UserNotFound)), Some(db)))
      && (target.Some? ==>
            var i := target.value;
            r == Handled(Json(MessageBody(ProfileUpdated)),
                         Some(db.(users := db.users[i := Apply(db.users[i], ProfileUpdate(FieldText(f.fullName).value, now))]))))
  {
    var uid := session.userId.value;
    assert UpdateProfile(session, Some(db), Some(f), now) == UpdateProfileBody(uid, Some(db), Some(f), now);
  }

  /**
   * After a successful `update_profile`, the account page (`get_user_data`)
   * shows the document it showed before, with the `$set` applied.
   */
  lemma UpdatedProfileIsShown(session: Session, db: Db, f: ProfileForm, now: DateValue)
    requires LoggedIn(session) && !db.failing && !f.fullName.NonText?
    requires Identity.Classify(session.userId.value).Some?
    requires Encodable(Identity.QueryFor(Identity.Classify(session.userId.value).value))
    requires FirstMatch(db.users, Identity.QueryFor(Identity.Classify(session.userId.value).value)).Some?
    ensures var uid := session.userId.value;
      var before := Identity.ResolveParseFirst(Some(db), uid).user;
      var after := Identity.ResolveParseFirst(UpdateProfile(session, Some(db), Some(f), now).conn, uid).user;
      && before.Some?
      && after == Some(Apply(before.value, ProfileUpdate(FieldText(f.fullName).value, now)))
  {
    var uid := session.userId.value;
    var q := Identity.QueryFor(Identity.Classify(uid).value);
    var u := ProfileUpdate(FieldText(f.fullName).value, now);
    var i := FirstMatch(db.users, q).value;
    var db2 := db.(users := db.users[i := Apply(db.users[i], u)]);
    UpdateProfileTarget(session, db, f, now);
    assert UpdateProfile(session, Some(db), Some(f), now).conn == Some(db2);
    FirstMatchAfterUpdate(db.users, q, u);
    Identity.ResolveParseFirstFollowsClassify(db, uid);
    Identity.ResolveParseFirstFollowsClassify(db2, uid);
  }

  // ----- change_password -----

  /**
   * Whether `current` is accepted for the stored value: equal as plain text,
   * or else passing `check_password_hash`, which is consulted only when the
   * texts differ. `hashCheck` answers `None` when the check raises (a stored
   * value shaped like a hash with an unknown method does).
   */
  function PasswordCheck(stored: string, current: string, hashCheck: (string, string) -> Option<bool>): (r: Option<bool>)
    ensures current == stored ==> r == Some(true)
    ensures current != stored ==> r == hashCheck(stored, current)
  {
    if current == stored then Some(true) else hashCheck(stored, current)
  }

  /** The filter of the password update: `_id` when it is an ObjectId, otherwise the legacy `id`. */
  function PasswordQuery(u: UserDoc): (q: Query)
    ensures Matches(u, q)
  {
    match u.docId
    case ObjectIdKey(o) => ByObjectId(o)
    case OtherKey(_) => ByLegacyId(u.legacyId)
  }

  function PasswordUpdate(newPassword: string, now: DateValue): SetDoc {
    SetDoc(None, Some(newPassword), None, Some(now))
  }

  /** Both password fields of a form, stripped, when both are strings (or absent). */
  predicate TextFields(f: PasswordForm) {
    !f.currentPassword.NonText? && !f.newPassword.NonText?
  }

  /**
   * `change_password`. Empty input is refused with 400 before the user is
   * looked up; a user `find_user_by_id` cannot find gets 404; success needs
   * the current password to match, and then stores the stripped new password
   * verbatim with `updatedAt`, changing nothing else.
   */
  function ChangePasswordBody(userId: string, conn: Option<Db>, form: Option<PasswordForm>,
                              hashCheck: (string, string) -> Option<bool>, now: DateValue): (r: Handled)
    ensures r.response.status != Ok ==> r.conn == conn
    ensures conn.None? ==> r == Handled(Response(500, ErrorBody(DbConnectionFailed)), conn)
    ensures conn.Some? && (form.None? || !TextFields(form.value)) ==>
      r == Handled(Response(500, MessageBody(ExceptionText)), conn)
    ensures conn.Some? && form.Some? && TextFields(form.value)
            && (FieldText(form.value.currentPassword).value == "" || FieldText(form.value.newPassword).value == "")
            ==> r == Handled(Response(400, MessageBody(PasswordEmpty)), conn)
    ensures conn.Some? && form.Some? && TextFields(form.value)
            && FieldText(form.value.currentPassword).value != "" && FieldText(form.value.newPassword).value != ""
            && Identity.FindUserById(conn.value, userId).user.None?
            ==> r == Handled(Response(404, MessageBody(UserDoesNotExist)), conn)
    ensures r.response.status == Ok ==>
      && conn.Some? && form.Some? && TextFields(form.value)
      && var db := conn.value;
         var u := Identity.FindUserById(db, userId).user;
         var newPassword := FieldText(form.value.newPassword).value;
         && newPassword != ""
         && u.Some?
         && PasswordCheck(u.value.password.GetOr(""), FieldText(form.value.currentPassword).value, hashCheck) == Some(true)
         && r.conn.Some?
         && exists i :: 0 <= i < |db.users| && Matches(db.users[i], PasswordQuery(u.value)) &&
              r.conn.value.users == db.users[i := db.users[i].(password := Some(newPassword), updatedAt := Some(now))]
  {
    match conn
    case None => Handled(Response(500, ErrorBody(DbConnectionFailed)), conn)
    case Some(db) =>
      match form
      case None => Handled(Response(500, MessageBody(ExceptionText)), conn)
      case Some(f) =>
        match (FieldText(f.currentPassword), FieldText(f.newPassword))
        case (Some(current), Some(newPassword)) =>
          if current == "" || newPassword == "" then Handled(Response(400, MessageBody(PasswordEmpty)), conn)
          else
            (match Identity.FindUserById(db, userId).user
             case None => Handled(Response(404, MessageBody(UserDoesNotExist)), conn)
             case Some(u) =>
               match PasswordCheck(u.password.GetOr(""), current, hashCheck)
               case None => Handled(Response(500, MessageBody(ExceptionText)), conn)
               case Some(false) => Handled(Response(400, MessageBody(CurrentPasswordWrong)), conn)
               case Some(true) =>
                 match UpdateOne(db, PasswordQuery(u), PasswordUpdate(newPassword, now))
                 case UpdateRaised => Handled(Response(500, MessageBody(ExceptionText)), conn)
                 case Updated(matched, users) =>
                   if matched > 0 then Handled(Json(MessageBody(PasswordUpdated)), Some(db.(users := users)))
                   else Handled(Response(500, MessageBody(PasswordUpdateFailed)), conn))
        case _ => Handled(Response(500, MessageBody(ExceptionText)), conn)
  }

  /** `change_password`, `login_required_api` applied. */
  function ChangePassword(session: Session, conn: Option<Db>, form: Option<PasswordForm>,
                          hashCheck: (string, string) -> Option<bool>, now: DateValue): Handled
  {
    LoginRequiredApi(session, Handled(Unauthorized, conn), uid => ChangePasswordBody(uid, conn, form, hashCheck, now))
  }

  /**
   * For a user `find_user_by_id` finds, with non-empty passwords, the change
   * succeeds exactly when the current password matches in either stored form,
   * fails with 400 exactly when it definitely does not, and with 500 exactly
   * when the hash check raised.
   */
  lemma ChangePasswordAcceptsEitherForm(session: Session, db: Db, f: PasswordForm,
                                        hashCheck: (string, string) -> Option<bool>, now: DateValue)
    requires LoggedIn(session) && TextFields(f)
    requires FieldText(f.currentPassword).value != "" && FieldText(f.newPassword).value != ""
    requires Identity.FindUserById(db, session.userId.value).user.Some?
    ensures var u := Identity.FindUserById(db, session.userId.value).user.value;
      var r := ChangePassword(session, Some(db), Some(f), hashCheck, now);
      var check := PasswordCheck(u.password.GetOr(""), FieldText(f.currentPassword).value, hashCheck);
      && (r.response.status == Ok <==> check == Some(true))
      && (r.response.status == 400 <==> check == Some(false))
      && (r == Handled(Response(500, MessageBody(ExceptionText)), Some(db)) <==> check.None?)
  {
    var uid := session.userId.value;
    var r := ChangePassword(session, Some(db), Some(f), hashCheck, now);
    assert r == ChangePasswordBody(uid, Some(db), Some(f), hashCheck, now);
    var u := Identity.FindUserById(db, uid).user.value;
    var check := PasswordCheck(u.password.GetOr(""), FieldText(f.currentPassword).value, hashCheck);
    ChangePasswordBodyByCheck(uid, db, f, hashCheck, now);
    match check
    case Some(true) =>
      assert r.response.status == Ok;
    case Some(false) =>
      assert r == Handled(Response(400, MessageBody(CurrentPasswordWrong)), Some(db));
    case None =>
      assert r == Handled(Response(500, MessageBody(ExceptionText)), Some(db));
  }

  /** `change_password`'s answer for a found user, by the outcome of the password check. */
  lemma ChangePasswordBodyByCheck(uid: string, db: Db, f: PasswordForm,
                                  hashCheck: (string, string) -> Option<bool>, now: DateValue)
    requires TextFields(f)
    requires FieldText(f.currentPassword).value != "" && FieldText(f.newPassword).value != ""
    requires Identity.FindUserById(db, uid).user.Some?
    ensures var u := Identity.FindUserById(db, uid).user.value;
      var r := ChangePasswordBody(uid, Some(db), Some(f), hashCheck, now);
      var check := PasswordCheck(u.password.GetOr(""), FieldText(f.currentPassword).value, hashCheck);
      && (check == Some(true) ==> r.response.status == Ok)
      && (check == Some(false) ==> r == Handled(Response(400, MessageBody(CurrentPasswordWrong)), Some(db)))
      && (check.None? ==> r == Handled(Response(500, MessageBody(ExceptionText)), Some(db)))
  {
    var u := Identity.FindUserById(db, uid).user.value;
    var q := PasswordQuery(u);
    assert !db.failing && Encodable(q) && FirstMatch(db.users, q).Some? by {
      if u.docId.OtherKey? {
        SameFirstMatch(db, uid);
      } else {
        var k :| 0 <= k < |db.users| && db.users[k] == u;
        assert Matches(db.users[k], q);
      }
    }
  }

  /**
   * With `_id` unique, a matching current password and a new one that is not
   * empty, the change succeeds and rewrites exactly the document
   * `find_user_by_id` found.
   */
  lemma ChangePasswordUpdatesFoundUser(session: Session, db: Db, f: PasswordForm,
                                       hashCheck: (string, string) -> Option<bool>, now: DateValue, i: nat)
    requires LoggedIn(session) && UniqueDocIds(db.users) && TextFields(f)
    requires FieldText(f.currentPassword).value != "" && FieldText(f.newPassword).value != ""
    requires i < |db.users| && Identity.FindUserById(db, session.userId.value).user == Some(db.users[i])
    requires PasswordCheck(db.users[i].password.GetOr(""), FieldText(f.currentPassword).value, hashCheck) == Some(true)
    ensures var r := ChangePassword(session, Some(db), Some(f), hashCheck, now);
      && r.response.status == Ok
      && r.conn == Some(db.(users := db.users[i := db.users[i].(password := Some(FieldText(f.newPassword).value),
                                                                updatedAt := Some(now))]))
  {
    var uid := session.userId.value;
    assert ChangePassword(session, Some(db), Some(f), hashCheck, now)
        == ChangePasswordBody(uid, Some(db), Some(f), hashCheck, now);
    FoundUserIsFirstMatch(db, uid, i);
    ChangePasswordBodySucceeds(uid, db, f, hashCheck, now, i);
  }

  lemma ChangePasswordBodySucceeds(uid: string, db: Db, f: PasswordForm,
                                   hashCheck: (string, string) -> Option<bool>, now: DateValue, i: nat)
    requires TextFields(f)
    requires FieldText(f.currentPassword).value != "" && FieldText(f.newPassword).value != ""
    requires i < |db.users| && Identity.FindUserById(db, uid).user == Some(db.users[i])
    requires PasswordCheck(db.users[i].password.GetOr(""), FieldText(f.currentPassword).value, hashCheck) == Some(true)
    requires Encodable(PasswordQuery(db.users[i])) && FirstMatch(db.users, PasswordQuery(db.users[i])) == Some(i)
    ensures var r := ChangePasswordBody(uid, Some(db), Some(f), hashCheck, now);
      && r.response.status == Ok
      && r.conn == Some(db.(users := db.users[i := db.users[i].(password := Some(FieldText(f.newPassword).value),
                                                                updatedAt := Some(now))]))
  {
    var u := db.users[i];
    var update := PasswordUpdate(FieldText(f.newPassword).value, now);
    assert !db.failing;
    var updated := UpdateOne(db, PasswordQuery(u), update);
    assert updated == Updated(1, db.users[i := Apply(u, update)]);
  }

  /** With `_id` unique, the password update's filter fits 64 bits and first matches the very document found. */
  lemma FoundUserIsFirstMatch(db: Db, uid: string, i: nat)
    requires UniqueDocIds(db.users)
    requires i < |db.users| && Identity.FindUserById(db, uid).user == Some(db.users[i])
    ensures Encodable(PasswordQuery(db.users[i]))
    ensures FirstMatch(db.users, PasswordQuery(db.users[i])) == Some(i)
  {
    var u := db.users[i];
    var q := PasswordQuery(u);
    if u.docId.OtherKey? {
      SameFirstMatch(db, uid);
      assert db.users[FirstMatch(db.users, q).value] == u;
    } else {
      assert Matches(db.users[i], q);
      assert db.users[FirstMatch(db.users, q).value].docId == u.docId;
    }
  }

  /** A document without an ObjectId `_id` was found by the integer lookup, which is its own password filter. */
  lemma SameFirstMatch(db: Db, uid: string)
    requires Identity.FindUserById(db, uid).user.Some?
    requires Identity.FindUserById(db, uid).user.value.docId.OtherKey?
    ensures var lookup := Identity.FindUserById(db, uid);
      PasswordQuery(lookup.user.value) == lookup.queries[|lookup.queries| - 1]
  {
    var lookup := Identity.FindUserById(db, uid);
    var last := lookup.queries[|lookup.queries| - 1];
    assert Matches(lookup.user.value, last);
  }

  // ----- favorite handlers of the blueprint -----

  /**
   * `view_favorites` (blueprint version): guarded by `login_required`, which
   * redirects an anonymous visitor to the login page with a flashed prompt.
   */
  function ViewFavorites(session: Session, favoritesOf: string -> seq<FilmEntry>, pageArg: Option<string>)
    : (r: FavoriteFilm.FavoritesView)
    ensures !LoggedIn(session) <==> r == FavoriteFilm.ToLogin(Redirect(LoginEndpoint, Some(LoginPrompt)))
    ensures LoggedIn(session) ==> r == FavoriteFilm.Rendered(Pagination.ShowFavorites(favoritesOf(session.userId.value), pageArg))
  {
    match LoginRequired(session, LoginEndpoint)
    case Some(redirect) => FavoriteFilm.ToLogin(redirect)
    case None => FavoriteFilm.Rendered(Pagination.ShowFavorites(favoritesOf(session.userId.value), pageArg))
  }

  /**
   * The two `view_favorites` handlers render the same page for a logged-in
   * user and both send an anonymous visitor to the login page; they differ
   * only in the blueprint's flashed prompt.
   */
  lemma FavoritesPagesDifferOnlyInFlash(session: Session, favoritesOf: string -> seq<FilmEntry>, pageArg: Option<string>)
    ensures LoggedIn(session) ==>
      ViewFavorites(session, favoritesOf, pageArg) == FavoriteFilm.ViewFavorites(session, favoritesOf, pageArg)
    ensures !LoggedIn(session) ==>
      var mine := ViewFavorites(session, favoritesOf, pageArg);
      var other := FavoriteFilm.ViewFavorites(session, favoritesOf, pageArg);
      && mine.ToLogin? && other.ToLogin?
      && mine.redirect.endpoint == other.redirect.endpoint == LoginEndpoint
      && mine.redirect.flash == Some(LoginPrompt) && other.redirect.flash.None?
  {
  }

  /** `get_favorites`, `check_favorite` and `toggle_favorite` of the blueprint answer 401 to an anonymous visitor. */
  function GetFavorites(session: Session, favoritesOf: string -> seq<FilmEntry>): (r: Response)
    ensures !LoggedIn(session) ==> r == Unauthorized
    ensures LoggedIn(session) ==> r == Json(FilmList(favoritesOf(session.userId.value)))
  {
    LoginRequiredApi(session, Unauthorized, uid => Json(FilmList(favoritesOf(uid))))
  }

  function CheckFavorite(session: Session, isFavorite: (string, string) -> bool, filmId: string): (r: Response)
    ensures !LoggedIn(session) ==> r == Unauthorized
    ensures LoggedIn(session) ==> r == Json(FavoriteFlag(isFavorite(session.userId.value, filmId)))
  {
    LoginRequiredApi(session, Unauthorized, uid => Json(FavoriteFlag(isFavorite(uid, filmId))))
  }

  function ToggleFavorite(session: Session, toggle: (string, string) -> (ModelReply, int), filmId: string): (r: Response)
    ensures !LoggedIn(session) ==> r == Unauthorized
    ensures LoggedIn(session) ==> r == Response(toggle(session.userId.value, filmId).1, Reply(toggle(session.userId.value, filmId).0))
  {
    LoginRequiredApi(session, Unauthorized, uid => Response(toggle(uid, filmId).1, Reply(toggle(uid, filmId).0)))
  }
}
