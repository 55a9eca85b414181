/**
 * What the route handlers hand back to Flask: a status code and a JSON body
 * (`jsonify(...)`), a rendered template, or a redirect.
 */
module Responses {
  import opened Options
  import Store

  /** The fixed user-facing messages; each stands for the text the handler sends. */
  datatype Message =
    | AuthRequired          // 401 of `login_required_api`
    | AuthenticationRequired // 401 of the favorite-toggle handlers
    | DbConnectionFailed
    | UserNotFound           // profile lookup / update found nobody
    | ProfileUpdated
    | PasswordEmpty
    | UserDoesNotExist       // password change found nobody
    | CurrentPasswordWrong
    | PasswordUpdated
    | PasswordUpdateFailed
    | ExceptionText          // `str(e)` of a caught exception

  /** One entry of `Favorite.get_user_favorite_films`: a missing film, or its fields. */
  datatype FilmEntry = NoFilm | Film(fields: map<string, string>)

  /** The JSON-serialisable result `Favorite.toggle_favorite` returns, passed on untouched. */
  datatype ModelReply = ModelReply(json: string)

  /** A user document as `profile_data` sends it: `_id` as text and no `password` key. */
  datatype ProfileJson = ProfileJson(
    id: string,
    legacyId: Option<int>,
    username: Option<string>,
    fullName: Option<string>,
    role: Option<string>,
    registerDate: Option<Store.DateValue>,
    updatedAt: Option<Store.DateValue>)

  datatype Body =
    | ErrorBody(error: Message)                    // {"error": ...}
    | MessageBody(message: Message)                // {"message": ...}
    | DbErrorBody(username: string, error: Message) // {"username": ..., "error": ...}
    | ProfileBody(profile: ProfileJson)
    | FavoriteFlag(isFavorite: bool)               // {"isFavorite": ...}
    | FilmList(films: seq<FilmEntry>)
    | Reply(reply: ModelReply)

  datatype Response = Response(status: int, body: Body)

  /** Flask's default status. */
  const Ok := 200

  function Json(body: Body): Response {
    Response(Ok, body)
  }
}
