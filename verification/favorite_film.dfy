/**
 * routes/favorite_film.py: the favorites page and the favorite API endpoints
 * that answer an anonymous visitor instead of rejecting them. The favorite
 * model (`Favorite.get_user_favorite_films`, `is_favorite`,
 * `toggle_favorite`) is not part of this model and enters as function
 * parameters.
 */
module FavoriteFilm {
  import opened Options
  import opened Responses
  import opened AuthUtils
  import opened Pagination

  /** What a `view_favorites` handler answers: a redirect to the login page, or the rendered page. */
  datatype FavoritesView = ToLogin(redirect: Redirect) | Rendered(page: FavoritesPage)

  /** `view_favorites`: anonymous visitors are sent to the login page without a flashed message. */
  function ViewFavorites(session: Session, favoritesOf: string -> seq<FilmEntry>, pageArg: Option<string>): (r: FavoritesView)
    ensures !LoggedIn(session) <==> r == ToLogin(Redirect(LoginEndpoint, None))
    ensures LoggedIn(session) ==> r.Rendered? && r.page == ShowFavorites(favoritesOf(session.userId.value), pageArg)
  {
    if !LoggedIn(session) then ToLogin(Redirect(LoginEndpoint, None))
    else Rendered(ShowFavorites(favoritesOf(session.userId.value), pageArg))
  }

  /** `check_favorite`: an anonymous visitor is told "not a favorite", with status 200. */
  function CheckFavorite(session: Session, isFavorite: (string, string) -> bool, filmId: string): (r: Response)
    ensures r.status == Ok && r.body.FavoriteFlag?
    ensures r.body.isFavorite ==> LoggedIn(session) && isFavorite(session.userId.value, filmId)
    ensures LoggedIn(session) && isFavorite(session.userId.value, filmId) ==> r.body.isFavorite
  {
    if !LoggedIn(session) then Json(FavoriteFlag(false))
    else Json(FavoriteFlag(isFavorite(session.userId.value, filmId)))
  }

  /** `toggle_favorite`: 401 for an anonymous visitor, otherwise the model's result and status unchanged. */
  function ToggleFavorite(session: Session, toggle: (string, string) -> (ModelReply, int), filmId: string): (r: Response)
    ensures !LoggedIn(session) ==> r == Response(401, ErrorBody(AuthenticationRequired))
    ensures LoggedIn(session) ==>
      var (reply, status) := toggle(session.userId.value, filmId);
      r == Response(status, Reply(reply))
  {
    if !LoggedIn(session) then Response(401, ErrorBody(AuthenticationRequired))
    else
      var (reply, status) := toggle(session.userId.value, filmId);
      Response(status, Reply(reply))
  }

  /** `get_favorites_json`: an empty list for an anonymous visitor; the model's list, unfiltered, otherwise. */
  function FavoritesJson(session: Session, favoritesOf: string -> seq<FilmEntry>): (r: Response)
    ensures r.status == Ok && r.body.FilmList?
    ensures !LoggedIn(session) ==> r.body.films == []
    ensures LoggedIn(session) ==> r.body.films == favoritesOf(session.userId.value)
  {
    if !LoggedIn(session) then Json(FilmList([]))
    else Json(FilmList(favoritesOf(session.userId.value)))
  }

  /**
   * Anonymous requests never reach the favorite model: whatever the model
   * would answer, the four handlers answer the same.
   */
  lemma AnonymousNeverReachesModel(
    session: Session, filmId: string, pageArg: Option<string>,
    f1: string -> seq<FilmEntry>, f2: string -> seq<FilmEntry>,
    c1: (string, string) -> bool, c2: (string, string) -> bool,
    t1: (string, string) -> (ModelReply, int), t2: (string, string) -> (ModelReply, int))
    requires !LoggedIn(session)
    ensures ViewFavorites(session, f1, pageArg) == ViewFavorites(session, f2, pageArg)
    ensures CheckFavorite(session, c1, filmId) == CheckFavorite(session, c2, filmId)
    ensures ToggleFavorite(session, t1, filmId) == ToggleFavorite(session, t2, filmId)
    ensures FavoritesJson(session, f1) == FavoritesJson(session, f2)
  {
  }
}
