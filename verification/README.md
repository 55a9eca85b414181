# Film-users web app: account, identity and favorites logic in Dafny

This project models the decision logic of a small Flask + MongoDB film
catalogue. Once the database is abstracted, a few statable pieces remain:

- **User-identity resolution.** A session `user_id` is text naming a user either by the
  document's native `_id` (a BSON ObjectId) or by the legacy integer `id`.
  `find_user_by_id` requires an ObjectId text and tries the integer only after
  the `_id` lookup misses. `get_user_data` and `update_profile` try the
  integer only when the ObjectId attempt raises. Both procedures are modelled
  with the queries they issue (`Identity`).
- **Account operations** (`UserRoutes`, `AuthUtils`):
  - the login guards;
  - `profile_data`, which strips the password;
  - `update_profile`: its `$set` document and its 404 cases;
  - `change_password`: input checks, plaintext-or-hash match, choice of update filter;
  - the record shape of `get_user_data`.
- **Favorites listing** (`Pagination`, `FavoriteFilm`, `UserRoutes`): falsy
  entries dropped, 12 per page with Python slice semantics. Also the
  anonymous-visitor branches of the check, toggle and list endpoints.
- **Sequential legacy-id migration** (`Migration`).
- **Connection retry schedule** (`Connection`). This is a pure function of the
  outcomes of the attempts. It returns the client and the delays it would sleep.

The `users` collection is a sequence of documents in natural order (`Store`).
`find_one` returns the first match and `update_one` changes the first match.
A `failing` flag makes every query raise. Everything outside the program
enters as a parameter:
- the clock (`now`);
- the database obtained (`Option<Db>`, `None` for `(None, None)`);
- werkzeug's `check_password_hash` (`hashCheck`);
- the favorite model's `get_user_favorite_films`, `is_favorite` and `toggle_favorite`;
- the date formatting of `profile_data` (`formatDate`).

"Never calls X" is stated as "answers the same whatever X is".

Notes on the code's behaviour:
- `update_profile` does not fall back to the integer id when a valid ObjectId text matches nothing. It answers 404 (`UserRoutes.UpdateProfileTarget`).
- `find_user_by_id` never tries the integer for a text that is not an ObjectId, while `get_user_data` does (`Identity.ShortNumericTextDiverges`).
- The password check accepts the plaintext comparison or the hash check. Neither is preferred. The hash check runs only when the texts differ. When it raises (a stored value shaped like a hash with an unknown method), the answer is 500.
- Integers are unbounded in Python but not in BSON. A legacy `id` filter beyond 64 bits makes pymongo raise before any query is sent. The handlers treat that like a database error: `get_user_data` finds nobody, `update_profile` answers 404. A migration whose next id overflows stops at that document and returns False (`Migration.MigrateNumbersAPrefix`).
- `int()` refuses texts of more than 4300 digits, the default limit of `sys.set_int_max_str_digits`, even when most of them are leading zeros. Such a `page` argument means page 1 (`Pagination.LongPageArgument`).
- Several handlers serve the same URLs with different anonymous behaviour:
  - the blueprint's `check_favorite`, `toggle_favorite` and `get_favorites` answer 401;
  - `routes/favorite_film.py` and the root aliases in `register_user_routes` (routes/user_routes.py:289-311) answer `isFavorite: false`, 401 and `[]`.

  All are modelled. The root aliases are line-for-line the `FavoriteFilm` functions.

## Model

| member | source | states |
|---|---|---|
| Text.Strip | routes/user_routes.py:135 | `str.strip()` yields empty text exactly when the input is all whitespace; a non-empty result neither starts nor ends with whitespace |
| Text.StripPadded | routes/user_routes.py:183-184 | stripping text padded with whitespace on both sides gives back exactly that text |
| Text.StripIdempotent | routes/user_routes.py:135 | stripping twice is stripping once |
| Text.ParseInt | routes/user_routes.py:59 | `int(s)` succeeds exactly on an optionally signed run of at most 4300 digits (leading zeros counted) once whitespace is stripped, and fails on any text holding one of the separators U+001C to U+001F; a text without digits never parses |
| Text.LongDigitsRefused | routes/user_routes.py:59 | a run of more than 4300 digits is refused by `int()`, whatever its value |
| Text.DigitsParse | routes/user_routes.py:59 | `int` of any non-empty run of at most 4300 digits, leading zeros included, is its decimal value |
| Text.PlusDigits | routes/user_routes.py:59 | `int` of a plus sign followed by at most 4300 digits is their value |
| Text.ParseIntIgnoresPadding | routes/user_routes.py:59 | for a text without separators, `int(s) == int(s.strip())`: surrounding whitespace never changes the result |
| Text.IntTextRoundTrip | routes/user_routes.py:59 | `int(str(n)) == n` for every integer of at most 4300 digits |
| Text.NegatedDigits | routes/user_routes.py:59 | `int` of a minus sign followed by at most 4300 digits of value `m` is `-m` |
| ObjectIds.ParseObjectId | routes/user_routes.py:54 | `ObjectId(text)` succeeds exactly on 24 hexadecimal characters and yields a 12-byte id |
| ObjectIds.ObjectIdText | routes/user_routes.py:97 | `str(oid)` has one lower-case digit per nibble of the id |
| ObjectIds.ObjectIdTextRoundTrip | routes/user_routes.py:97 | printing an ObjectId and parsing the text gives the same ObjectId |
| ObjectIds.ParsedObjectIdText | utils/auth_utils.py:54 | parsing then printing an ObjectId text yields the same text in lower case |
| ObjectIds.ObjectIdCaseInsensitive | routes/user_routes.py:54 | two ObjectId texts name the same id exactly when they agree up to letter case |
| ObjectIds.ObjectIdTextAsInt | routes/user_routes.py:54-59 | an ObjectId text is also an `int()` literal exactly when all 24 characters are decimal digits |
| Store.FirstMatch | routes/user_routes.py:60 | `find_one` picks the first document matching the filter, and none precedes it; no answer means no document matches |
| Store.FindOne | routes/user_routes.py:54 | `find_one` raises exactly on a failing database or an integer filter beyond 64 bits; a returned document is in the collection and matches; `None` means nothing matches |
| Store.FindOneIgnoresPassword | routes/user_routes.py:54-60 | `find_one` answers the same on collections differing only in passwords, up to the password of the document returned |
| Store.UpdateOne | routes/user_routes.py:147-158 | `update_one` raises exactly on a failing database or an integer filter beyond 64 bits; it reports `matched_count` 1 exactly when some document matches, and then applies the `$set` to the first matching document only; with no match the collection is unchanged |
| Store.FirstMatchAfterUpdate | routes/user_routes.py:147-158 | a `$set` that leaves `id` alone keeps the updated document the first match of the query that found it |
| Store.Apply | routes/user_routes.py:149 | `$set` overwrites exactly the fields it names; `_id`, username, role and registerDate are never touched |
| Store.FirstMatchIgnoresPassword | routes/user_routes.py:54-60 | collections that differ only in passwords give the same first match for every filter |
| Identity.Classify | utils/auth_utils.py:40-49 | a text is read as a native id exactly when it is an ObjectId text, and as a legacy integer exactly when it is not one but `int()` accepts it |
| Identity.FindUserById | routes/user_routes.py:51-62 | a non-ObjectId text returns `None` and issues no query; a returned user is in the collection and is the first match of the last query issued, which fits 64 bits; the integer lookup is issued only after a working database found no `_id` match for an all-digit text |
| Identity.FindUserByIdAnswer | routes/user_routes.py:51-62 | on a working database and an ObjectId text the answer is the `_id` lookup's document when there is one; otherwise, for an all-digit text, the first document whose `id` is that integer; otherwise `None` |
| Identity.FindUserByIdObjectIdWins | routes/user_routes.py:53-56 | when a document has the text's `_id`, that match is returned and the integer lookup is never issued |
| Identity.FindUserByIdIgnoresPassword | routes/user_routes.py:51-62 | `find_user_by_id` answers the same user, up to the password, whatever passwords are stored |
| Identity.ResolveParseFirst | utils/auth_utils.py:39-49 | `get_user_data`'s lookup: a user is found only in a working, connected database and matches an issued query; without a database nothing is queried |
| Identity.ResolveParseFirstFollowsClassify | utils/auth_utils.py:40-49 | on a working database exactly the one query named by the classification is issued and its first match returned; a valid ObjectId that misses is never retried as an integer |
| Identity.ResolveParseFirstFailingDb | utils/auth_utils.py:41-49 | a database whose queries raise yields no user |
| Identity.WideLegacyIdFindsNobody | utils/auth_utils.py:42-48 | an integer user id beyond 64 bits is looked up once, that lookup raises, and nobody is found whatever the collection holds |
| Identity.ShortNumericTextDiverges | routes/user_routes.py:51-62 | for a digits-only text of at most 4300 characters that is not 24 long, `find_user_by_id` issues no query while `get_user_data` looks the integer up |
| Identity.MissedNumericObjectIdDiverges | routes/user_routes.py:53-60 | for a 24-digit text matching no `_id`, `find_user_by_id` issues the integer lookup and `get_user_data` does not |
| AuthUtils.LoginRequired | utils/auth_utils.py:18-21 | the page guard returns nothing exactly when the session has `user_id`; otherwise a redirect to the given endpoint with a flashed message |
| AuthUtils.Shape | utils/auth_utils.py:51-58 | the found-user record has username (default `User`), `str(_id)`, fullName (default empty), registerDate (default now) and role (default empty), and no password |
| AuthUtils.GetUserData | utils/auth_utils.py:23-65 | the default record (session username or `User`, the given user id, now) comes back exactly when the lookup finds nobody; otherwise the shaped record of exactly the user the lookup found |
| AuthUtils.GetUserDataUnavailable | utils/auth_utils.py:32-37 | with no database, or one whose queries raise, the default record is returned |
| AuthUtils.GetUserDataHidesPassword | utils/auth_utils.py:51-58 | changing a stored password changes nothing in the returned record |
| UserRoutes.LoginRequiredApi | routes/user_routes.py:42-48 | an anonymous request gets the denial; a logged-in one runs the handler with its `user_id` |
| UserRoutes.LoginRequiredApiNeverCallsHandler | routes/user_routes.py:45-46 | for an anonymous request the answer is the 401 denial whatever the wrapped handler is |
| UserRoutes.GuardsAgree | routes/user_routes.py:227-229 | the page guard and the API guard admit exactly the same sessions |
| UserRoutes.FieldText | routes/user_routes.py:183-184 | an absent field reads as empty text, a string field is stripped, any other value raises |
| UserRoutes.PublicProfile | routes/user_routes.py:95-115 | the profile sent has `_id` as text, the other stored fields unchanged, registerDate present exactly when stored, and no password |
| UserRoutes.ProfileData | routes/user_routes.py:77-122 | anonymous: 401; no database: 500 with the session username (or `User`) and the connection error; otherwise 404 when `find_user_by_id` finds nobody, else the user's public profile |
| UserRoutes.ProfileDataHidesPassword | routes/user_routes.py:99-101 | changing a stored password changes nothing `profile_data` sends |
| UserRoutes.ProfileUpdate | routes/user_routes.py:141-143 | the `$set` document always sets `updatedAt` to now, sets `fullName` exactly when the stripped name is non-empty, and sets nothing else |
| UserRoutes.UpdateParseFirst | routes/user_routes.py:146-160 | on a working database the update is exactly `update_one` with the query of the id's classification (`_id` for an ObjectId text, else the integer `id`); a failing database or an unclassifiable id raises |
| UserRoutes.UpdateProfileBody | routes/user_routes.py:127-170 | no database: 500 with the connection error; a missing JSON body or a non-string name: 500; a failing database: 404; any failure leaves the database unchanged; success changes exactly the first document the classified user id names, only in `updatedAt` and in `fullName` when a non-empty name was sent; on a working database it is 404 exactly when the id is unclassifiable, is an integer beyond 64 bits, or names no document |
| UserRoutes.UpdateProfileTarget | routes/user_routes.py:145-170 | for a logged-in session on a working database: when the classified id names a document, the first such document gets the `$set` and the answer is the success message; otherwise, and for an integer id beyond 64 bits, 404 with no change (a missing ObjectId is not retried as an integer) |
| UserRoutes.UpdatedProfileIsShown | routes/user_routes.py:145-170 | after a successful update, `get_user_data`'s lookup for the same session finds the document it found before, with the `$set` applied |
| UserRoutes.PasswordCheck | routes/user_routes.py:197-199 | equal plain text is accepted without consulting the hash check; otherwise the hash check's answer, `None` when it raised |
| UserRoutes.PasswordQuery | routes/user_routes.py:205 | the password update's filter (`_id` when it is an ObjectId, else `id`) always matches the user it was built from |
| UserRoutes.ChangePasswordBody | routes/user_routes.py:175-220 | no database: 500 with the connection error; a missing JSON body or a non-string field: 500; empty current or new password: 400 without any lookup; user not found: 404; success only when the current password matches; success stores the stripped new password verbatim and `updatedAt` in one matching document and changes nothing else; non-success leaves the database unchanged |
| UserRoutes.ChangePasswordAcceptsEitherForm | routes/user_routes.py:196-217 | for a found user the change succeeds exactly when the current password equals the stored text or passes the hash check, is 400 exactly when the hash check says no, and is 500 exactly when the hash check raised |
| UserRoutes.ChangePasswordBodyByCheck | routes/user_routes.py:196-217 | for a found user and non-empty passwords: a passing check leads to success, a failing one to 400 `CurrentPasswordWrong`, a raising one to 500, the last two with the database unchanged |
| UserRoutes.ChangePasswordUpdatesFoundUser | routes/user_routes.py:196-214 | with unique `_id`s, non-empty passwords and a current password that matches, the change succeeds and rewrites exactly the document `find_user_by_id` found (new password and `updatedAt`), nothing else |
| UserRoutes.ViewFavorites | routes/user_routes.py:225-252 | an anonymous visitor gets `login_required`'s redirect to `login` with the flashed prompt; a logged-in one gets that user's favorites page |
| UserRoutes.FavoritesPagesDifferOnlyInFlash | routes/user_routes.py:225-229 | the blueprint's favorites page and the one in routes/favorite_film.py render the same for a logged-in user; anonymously both redirect to `login`, only the blueprint flashing a prompt |
| UserRoutes.GetFavorites | routes/user_routes.py:254-259 | anonymous: 401; otherwise the model's film list unfiltered |
| UserRoutes.CheckFavorite | routes/user_routes.py:261-266 | anonymous: 401; otherwise the model's answer for this user and film |
| UserRoutes.ToggleFavorite | routes/user_routes.py:268-273 | anonymous: 401; otherwise the model's result and status code unchanged |
| Pagination.KeepTruthy | routes/favorite_film.py:17 | only truthy entries survive and the result is no longer than the input (which entries survive: `KeepTruthyMembers`) |
| Pagination.KeepTruthyAppend | routes/favorite_film.py:17 | the filter preserves relative order: it distributes over concatenation |
| Pagination.TotalPages | routes/favorite_film.py:20-22 | the page count is the least number of 12-film pages holding all films, 0 exactly when there are none |
| Pagination.Slice | routes/favorite_film.py:27 | Python slicing never exceeds the list and agrees with a plain sub-sequence for in-range bounds |
| Pagination.PageOf | routes/favorite_film.py:24-27 | a page holds at most 12 films |
| Pagination.PageNumber | routes/favorite_film.py:24 | a missing or non-integer `page` argument means page 1; otherwise its integer value |
| Pagination.LongPageArgument | routes/favorite_film.py:24 | a `page` argument of more than 4300 digits means page 1, even when its value is small |
| Pagination.ShowFavorites | routes/favorite_film.py:14-32 | the films shown are the requested page of the filtered list (at most 12, all truthy, all from the model's list), with the page count of the filtered list and the requested page number |
| Pagination.ShownPagesCoverFavorites | routes/favorite_film.py:14-32 | requesting `?page=1` up to the page count the template receives shows every truthy favorite exactly once, in order, for page counts of at most 4300 digits |
| Pagination.ShownUpToIsPagesUpTo | routes/favorite_film.py:26-29 | the films shown for `?page=1` to `?page=k` are the first `k` pages of the filtered list, for `k` of at most 4300 digits |
| Pagination.KeepTruthyMembers | routes/favorite_film.py:17 | the filter keeps a film exactly when it is in the list and truthy |
| Pagination.PageInRange | routes/favorite_film.py:24-27 | pages 1 to the page count are non-empty and are the films from `(p-1)*12` up to `p*12` or the end |
| Pagination.PageBeyondLast | routes/favorite_film.py:24-27 | a page past the page count is empty |
| Pagination.PageZero | routes/favorite_film.py:24-27 | page 0 is empty |
| Pagination.NegativePage | routes/favorite_film.py:24-27 | a negative page is a window counted from the end of the list, as Python's negative slice indices give |
| Pagination.PagesUpToIsPrefix | routes/favorite_film.py:24-27 | the first k pages in order are the first `12k` films, or all of them |
| Pagination.PagesPartition | routes/favorite_film.py:20-27 | pages 1 to the page count, concatenated in order, are exactly the filtered list |
| FavoriteFilm.ViewFavorites | routes/favorite_film.py:6-32 | an anonymous visitor is redirected to login (nothing flashed, nothing computed); a logged-in one gets that user's favorites page |
| FavoriteFilm.CheckFavorite | routes/favorite_film.py:35-42 | always 200; `isFavorite` is true exactly when logged in and the model says so, so anonymous visitors get false |
| FavoriteFilm.ToggleFavorite | routes/favorite_film.py:44-51 | anonymous: 401; logged in: the model's result and status code unchanged |
| FavoriteFilm.FavoritesJson | routes/favorite_film.py:53-60 | always 200; an empty list for anonymous visitors, the model's list otherwise |
| FavoriteFilm.AnonymousNeverReachesModel | routes/favorite_film.py:8-9 | for an anonymous visitor the four handlers answer the same whatever the favorite model would do |
| Connection.ConnectFrom | utils/db.py:15-44 | from a given attempt on: no more than three attempts, all but the last a connection error, the delays doubling from the given one, and a client exactly when the last attempt pinged |
| Connection.GetMongoClient | utils/db.py:10-44 | at most 3 attempts; delays 2, 4, ..., one fewer than the attempts; stopping early only on a ping or another error; a client exactly when the last attempt made pinged |
| Connection.FirstPingWins | utils/db.py:30-32 | the first successful ping returns that client and no later attempt is made |
| Connection.ThreeConnectionErrors | utils/db.py:33-41 | three connection errors give no client after sleeping 2 s and 4 s and nothing after the third |
| Connection.OtherErrorAborts | utils/db.py:42-44 | any other error stops at once with no client and no further attempt |
| Connection.OnlyThreeAttempts | utils/db.py:12-15 | only the first three attempt outcomes affect the result |
| Connection.GetDbConnection | utils/db.py:50-62 | no connection exactly when no client was obtained; otherwise that client with the `film-users` database |
| Connection.ConnectedIffEarlyPing | utils/db.py:50-59 | a database is obtained exactly when some attempt among the first three pings after only connection errors |
| Migration.HighestId | utils/db.py:116 | the highest `id` present, absent exactly when no document has one |
| Migration.FirstNewId | utils/db.py:117 | the first new id exceeds every existing `id` |
| Migration.AssignFrom | utils/db.py:119-124 | documents with an `id` are untouched; each id-less document gets `next` plus the number of id-less documents before it, as long as that id and `next` fit 64 bits, and is untouched otherwise; the loop completes exactly when every id it hands out fits |
| Migration.Migrate | utils/db.py:107-130 | True exactly on a working database where every new id fits 64 bits; a failing database leaves the collection as it was; documents with an `id` are untouched, and a document that gained one got the next consecutive id in collection order, within 64 bits; after True every document has an `id` |
| Migration.NumberMissing | utils/db.py:110-124 | with nothing missing the loop is skipped and True returned; otherwise numbering from the first new id completes exactly when the last new id fits 64 bits |
| Migration.NoneMissingIffAllHaveIds | utils/db.py:110-114 | no id-less document is found exactly when every document has an `id` |
| Migration.CountMissingGrows | utils/db.py:119-124 | an id-less document has strictly fewer id-less documents before it than any later position has |
| Migration.MigrateFreshIds | utils/db.py:116-124 | new ids are pairwise distinct (increasing in collection order) and larger than every pre-existing id |
| Migration.MigrateNumbersAPrefix | utils/db.py:119-124 | the loop stops at the first id that does not fit: a numbered document has every earlier id-less document numbered too |
| Migration.MigrateIdempotent | utils/db.py:110-114 | after a run that returned True, a second run changes nothing and returns True |

## Left out

- utils/db.py `get_db_name` is the constant `Connection.DbName`. `init_mongo_indexes` and `initialize_database` are index declarations and bootstrap, so they are left out. utils/db_init.py is not part of this model.
- routes/user_routes.py `get_db` (lines 18-39) builds a lazy pymongo client. Its result enters as the `conn` parameter; URI, TLS and timeout options are not modelled.
- routes/user_routes.py `profile` (the `/account` page) only renders `get_user_data` behind `login_required`. Templates, `jsonify`, `flash` storage, `redirect` and `url_for` are represented as plain datatypes.
- `client.close()` on every exit path, logging, and `time.sleep` are not modelled. The delays are returned as `sleeps`.
- models/favorite.py (`toggle_favorite`, `is_favorite`, `get_user_favorite_films`) is not part of this model. It enters as function parameters; toggle semantics and the uniqueness of favorites are not modelled.
- Date handling is not modelled:
  - `datetime.utcnow()`/`now()` is a parameter;
  - `registerDate` parsing and `isoformat` in `profile_data` are an uninterpreted `formatDate`;
  - a falsy (empty) date is passed through as the source does.
- Concurrency is not modelled: concurrent migrations and concurrent updates rely on database constraints that are not visible here.
- A database error part-way through an operation is not modelled: `failing` makes every query of the database raise. A migration stopped part-way is represented only for the id that does not fit 64 bits.
- Stored `id`s are unbounded integers in the model. MongoDB would hold 64-bit values, or another BSON type; the model does not constrain what is stored. Only filters and new ids are checked against 64 bits.
- MongoDB query semantics are restricted to equality on `_id` and on an integer `id`. The model does not cover `id` of other BSON types, an explicit `null` `id`, or type-mixed sort order in `find_one(sort=...)`.
- Migration updates each document by position. The source updates by `_id`, which MongoDB keeps unique, so the two coincide.
- Text.IntTextRoundTrip: stated only for integers of at most 4300 digits. Beyond that, `str(n)` itself raises ValueError, which `IntText` does not model.
- Pagination.ShownPagesCoverFavorites: stated only for page counts of at most 4300 digits, where the page links' `str()` and the handler's `int()` both work.
- Text.ParseInt: approximates Python's `int()`. Digit-group underscores (`1_000`) and non-ASCII decimal digits, both of which `int()` accepts, are rejected by the model.
- ObjectIds.ParseObjectId: `bytes.fromhex`'s skipping of whitespace between digit pairs is not modelled. Inputs that are not strings are not modelled either; in particular `ObjectId(None)` generates a fresh id.
- Connection.GetMongoClient: the outcomes of the attempts are a sequence of at least three elements supplied by the environment.
- The session's `user_id` and `username` are modelled as text. JSON bodies are modelled only through the fields the handlers read. A non-string value, or a missing JSON body, leads to the 500 path.
- app.py holds copies of `get_mongo_client`, `migrate_users_without_id`, `login_required` and `get_user_data` (app.py:37-202). The model of the utils/ versions covers them; app.py's bootstrap and logging are left out.
- static/js/film_details.js is browser UI code and is left out.
