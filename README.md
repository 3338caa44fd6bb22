# User authentication service: credential store and session logic

This project models, in Dafny, the core of a small user-authentication
backend (alx-backend-user-data):

- the credential store `DB` (`0x03-user_authentication_service/db.py`), a
  table of users with single-attribute lookup, partial update and insert;
- the service `Auth` (`0x03-user_authentication_service/auth.py`): it
  registers users with a salted password hash, checks logins, issues and
  destroys session ids, and issues and consumes password-reset tokens;
- the list function `squares` of `0x00-personal_data/filtered_logger.py`.

Modules, one per file:

- `Passwords` (passwords.dfy): `_hash_password` and `bcrypt.checkpw`. A
  hash value is the salt plus the password it was computed from, so bcrypt
  is treated as a collision-free one-way function. The salt that
  `bcrypt.gensalt()` draws is a parameter.
- `Users` (users.dfy): the `User` row, the tagged single-field `Filter`
  that replaces `find_user_by(**kwargs)`, and the first-match lookup
  `FindFirst`. Also the typed keyword writes `Kwarg` of `update_user`,
  the database constraints (`Consistent`: unique ids, unique emails), and
  SQLite's choice of a new id (`NextId`).
- `Db` (db.dfy): class `UserDb`. It keeps two views of the table.
  `committed` is the database file. `session` is what the SQLAlchemy
  session shows, including writes not yet committed. Its methods change
  them as `add_user`, `update_user`, `commit` and `rollback` do.
- `Auth` (auth.dfy): class `AuthService` over a `UserDb`, with the
  invariant that it commits every write and gives each session id and
  reset token to one user only. Also lemmas relating its operations, and
  three client scenarios that follow one account through registration,
  login sessions and a password reset.
- `AsWritten` (as_written.dfy): the behaviour of the code as written where
  it departs from what its handlers and docstrings intend (see Findings).
- `Squares` (squares.dfy): `squares` and its properties.

Assumptions:

- `user.py` is not part of this model. The store is assumed to declare
  `id` as the primary key and `email` as unique. Duplicate rejection rests
  on that constraint alone, because `register_user` swallows its own
  ValueError (auth.py:49-52).
- `uuid.uuid4()` becomes a caller-supplied token that no user holds as a
  session id or reset token (`Users.Fresh`).
- The row position a lookup returns stands for the identity of the mapped
  User object: writing through it changes that row.

Where the code and its documentation disagree, the class model follows
what the exception handlers intend: a lookup miss is `NotFound`, and the
service treats it as "no such user". The code as written behaves
differently. `AsWritten` models that behaviour, and the Findings section
lists the differences.

## Model

| member | source | states |
|---|---|---|
| Passwords.HashPassword | 0x03-user_authentication_service/auth.py:13-24 | the password checks against its own salted hash |
| Passwords.OtherPasswordFails | 0x03-user_authentication_service/auth.py:75 | a password other than the hashed one never checks |
| Passwords.HashIsSalted | 0x03-user_authentication_service/auth.py:23 | one password under two salts gives two hash values, and both check |
| Users.FindFirst | 0x03-user_authentication_service/db.py:73-76 | the result is the first row the filter selects; it is None exactly when no row matches |
| Users.FirstMatchIsFound | 0x03-user_authentication_service/db.py:73 | the first matching row is the one the lookup returns |
| Users.IdFindsRow | 0x03-user_authentication_service/db.py:86 | under the primary-key constraint, a lookup by a row's own id returns that row |
| Users.EmailPinsRow | 0x03-user_authentication_service/auth.py:73 | under the unique-email constraint, two rows with one email are the same row |
| Users.SessionIdPinsRow | 0x03-user_authentication_service/auth.py:126 | with distinct tokens, two rows holding one session id are the same row |
| Users.NextId | 0x03-user_authentication_service/db.py:48-53 | the id given to an inserted row is larger than every id in the table (the largest plus one, 1 in an empty table) |
| Users.KnownPrefix | 0x03-user_authentication_service/db.py:89-94 | the loop writes exactly the keywords before the first one that is not an attribute of User |
| Users.AssignAllKeepsUnnamed | 0x03-user_authentication_service/db.py:89-92 | a column that no keyword names keeps its value |
| Users.AssignAllLastWins | 0x03-user_authentication_service/db.py:89-92 | every keyword that no later keyword overrides leaves its value in its column |
| Users.AssignAllKeepsKeys | 0x03-user_authentication_service/db.py:89-92 | writing only credential columns keeps a row's id and email |
| Users.UpdateAtFrame | 0x03-user_authentication_service/db.py:84-97 | an update changes only the selected row, and in it only the columns named |
| Users.ReplaceKeepsInvariants | 0x03-user_authentication_service/auth.py:101-104 | rewriting one row's credential columns with none, its own, or unheld tokens keeps every table invariant |
| Users.InsertConsistentIffNewEmail | 0x03-user_authentication_service/db.py:48-57 | an insert with the next id keeps the constraints exactly when the email is not already stored |
| Users.AppendKeepsTokensDistinct | 0x03-user_authentication_service/db.py:48 | a new row holds no session id and no reset token, so tokens stay distinct |
| Db.UserDb.constructor | 0x03-user_authentication_service/db.py:19-25 | a new store holds no users, because the schema is dropped and recreated |
| Db.UserDb.Commit | 0x03-user_authentication_service/db.py:51-57 | the database takes the session's writes exactly when they keep the constraints; otherwise IntegrityError, and the old rows stay |
| Db.UserDb.Rollback | 0x03-user_authentication_service/db.py:56 | the session drops its pending writes and shows the committed table again |
| Db.UserDb.FindUserBy | 0x03-user_authentication_service/db.py:60-79 | returns the first matching row; a miss fails with NotFound instead of returning None; nothing changes |
| Db.UserDb.SetAttribute | 0x03-user_authentication_service/db.py:91-92 | setattr changes one column of one row in the session and commits nothing |
| Db.UserDb.AddUser | 0x03-user_authentication_service/db.py:36-58 | on success appends exactly one row with the given email and hash and returns it; on a constraint violation rolls back, leaves the table as it was and fails with Duplicate |
| Db.UserDb.UpdateUser | 0x03-user_authentication_service/db.py:81-104 | unknown id: NotFound, nothing changes; unknown keyword: BadKey before the commit, earlier writes left pending; otherwise writes exactly the named columns of that one row and commits |
| Auth.AuthService.constructor | 0x03-user_authentication_service/auth.py:30-31 | the service starts over an empty store |
| Auth.AuthService.RegisterUser | 0x03-user_authentication_service/auth.py:33-60 | a stored email fails with Duplicate and the table is unchanged; a new email returns a user with that email, a hash the password checks against, a fresh id and no tokens, appended to the table |
| Auth.AuthService.ValidLogin | 0x03-user_authentication_service/auth.py:62-78 | true exactly when a user with that email exists and the password checks against its hash; nothing changes |
| Auth.AuthService.CreateSession | 0x03-user_authentication_service/auth.py:88-110 | known email: the fresh id becomes that user's session id and is returned, nothing else changes; unknown email: None, nothing changes |
| Auth.AuthService.GetUserFromSessionId | 0x03-user_authentication_service/auth.py:112-130 | None for a missing session id; otherwise the one user holding it, or None when nobody does; nothing changes |
| Auth.AuthService.DestroySession | 0x03-user_authentication_service/auth.py:132-142 | clears that user's session id and nothing else; an unknown id fails with NotFound |
| Auth.AuthService.GetResetPasswordToken | 0x03-user_authentication_service/auth.py:144-166 | unknown email: NotFound; known email: the fresh token becomes that user's reset token and is returned |
| Auth.AuthService.UpdatePassword | 0x03-user_authentication_service/auth.py:168-189 | missing or unknown token: NotFound, nothing changes; otherwise replaces the hash and clears the reset token in one update |
| Auth.SessionRoundTrip | 0x03-user_authentication_service/auth.py:97-130 | after create_session, a lookup by the new session id finds the user with that email |
| Auth.LogoutForgetsSession | 0x03-user_authentication_service/auth.py:132-142 | after the holder's session is destroyed, nobody holds the old session id, so a lookup by it returns None |
| Auth.DestroySessionIdempotent | 0x03-user_authentication_service/auth.py:142 | destroying a session twice leaves the table as destroying it once |
| Auth.ResetTokenSingleUse | 0x03-user_authentication_service/auth.py:178-189 | after update_password consumes a token nobody holds it, so reusing it fails |
| Auth.PasswordResetFlow | 0x03-user_authentication_service/auth.py:153-189 | after a reset token is issued and consumed, the new password logs in, a different old one does not, and the token is spent |
| Auth.RegisterThenLogin | 0x03-user_authentication_service/auth.py:55-75 | a newly registered user logs in with its password and with no other |
| AsWritten.FindUserBy | 0x03-user_authentication_service/db.py:71-79 | as written, every miss surfaces as InvalidRequestError |
| AsWritten.RegisterUser | 0x03-user_authentication_service/auth.py:46-60 | as written, a new email raises InvalidRequestError; the insert is reached only for a stored email, and it would add a row with that email, the next id and a checking hash |
| AsWritten.RegisterNeverSucceeds | 0x03-user_authentication_service/auth.py:46-60 | as written, registering a new email raises InvalidRequestError and a stored one Duplicate |
| AsWritten.ValidLogin | 0x03-user_authentication_service/auth.py:72-78 | as written, an unknown email raises InvalidRequestError instead of returning False |
| AsWritten.GenerateUuid | 0x03-user_authentication_service/auth.py:80-86 | a function of no parameters: called with any positional argument it raises TypeError |
| AsWritten.CreateSession | 0x03-user_authentication_service/auth.py:97-110 | as written, create_session always raises; the error is InvalidRequestError exactly when the email is unknown |
| AsWritten.CreateSessionNeverIssues | 0x03-user_authentication_service/auth.py:97-110 | as written, create_session raises TypeError for a known email and InvalidRequestError for an unknown one |
| AsWritten.GetResetPasswordToken | 0x03-user_authentication_service/auth.py:153-166 | as written, get_reset_password_token always raises; the error is InvalidRequestError exactly when the email is unknown |
| AsWritten.ResetTokenNeverIssued | 0x03-user_authentication_service/auth.py:153-166 | as written, get_reset_password_token never returns a token |
| AsWritten.UpdatePassword | 0x03-user_authentication_service/auth.py:178-189 | as written, fails with InvalidRequestError exactly when no user matches the token as given (None matches users without a token); otherwise the table keeps its length |
| AsWritten.MissingTokenResetsFirstUser | 0x03-user_authentication_service/auth.py:178-189 | as written, update_password(None, pw) sets pw as the password of the first user with no pending reset, wherever that user stands in the table |
| Squares.Squares | 0x00-personal_data/filtered_logger.py:7-8 | the result is as long as the input and element i is lst[i] * lst[i], in order |
| Squares.SquaresNonNegative | 0x00-personal_data/filtered_logger.py:8 | every element of the result is non-negative |
| Squares.SquaresAppend | 0x00-personal_data/filtered_logger.py:8 | the squares of a concatenation are the concatenation of the squares |
| Squares.SquaresIgnoreSign | 0x00-personal_data/filtered_logger.py:8 | negating every element leaves the squares unchanged |
| Squares.SquaresEmpty | 0x00-personal_data/filtered_logger.py:8 | the squares of [] are [] |
| Squares.SquaresExample | 0x00-personal_data/filtered_logger.py:10 | squares([4,5,6,2,6,8]) is [16,25,36,4,36,64] |

## Left out

- The Flask routes of app.py: form and cookie parsing, `jsonify`, `abort`, `redirect`. They are HTTP glue; the logout sequence of app.py is stated as `Auth.LogoutForgetsSession`.
- SQLAlchemy plumbing: the engine, the sqlite file `a.db`, `echo`, and the lazily created `_session` (db.py:27-34). Only their effect on the two views of the table is kept.
- bcrypt internals. `CheckPassword` accepts only the exact password. The model encodes no UTF-8, and it ignores bcrypt's limit of 72 bytes, beyond which two passwords check alike.
- Randomness: `uuid.uuid4()` and `bcrypt.gensalt()` are inputs. The service requires the token to be held by nobody.
- user.py and its column types and constraints. Unique ids and emails are assumed. Session ids and reset tokens are kept distinct by the service's invariant, not by a database constraint.
- `hasattr` at db.py:91 also accepts attributes of the mapped class that are not columns. Writing them is not modelled: a keyword is either one of the five columns or unknown.
- Values of the wrong type passed to `update_user` are not modelled: each keyword carries a value of its column's type.
- `find_user_by` with several keywords, or with one naming no column, is not modelled. That path raises InvalidRequestError (db.py:77-79); `Filter` names exactly one column.
- Autoflush: a lookup sees pending writes, but the model never flushes them early. A constraint that pending writes break therefore surfaces only at the next explicit commit.
- Db.UserDb.UpdateUser: after a refused commit, SQLAlchemy refuses further use of the session until it is rolled back. The model keeps the session usable.
- SQLite's fallback when the largest rowid reaches 2^63-1 (a random unused id) is not modelled; ids are unbounded integers.
- The module-level code of filtered_logger.py: the logging configuration (line 4), the `logging.info` call (line 11) and the stored password (line 14).
- Concurrency: the source handles one request at a time per session, and so does the model.

## Findings

| source | as written | input that shows it | evidently intended | confidence | as-written member | corrected member |
|---|---|---|---|---|---|---|
| 0x03-user_authentication_service/db.py:71-79 | A miss raises NoResultFound inside the `try`. It subclasses InvalidRequestError, so line 77 re-raises it as InvalidRequestError. The `except ValueError` handlers of auth.py (lines 50, 76, 108, 128, 156, 181) never see a miss, and line 98 never fires. | `register_user("a@x.com", "pw1")` on an empty table raises InvalidRequestError, so no account can ever be registered | a miss is reported as not found, and the service treats the user as absent | high; not executed | AsWritten.RegisterNeverSucceeds | Auth.AuthService.RegisterUser |
| 0x03-user_authentication_service/auth.py:80-86 | `_generate_uuid` declares no `self` but is called as `self._generate_uuid()` (lines 101, 161), which raises TypeError | `create_session("a@x.com")` once `a@x.com` is stored. As written no user is ever stored: `DB()` starts empty (db.py:23-24) and every `register_user` fails by the defect of the previous row. So this shows only once that defect is fixed | the call returns a fresh UUID string, stored as the session id (and, at line 161, as the reset token) | high; not executed | AsWritten.CreateSessionNeverIssues | Auth.AuthService.CreateSession |
| 0x03-user_authentication_service/auth.py:178-189 | `find_user_by(reset_token=None)` filters for `reset_token IS NULL`, so a call without a token resets the password of the first user with no pending reset | one stored user with no reset token; `update_password(None, "x")`, as the PUT /reset_password route sends when the form has no `reset_token` (app.py:123-127). As written no user is ever stored, because of the first row's defect, so this shows only once that defect is fixed | a missing token is rejected like an unknown one, as `get_user_from_session_id` rejects a missing session id (auth.py:121-122) | medium; not executed | AsWritten.MissingTokenResetsFirstUser | Auth.AuthService.UpdatePassword |
