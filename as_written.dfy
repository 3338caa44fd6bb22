/** What db.py and auth.py do as written, where that differs from what
    their exception handlers and docstrings intend. Each function gives the
    outcome of one call over the table it sees: the value returned, or the
    exception raised. The classes of modules Db and Auth model the intended
    behaviour; the lemmas here exhibit the difference. */
module AsWritten {
  import opened Passwords
  import opened Users

  /** `find_user_by` as written (db.py:71-79). A miss raises NoResultFound
      inside the `try`; NoResultFound is a subclass of InvalidRequestError,
      so the handler re-raises it as InvalidRequestError. Every miss
      therefore surfaces as `InvalidQuery`, never as the ValueError the
      callers in auth.py catch. */
  function FindUserBy(users: seq<User>, f: Filter): (r: Result<nat>)
    ensures r.Ok? ==> IsFirstMatch(users, f, r.value)
    ensures r.Err? <==> !AnyMatch(users, f)
    ensures r.Err? ==> r.error == InvalidQuery
  {
    match FindFirst(users, f)
    case None => Err(InvalidQuery)
    case Some(i) => Ok(i)
  }

  /** `register_user` as written (auth.py:46-60). A hit raises ValueError,
      which the handler of line 50 swallows, and the insert then breaks the
      unique-email constraint; a miss raises InvalidRequestError, which
      `except ValueError` does not catch. */
  function RegisterUser(users: seq<User>, email: string, password: string, salt: string): (r: Result<User>)
    ensures !AnyMatch(users, ByEmail(email)) ==> r == Err(InvalidQuery)
    ensures r.Ok? ==> AnyMatch(users, ByEmail(email))
    ensures r.Ok? ==> r.value.email == email && r.value.id == NextId(users)
                      && CheckPassword(password, r.value.hashedPassword)
  {
    match FindUserBy(users, ByEmail(email))
    case Err(e) => Err(e)
    case Ok(_) =>
      var u := User(NextId(users), email, HashPassword(password, salt), None, None);
      if Consistent(users + [u]) then Ok(u) else Err(Duplicate)
  }

  /** As written, registration never succeeds: a new email fails with
      `InvalidQuery`, a stored one with `Duplicate`. */
  lemma RegisterNeverSucceeds(users: seq<User>, email: string, password: string, salt: string)
    requires Consistent(users)
    ensures !AnyMatch(users, ByEmail(email)) ==> RegisterUser(users, email, password, salt) == Err(InvalidQuery)
    ensures AnyMatch(users, ByEmail(email)) ==> RegisterUser(users, email, password, salt) == Err(Duplicate)
  {
    InsertConsistentIffNewEmail(users, User(NextId(users), email, HashPassword(password, salt), None, None));
  }

  /** `valid_login` as written (auth.py:72-78): an unknown email raises
      InvalidRequestError instead of returning False. */
  function ValidLogin(users: seq<User>, email: string, password: string): (r: Result<bool>)
    ensures r.Err? <==> !AnyMatch(users, ByEmail(email))
    ensures r.Err? ==> r.error == InvalidQuery
  {
    match FindUserBy(users, ByEmail(email))
    case Err(e) => Err(e)
    case Ok(i) => Ok(CheckPassword(password, users[i].hashedPassword))
  }

  /** `_generate_uuid` as declared (auth.py:80-86): a function of no
      parameters. Called with `positional` positional arguments, it returns
      the fresh UUID string when there are none and raises TypeError
      otherwise. */
  function GenerateUuid(positional: nat, uuid: Token): (r: Result<Token>)
    ensures r.Ok? <==> positional == 0
    ensures r.Ok? ==> r.value == uuid
    ensures r.Err? ==> r.error == WrongArity
  {
    if positional == 0 then Ok(uuid) else Err(WrongArity)
  }

  /** `create_session` as written (auth.py:97-110). `self._generate_uuid()`
      passes `self` as a positional argument. */
  function CreateSession(users: seq<User>, email: string, uuid: Token): (r: Result<Option<Token>>)
    ensures r.Err?
    ensures r.error == InvalidQuery <==> !AnyMatch(users, ByEmail(email))
  {
    match FindUserBy(users, ByEmail(email))
    case Err(e) => Err(e)
    case Ok(_) =>
      match GenerateUuid(1, uuid)
      case Err(e) => Err(e)
      case Ok(sessionId) => Ok(Some(sessionId))
  }

  /** As written, `create_session` never returns a session id: a known
      email raises TypeError, an unknown one InvalidRequestError. So the
      login route of app.py cannot succeed. */
  lemma CreateSessionNeverIssues(users: seq<User>, email: string, uuid: Token)
    ensures AnyMatch(users, ByEmail(email)) ==> CreateSession(users, email, uuid) == Err(WrongArity)
    ensures !AnyMatch(users, ByEmail(email)) ==> CreateSession(users, email, uuid) == Err(InvalidQuery)
  {
  }

  /** `get_reset_password_token` as written (auth.py:153-166). */
  function GetResetPasswordToken(users: seq<User>, email: string, uuid: Token): (r: Result<Token>)
    ensures r.Err?
    ensures r.error == InvalidQuery <==> !AnyMatch(users, ByEmail(email))
  {
    match FindUserBy(users, ByEmail(email))
    case Err(e) => Err(e)
    case Ok(_) => GenerateUuid(1, uuid)
  }

  /** As written, `get_reset_password_token` never returns a token. */
  lemma ResetTokenNeverIssued(users: seq<User>, email: string, uuid: Token)
    ensures AnyMatch(users, ByEmail(email)) ==> GetResetPasswordToken(users, email, uuid) == Err(WrongArity)
    ensures !AnyMatch(users, ByEmail(email)) ==> GetResetPasswordToken(users, email, uuid) == Err(InvalidQuery)
  {
  }

  /** `update_password` as written (auth.py:178-189): the token is passed
      to `filter_by` as it is, so a missing token (None) filters for
      `reset_token IS NULL`. The result is the table afterwards. */
  function UpdatePassword(users: seq<User>, resetToken: Option<Token>, newPassword: string, salt: string)
    : (r: Result<seq<User>>)
    ensures r.Err? <==> !AnyMatch(users, ByResetToken(resetToken))
    ensures r.Err? ==> r.error == InvalidQuery
    ensures r.Ok? ==> |r.value| == |users|
  {
    match FindUserBy(users, ByResetToken(resetToken))
    case Err(e) => Err(e)
    case Ok(i) =>
      Ok(UpdateAt(users, ById(users[i].id),
                  [SetHashedPassword(HashPassword(newPassword, salt)), SetResetToken(None)]))
  }

  /** As written, `update_password(None, pw)` replaces with `pw` the
      password of the first user with no pending reset, whatever the rest of
      the table holds: whoever sends the request without a reset token can
      then log in as that user. */
  lemma MissingTokenResetsFirstUser(users: seq<User>, i: int, newPassword: string, salt: string)
    requires Consistent(users) && IsFirstMatch(users, ByResetToken(None), i)
    ensures var after := UpdatePassword(users, None, newPassword, salt);
      && after.Ok? && |after.value| == |users|
      && after.value[i].email == users[i].email
      && CheckPassword(newPassword, after.value[i].hashedPassword)
  {
    var kwargs := [SetHashedPassword(HashPassword(newPassword, salt)), SetResetToken(None)];
    FirstMatchIsFound(users, ByResetToken(None), i);
    IdFindsRow(users, i);
    assert kwargs[..1] == [kwargs[0]] && kwargs[..1][..0] == [];
    assert AssignAll(users[i], kwargs[..1]) == users[i].(hashedPassword := HashPassword(newPassword, salt));
    assert AssignAll(users[i], kwargs)
        == users[i].(hashedPassword := HashPassword(newPassword, salt), resetToken := None);
  }
}
