/** The authentication service: class Auth of auth.py, over the store of
    module Db, and what its operations guarantee together.

    Two inputs stand for what the source draws at random: `salt` for
    `bcrypt.gensalt()` and `token` for `uuid.uuid4()`, which the caller
    must supply fresh (held by no user).

    Defects of auth.py the model does not reproduce (module AsWritten
    models them as written):
    - Every lookup here treats a miss as `NotFound`, which the service's
      `except ValueError` handlers expect; as written a miss surfaces as
      InvalidRequestError and escapes them (see module Db).
    - `_generate_uuid` is declared without `self` (auth.py:80) but called
      as `self._generate_uuid()` (auth.py:101, 161), which raises
      TypeError; here the fresh token is what that call is meant to
      return.
    - `update_password(None, ...)` filters for a NULL reset token and so
      selects a user with no pending reset; here a missing token is
      rejected, as `get_user_from_session_id` rejects a missing session
      id. */
module Auth {
  import opened Passwords
  import opened Users
  import opened Db

  /** Some user with that email has a hash the password checks against. */
  ghost predicate LoginSucceeds(users: seq<User>, email: string, password: string) {
    exists i :: 0 <= i < |users| && users[i].email == email
      && CheckPassword(password, users[i].hashedPassword)
  }

  /** `create_session` followed by `get_user_from_session_id`: the new
      session id selects the user it was stored for, the first user with
      that email. */
  lemma SessionRoundTrip(users: seq<User>, email: string, token: Token)
    requires Fresh(users, token) && AnyMatch(users, ByEmail(email))
    ensures var after := UpdateAt(users, ByEmail(email), [SetSessionId(Some(token))]);
      FindFirst(after, BySessionId(Some(token))) == FindFirst(users, ByEmail(email))
  {
    var i := FindFirst(users, ByEmail(email)).value;
    var kwargs := [SetSessionId(Some(token))];
    assert AssignAll(users[i], kwargs) == users[i].(sessionId := Some(token));
    var after := UpdateAt(users, ByEmail(email), kwargs);
    assert IsFirstMatch(after, BySessionId(Some(token)), i);
    FirstMatchIsFound(after, BySessionId(Some(token)), i);
  }

  /** Logout as app.py performs it: the user holding the session id has
      `destroy_session` applied to its id; afterwards nobody holds that
      session id, so `get_user_from_session_id` returns None for it. */
  lemma LogoutForgetsSession(users: seq<User>, sessionId: Token)
    requires Consistent(users) && TokensDistinct(users)
    requires AnyMatch(users, BySessionId(Some(sessionId)))
    ensures var i := FindFirst(users, BySessionId(Some(sessionId))).value;
      !AnyMatch(UpdateAt(users, ById(users[i].id), [SetSessionId(None)]), BySessionId(Some(sessionId)))
  {
    var i := FindFirst(users, BySessionId(Some(sessionId))).value;
    IdFindsRow(users, i);
    var kwargs := [SetSessionId(None)];
    assert AssignAll(users[i], kwargs) == users[i].(sessionId := None);
  }

  /** `destroy_session` is idempotent: a second call leaves the table as
      the first left it. */
  lemma DestroySessionIdempotent(users: seq<User>, userId: int)
    ensures var once := UpdateAt(users, ById(userId), [SetSessionId(None)]);
      UpdateAt(once, ById(userId), [SetSessionId(None)]) == once
  {
    var kwargs := [SetSessionId(None)];
    match FindFirst(users, ById(userId)) {
      case None =>
      case Some(i) =>
        assert AssignAll(users[i], kwargs) == users[i].(sessionId := None);
        var once := UpdateAt(users, ById(userId), kwargs);
        assert IsFirstMatch(once, ById(userId), i);
        FirstMatchIsFound(once, ById(userId), i);
        assert AssignAll(once[i], kwargs) == once[i];
    }
  }

  /** A reset token is single-use: once `update_password` has consumed it,
      no user holds it, so a second `update_password` with it fails. */
  lemma ResetTokenSingleUse(users: seq<User>, token: Token, hashed: PasswordHash)
    requires TokensDistinct(users)
    ensures var kwargs := [SetHashedPassword(hashed), SetResetToken(None)];
      !AnyMatch(UpdateAt(users, ByResetToken(Some(token)), kwargs), ByResetToken(Some(token)))
  {
    var kwargs := [SetHashedPassword(hashed), SetResetToken(None)];
    match FindFirst(users, ByResetToken(Some(token))) {
      case None =>
      case Some(i) =>
        assert kwargs[..1] == [SetHashedPassword(hashed)] && kwargs[..1][..0] == [];
        assert AssignAll(users[i], kwargs[..1]) == users[i].(hashedPassword := hashed);
        assert AssignAll(users[i], kwargs) == users[i].(hashedPassword := hashed, resetToken := None);
    }
  }

  /** The password-reset flow: `get_reset_password_token` for an email,
      then `update_password` with the token it returned. Afterwards the
      new password logs in, a different old password no longer does, and
      the token is spent. */
  lemma PasswordResetFlow(users: seq<User>, email: string, token: Token,
                          oldPassword: string, newPassword: string, salt: string)
    requires Consistent(users) && TokensDistinct(users) && Fresh(users, token)
    requires AnyMatch(users, ByEmail(email))
    ensures var issued := UpdateAt(users, ByEmail(email), [SetResetToken(Some(token))]);
      var hashed := HashPassword(newPassword, salt);
      var reset := UpdateAt(issued, ByResetToken(Some(token)), [SetHashedPassword(hashed), SetResetToken(None)]);
      && LoginSucceeds(reset, email, newPassword)
      && (oldPassword != newPassword ==> !LoginSucceeds(reset, email, oldPassword))
      && !AnyMatch(reset, ByResetToken(Some(token)))
  {
    var i := FindFirst(users, ByEmail(email)).value;
    var issue := [SetResetToken(Some(token))];
    assert AssignAll(users[i], issue) == users[i].(resetToken := Some(token));
    var issued := UpdateAt(users, ByEmail(email), issue);
    ReplaceKeepsInvariants(users, i, users[i].(resetToken := Some(token)));
    assert IsFirstMatch(issued, ByResetToken(Some(token)), i);
    FirstMatchIsFound(issued, ByResetToken(Some(token)), i);

    var hashed := HashPassword(newPassword, salt);
    var consume := [SetHashedPassword(hashed), SetResetToken(None)];
    assert consume[..1] == [SetHashedPassword(hashed)] && consume[..1][..0] == [];
    assert AssignAll(issued[i], consume[..1]) == issued[i].(hashedPassword := hashed);
    var v := issued[i].(hashedPassword := hashed, resetToken := None);
    assert AssignAll(issued[i], consume) == v;
    var reset := UpdateAt(issued, ByResetToken(Some(token)), consume);
    ReplaceKeepsInvariants(issued, i, v);
    assert reset[i].email == email && CheckPassword(newPassword, reset[i].hashedPassword);
    if oldPassword != newPassword {
      forall j | 0 <= j < |reset| && reset[j].email == email
        ensures !CheckPassword(oldPassword, reset[j].hashedPassword)
      {
        EmailPinsRow(reset, i, j);
      }
    }
    ResetTokenSingleUse(issued, token, hashed);
  }

  /** Registration followed by login: the new user logs in with the
      password it registered and with no other. */
  lemma RegisterThenLogin(users: seq<User>, email: string, password: string, salt: string, other: string)
    requires !AnyMatch(users, ByEmail(email))
    ensures var u := User(NextId(users), email, HashPassword(password, salt), None, None);
      && LoginSucceeds(users + [u], email, password)
      && (other != password ==> !LoginSucceeds(users + [u], email, other))
  {
    var u := User(NextId(users), email, HashPassword(password, salt), None, None);
    var t := users + [u];
    assert t[|users|] == u;
    assert forall j :: 0 <= j < |users| ==> t[j] == users[j];
  }

  class AuthService {
    var db: UserDb

    /** The service commits every write it makes, keeps the database's
        constraints, and hands out each session id and reset token to one
        user only. */
    ghost predicate Valid()
      reads this, db
    {
      db.Valid() && db.session == db.committed && TokensDistinct(db.committed)
    }

    /** `Auth()`: a new store with an empty table. */
    constructor ()
      ensures Valid() && fresh(db) && db.committed == []
    {
      db := new UserDb();
    }

    /** `register_user`: store a new user with a salted hash of the
        password. An email already stored fails with `Duplicate` and the
        table keeps its rows. */
    method RegisterUser(email: string, password: string, salt: string) returns (r: Result<User>)
      requires Valid()
      modifies db
      ensures Valid()
      ensures AnyMatch(old(db.committed), ByEmail(email)) ==>
        r == Err(Duplicate) && db.committed == old(db.committed)
      ensures !AnyMatch(old(db.committed), ByEmail(email)) ==>
        && r.Ok?
        && r.value.email == email
        && CheckPassword(password, r.value.hashedPassword)
        && r.value.sessionId.None? && r.value.resetToken.None?
        && (forall i :: 0 <= i < |old(db.committed)| ==> old(db.committed)[i].id != r.value.id)
        && db.committed == old(db.committed) + [r.value]
    {
      // The outcome of this lookup is discarded: a hit raises a ValueError
      // that the handler of auth.py:50-52 swallows, so the insert runs
      // either way and a duplicate is refused only by the unique-email
      // constraint behind AddUser.
      var existing := db.FindUserBy(ByEmail(email));
      var hashed := HashPassword(password, salt);
      var u := User(NextId(db.session), email, hashed, None, None);
      InsertConsistentIffNewEmail(db.session, u);
      AppendKeepsTokensDistinct(db.committed, u);
      r := db.AddUser(email, hashed);
    }

    /** `valid_login`: true exactly when a user with that email exists and
        the password checks against its hash. Nothing changes. */
    method ValidLogin(email: string, password: string) returns (ok: bool)
      requires Valid()
      ensures ok == LoginSucceeds(db.committed, email, password)
    {
      var found := db.FindUserBy(ByEmail(email));
      if found.Err? {
        ok := false;
      } else {
        var row := found.value;
        ok := CheckPassword(password, db.session[row].hashedPassword);
        forall i | 0 <= i < |db.committed| && db.committed[i].email == email
          ensures i == row
        {
          EmailPinsRow(db.committed, i, row);
        }
      }
    }

    /** `create_session`: store the fresh token as the session id of the
        user with that email and return it; no other column and no other
        user changes. An unknown email returns None and changes nothing. */
    method CreateSession(email: string, token: Token) returns (r: Option<Token>)
      requires Valid() && Fresh(db.committed, token)
      modifies db
      ensures Valid()
      ensures r.Some? <==> AnyMatch(old(db.committed), ByEmail(email))
      ensures r.Some? ==> r.value == token
      ensures db.committed == UpdateAt(old(db.committed), ByEmail(email), [SetSessionId(Some(token))])
    {
      var found := db.FindUserBy(ByEmail(email));
      if found.Err? {
        r := None;
        return;
      }
      var row := found.value;
      FirstMatchIsFound(db.session, ByEmail(email), row);
      ghost var kwargs := [SetSessionId(Some(token))];
      assert AssignAll(db.session[row], kwargs) == db.session[row].(sessionId := Some(token));
      ReplaceKeepsInvariants(db.session, row, db.session[row].(sessionId := Some(token)));
      // auth.py:104-105 writes the attribute and commits, bypassing update_user.
      db.SetAttribute(row, SetSessionId(Some(token)));
      var outcome := db.Commit();
      r := Some(token);
    }

    /** `get_user_from_session_id`: None for a missing session id;
        otherwise the user holding it, who is the only one, or None when
        nobody holds it. Nothing changes. */
    method GetUserFromSessionId(sessionId: Option<Token>) returns (r: Option<User>)
      requires Valid()
      ensures sessionId.None? ==> r.None?
      ensures r.Some? ==> r.value in db.committed && r.value.sessionId == sessionId
      ensures r.Some? ==> forall u :: u in db.committed && u.sessionId == sessionId ==> u == r.value
      ensures sessionId.Some? && r.None? ==> forall u :: u in db.committed ==> u.sessionId != sessionId
    {
      if sessionId.None? {
        return None;
      }
      var found := db.FindUserBy(BySessionId(sessionId));
      if found.Err? {
        r := None;
      } else {
        var row := found.value;
        r := Some(db.session[row]);
        forall u | u in db.committed && u.sessionId == sessionId
          ensures u == db.committed[row]
        {
          var i :| 0 <= i < |db.committed| && db.committed[i] == u;
          SessionIdPinsRow(db.committed, i, row);
        }
      }
    }

    /** `destroy_session`: clear the session id of the user with that id
        and change nothing else. An unknown id fails with `NotFound` and
        changes nothing. */
    method DestroySession(userId: int) returns (r: Outcome)
      requires Valid()
      modifies db
      ensures Valid()
      ensures r == Done <==> AnyMatch(old(db.committed), ById(userId))
      ensures r.Failed? ==> r.error == NotFound
      ensures db.committed == UpdateAt(old(db.committed), ById(userId), [SetSessionId(None)])
    {
      var kwargs := [SetSessionId(None)];
      assert KnownPrefix(kwargs) == 1 && kwargs[..1] == kwargs;
      match FindFirst(db.session, ById(userId)) {
        case None =>
        case Some(row) =>
          assert AssignAll(db.session[row], kwargs) == db.session[row].(sessionId := None);
          ReplaceKeepsInvariants(db.session, row, db.session[row].(sessionId := None));
      }
      r := db.UpdateUser(userId, kwargs);
    }

    /** `get_reset_password_token`: store the fresh token as the reset
        token of the user with that email and return it. An unknown email
        fails with `NotFound` and changes nothing. */
    method GetResetPasswordToken(email: string, token: Token) returns (r: Result<Token>)
      requires Valid() && Fresh(db.committed, token)
      modifies db
      ensures Valid()
      ensures r.Ok? <==> AnyMatch(old(db.committed), ByEmail(email))
      ensures r.Ok? ==> r.value == token
      ensures r.Err? ==> r.error == NotFound
      ensures db.committed == UpdateAt(old(db.committed), ByEmail(email), [SetResetToken(Some(token))])
    {
      var found := db.FindUserBy(ByEmail(email));
      if found.Err? {
        r := Err(NotFound);
        return;
      }
      var row := found.value;
      var user := db.session[row];
      FirstMatchIsFound(db.session, ByEmail(email), row);
      IdFindsRow(db.session, row);
      var kwargs := [SetResetToken(Some(token))];
      assert KnownPrefix(kwargs) == 1 && kwargs[..1] == kwargs;
      assert AssignAll(user, kwargs) == user.(resetToken := Some(token));
      ReplaceKeepsInvariants(db.session, row, user.(resetToken := Some(token)));
      var outcome := db.UpdateUser(user.id, kwargs);
      r := Ok(token);
    }

    /** `update_password`: for the user holding the reset token, store a
        salted hash of the new password and clear the reset token in one
        update. A missing or unknown token fails with `NotFound` and
        changes nothing. */
    method UpdatePassword(resetToken: Option<Token>, newPassword: string, salt: string) returns (r: Outcome)
      requires Valid()
      modifies db
      ensures Valid()
      ensures r == Done <==> resetToken.Some? && AnyMatch(old(db.committed), ByResetToken(resetToken))
      ensures r.Failed? ==> r.error == NotFound
      ensures db.committed == if r == Done
        then UpdateAt(old(db.committed), ByResetToken(resetToken),
                      [SetHashedPassword(HashPassword(newPassword, salt)), SetResetToken(None)])
        else old(db.committed)
    {
      if resetToken.None? {
        r := Failed(NotFound);
        return;
      }
      var found := db.FindUserBy(ByResetToken(resetToken));
      if found.Err? {
        r := Failed(NotFound);
        return;
      }
      var row := found.value;
      var user := db.session[row];
      FirstMatchIsFound(db.session, ByResetToken(resetToken), row);
      IdFindsRow(db.session, row);
      var hashed := HashPassword(newPassword, salt);
      var kwargs := [SetHashedPassword(hashed), SetResetToken(None)];
      assert KnownPrefix(kwargs) == 2 && kwargs[..2] == kwargs;
      assert kwargs[..1] == [SetHashedPassword(hashed)] && kwargs[..1][..0] == [];
      assert AssignAll(user, kwargs[..1]) == user.(hashedPassword := hashed);
      assert AssignAll(user, kwargs) == user.(hashedPassword := hashed, resetToken := None);
      ReplaceKeepsInvariants(db.session, row, user.(hashedPassword := hashed, resetToken := None));
      r := db.UpdateUser(user.id, kwargs);
    }
  }

  /** Clients of the service: what a caller can conclude from the
      contracts alone, following one account through registration, a
      login session and a password reset. */
  method RegistrationScenario()
  {
    var auth := new AuthService();
    var registered := auth.RegisterUser("a@x.com", "pw1", "salt-1");
    assert registered.Ok? && registered.value.email == "a@x.com";
    assert auth.db.committed == [registered.value];

    var again := auth.RegisterUser("a@x.com", "pw2", "salt-2");
    assert Matches(auth.db.committed[0], ByEmail("a@x.com"));
    assert again == Err(Duplicate) && |auth.db.committed| == 1;

    var good := auth.ValidLogin("a@x.com", "pw1");
    var wrong := auth.ValidLogin("a@x.com", "wrong");
    var unknown := auth.ValidLogin("b@x.com", "pw1");
    assert good && !wrong && !unknown;
  }

  method SessionScenario()
  {
    var auth := new AuthService();
    var registered := auth.RegisterUser("a@x.com", "pw1", "salt-1");
    var user := registered.value;
    assert auth.db.committed == [user];

    FirstMatchIsFound(auth.db.committed, ByEmail("a@x.com"), 0);
    var session := auth.CreateSession("a@x.com", "session-1");
    assert AssignAll(user, [SetSessionId(session)]) == user.(sessionId := session);
    assert auth.db.committed == [user.(sessionId := session)];
    var current := auth.GetUserFromSessionId(session);
    assert current == Some(user.(sessionId := session));

    IdFindsRow(auth.db.committed, 0);
    var ended := auth.DestroySession(user.id);
    assert ended == Done;
    assert AssignAll(user.(sessionId := session), [SetSessionId(None)]) == user;
    assert auth.db.committed == [user];
    var gone := auth.GetUserFromSessionId(session);
    assert gone.None?;
  }

  method ResetScenario()
  {
    var auth := new AuthService();
    var registered := auth.RegisterUser("a@x.com", "pw1", "salt-1");
    var user := registered.value;
    assert auth.db.committed == [user];

    FirstMatchIsFound(auth.db.committed, ByEmail("a@x.com"), 0);
    var issued := auth.GetResetPasswordToken("a@x.com", "reset-1");
    assert issued == Ok("reset-1");
    var pending := user.(resetToken := Some("reset-1"));
    assert AssignAll(user, [SetResetToken(Some("reset-1"))]) == pending;
    assert auth.db.committed == [pending];

    FirstMatchIsFound(auth.db.committed, ByResetToken(Some("reset-1")), 0);
    var changed := auth.UpdatePassword(Some("reset-1"), "pw3", "salt-3");
    assert changed == Done;
    var hashed := HashPassword("pw3", "salt-3");
    var kwargs := [SetHashedPassword(hashed), SetResetToken(None)];
    assert kwargs[..1] == [SetHashedPassword(hashed)] && kwargs[..1][..0] == [];
    assert AssignAll(pending, kwargs[..1]) == pending.(hashedPassword := hashed);
    assert AssignAll(pending, kwargs) == user.(hashedPassword := hashed);
    assert auth.db.committed == [user.(hashedPassword := hashed)];

    var reused := auth.UpdatePassword(Some("reset-1"), "pw4", "salt-4");
    assert reused == Failed(NotFound);
    var withNew := auth.ValidLogin("a@x.com", "pw3");
    var withOld := auth.ValidLogin("a@x.com", "pw1");
    assert withNew && !withOld;
  }
}
