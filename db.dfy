/** The credential store: class DB of db.py.

    A `UserDb` holds two views of the `users` table. `committed` is the
    table in the database file. `session` is what the memoized SQLAlchemy
    session shows: the committed rows together with the attribute writes
    and inserts it has not committed yet. Lookups see `session`; a commit
    makes `committed` equal to it unless a constraint refuses it.

    A row's position in the table stands for the identity of its mapped
    User object: a lookup returns that position, and writing through it
    changes the row the session holds.

    A miss in `find_user_by` is modelled as the `NotFound` the callers
    expect. As written (db.py:74-79) it is not: NoResultFound is a subclass
    of InvalidRequestError, so the `except InvalidRequestError` re-raises
    every miss as InvalidRequestError, and the `except NoResultFound` of
    `update_user` (db.py:98) never fires. Module AsWritten models that
    behaviour. */
module Db {
  import opened Passwords
  import opened Users

  class UserDb {
    var committed: seq<User>
    var session: seq<User>

    /** The database file always satisfies the schema's constraints. */
    ghost predicate Valid()
      reads this
    {
      Consistent(committed)
    }

    /** `DB()`: the schema is dropped and created again, so the table
        starts empty. */
    constructor ()
      ensures Valid() && committed == [] && session == []
    {
      committed := [];
      session := [];
    }

    /** `Session.commit()`: the database takes every write of the session
        unless one breaks a constraint; then it raises IntegrityError,
        keeps its old rows, and the session's writes stay pending until a
        rollback. */
    method Commit() returns (r: Outcome)
      requires Valid()
      modifies this
      ensures Valid() && session == old(session)
      ensures r == Done <==> Consistent(old(session))
      ensures r.Failed? ==> r.error == Integrity
      ensures committed == if r == Done then old(session) else old(committed)
    {
      if Consistent(session) {
        committed := session;
        r := Done;
      } else {
        r := Failed(Integrity);
      }
    }

    /** `Session.rollback()`: the session forgets its pending writes. */
    method Rollback()
      requires Valid()
      modifies this
      ensures Valid() && session == old(committed) && committed == old(committed)
    {
      session := committed;
    }

    /** `find_user_by` with one keyword: the first row the filter selects.
        Nothing changes. */
    method FindUserBy(f: Filter) returns (r: Result<nat>)
      ensures r.Ok? ==> IsFirstMatch(session, f, r.value)
      ensures r.Err? ==> r.error == NotFound && !AnyMatch(session, f)
    {
      match FindFirst(session, f)
      case None => r := Err(NotFound);
      case Some(i) => r := Ok(i);
    }

    /** `setattr` on the mapped User object at `row`: the write stays in
        the session until the next commit. */
    method SetAttribute(row: nat, k: Kwarg)
      requires Valid() && row < |session| && !k.Unknown?
      modifies this
      ensures Valid() && committed == old(committed)
      ensures session == old(session)[row := Assign(old(session)[row], k)]
    {
      session := session[row := Assign(session[row], k)];
    }

    /** `add_user`: insert a row with the next id, no session and no reset
        token, and commit. When the commit is refused (the email is taken)
        the session is rolled back and the call fails with `Duplicate`, the
        ValueError of db.py:57. */
    method AddUser(email: string, hashedPassword: PasswordHash) returns (r: Result<User>)
      requires Valid()
      modifies this
      ensures Valid()
      ensures var u := User(NextId(old(session)), email, hashedPassword, None, None);
        if Consistent(old(session) + [u]) then
          r == Ok(u) && session == old(session) + [u] && committed == session
        else
          r == Err(Duplicate) && session == old(committed) && committed == old(committed)
    {
      var u := User(NextId(session), email, hashedPassword, None, None);
      session := session + [u];
      var outcome := Commit();
      if outcome.Failed? {
        Rollback();
        r := Err(Duplicate);
      } else {
        r := Ok(u);
      }
    }

    /** `update_user`: find the row by id, then write the keywords one by
        one and commit.
        - No row has the id: `NotFound` (the ValueError of db.py:100) and
          nothing changes.
        - A keyword names no attribute of User: `BadKey` (db.py:94). The
          keywords before it have been written to the session, which keeps
          them pending; nothing is committed.
        - The commit is refused by a constraint: `Integrity`; the writes
          stay pending in the session.
        - Otherwise the writes are committed. */
    method UpdateUser(userId: int, kwargs: seq<Kwarg>) returns (r: Outcome)
      requires Valid()
      modifies this
      ensures Valid()
      ensures !AnyMatch(old(session), ById(userId)) ==>
        r == Failed(NotFound) && session == old(session) && committed == old(committed)
      ensures AnyMatch(old(session), ById(userId)) ==>
        var n := KnownPrefix(kwargs);
        var written := UpdateAt(old(session), ById(userId), kwargs[..n]);
        && session == written
        && r == (if n < |kwargs| then Failed(BadKey)
                 else if Consistent(written) then Done
                 else Failed(Integrity))
        && committed == (if r == Done then written else old(committed))
    {
      var found := FindUserBy(ById(userId));
      if found.Err? {
        r := Failed(NotFound);
        return;
      }
      var row := found.value;
      FirstMatchIsFound(session, ById(userId), row);
      var k := 0;
      while k < |kwargs|
        invariant k <= |kwargs| && AllKnown(kwargs[..k])
        invariant session == old(session)[row := AssignAll(old(session)[row], kwargs[..k])]
        invariant committed == old(committed) && Valid()
      {
        if kwargs[k].Unknown? {
          assert KnownPrefix(kwargs) == k;
          r := Failed(BadKey);
          return;
        }
        SetAttribute(row, kwargs[k]);
        assert kwargs[..k + 1][..k] == kwargs[..k];
        k := k + 1;
      }
      assert kwargs[..k] == kwargs;
      r := Commit();
    }
  }
}
