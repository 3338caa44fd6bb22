/** The user table of the authentication service: its records, the
    single-attribute filters `find_user_by` accepts, the keyword writes
    `update_user` performs, and the constraints the database enforces.

    The `User` mapping (user.py) is not part of this model. The model
    assumes what the store relies on: `id` is the primary key and `email`
    is declared unique. */
module Users {
  import opened Passwords

  datatype Option<+T> = None | Some(value: T)

  /** How the store and the service fail. */
  datatype Error =
    | NotFound      // no record matches the lookup
    | Duplicate     // add_user: the insert broke the unique-email constraint
    | BadKey        // update_user: a keyword that is not an attribute of User
    | InvalidQuery  // sqlalchemy's InvalidRequestError
    | Integrity     // update_user: the commit broke a constraint (IntegrityError, not caught)
    | WrongArity    // TypeError: a function called with more arguments than it declares

  datatype Result<+T> = Ok(value: T) | Err(error: Error)

  datatype Outcome = Done | Failed(error: Error)

  /** A session id or reset token: the string form of a UUID. */
  type Token = string

  /** One row of the `users` table. */
  datatype User = User(
    id: int,
    email: string,
    hashedPassword: PasswordHash,
    sessionId: Option<Token>,
    resetToken: Option<Token>)

  /** The one keyword argument a lookup is given. A `None` value filters for
      a NULL column, as `filter_by(reset_token=None)` does. */
  datatype Filter =
    | ById(id: int)
    | ByEmail(email: string)
    | BySessionId(sessionId: Option<Token>)
    | ByResetToken(resetToken: Option<Token>)

  predicate Matches(u: User, f: Filter) {
    match f
    case ById(id) => u.id == id
    case ByEmail(email) => u.email == email
    case BySessionId(sessionId) => u.sessionId == sessionId
    case ByResetToken(resetToken) => u.resetToken == resetToken
  }

  ghost predicate AnyMatch(users: seq<User>, f: Filter) {
    exists i :: 0 <= i < |users| && Matches(users[i], f)
  }

  /** Row `i` is the first row the filter selects. */
  ghost predicate IsFirstMatch(users: seq<User>, f: Filter, i: int) {
    && 0 <= i < |users|
    && Matches(users[i], f)
    && forall j :: 0 <= j < i ==> !Matches(users[j], f)
  }

  /** `query(User).filter_by(...).first()`: the position of the first
      matching row, or None when no row matches. */
  function FindFirst(users: seq<User>, f: Filter): (r: Option<nat>)
    ensures r.Some? ==> IsFirstMatch(users, f, r.value)
    ensures r.None? <==> !AnyMatch(users, f)
  {
    if users == [] then None
    else if Matches(users[0], f) then Some(0)
    else
      match FindFirst(users[1..], f)
      case None =>
        assert forall i :: 1 <= i < |users| ==> users[i] == users[1..][i - 1];
        None
      case Some(i) => Some(i + 1)
  }

  /** The first match is the only row that is a first match. */
  lemma FirstMatchIsFound(users: seq<User>, f: Filter, i: int)
    requires IsFirstMatch(users, f, i)
    ensures FindFirst(users, f) == Some(i)
  {
  }

  /** The database's constraints: `id` is the primary key and `email` is
      unique. */
  predicate Consistent(users: seq<User>) {
    forall i, j :: 0 <= i < j < |users| ==>
      users[i].id != users[j].id && users[i].email != users[j].email
  }

  /** Under the primary-key constraint a row's own id selects that row. */
  lemma IdFindsRow(users: seq<User>, i: int)
    requires Consistent(users) && 0 <= i < |users|
    ensures FindFirst(users, ById(users[i].id)) == Some(i)
  {
    FirstMatchIsFound(users, ById(users[i].id), i);
  }

  /** Under the unique-email constraint two rows with one email are one row. */
  lemma EmailPinsRow(users: seq<User>, i: int, j: int)
    requires Consistent(users) && 0 <= i < |users| && 0 <= j < |users|
    requires users[i].email == users[j].email
    ensures i == j
  {
  }

  /** Session ids and reset tokens, when present, are held by one user
      each. */
  ghost predicate TokensDistinct(users: seq<User>) {
    forall i, j :: 0 <= i < j < |users| ==>
      && (users[i].sessionId.Some? ==> users[i].sessionId != users[j].sessionId)
      && (users[i].resetToken.Some? ==> users[i].resetToken != users[j].resetToken)
  }

  /** Under distinct tokens two rows holding one session id are one row. */
  lemma SessionIdPinsRow(users: seq<User>, i: int, j: int)
    requires TokensDistinct(users) && 0 <= i < |users| && 0 <= j < |users|
    requires users[i].sessionId.Some? && users[i].sessionId == users[j].sessionId
    ensures i == j
  {
  }

  /** A token no user holds, as a session id or as a reset token: what
      `uuid.uuid4()` is trusted to produce. */
  ghost predicate Fresh(users: seq<User>, token: Token) {
    forall i :: 0 <= i < |users| ==>
      users[i].sessionId != Some(token) && users[i].resetToken != Some(token)
  }

  /** The id SQLite gives a row inserted without one: one more than the
      largest id in the table, or 1 in an empty table. It is held by no
      row. */
  function NextId(users: seq<User>): (r: int)
    ensures forall i :: 0 <= i < |users| ==> users[i].id < r
    ensures users == [] ==> r == 1
    ensures users != [] ==> exists i :: 0 <= i < |users| && r == users[i].id + 1
  {
    if |users| == 0 then 1
    else if |users| == 1 then users[0].id + 1
    else
      var n := NextId(users[..|users| - 1]);
      var last := users[|users| - 1].id + 1;
      if last > n then last else n
  }

  /** A keyword argument of `update_user`. The first five name the columns
      of User; `Unknown` is a keyword that names no attribute of User. */
  datatype Kwarg =
    | SetId(newId: int)
    | SetEmail(newEmail: string)
    | SetHashedPassword(newHash: PasswordHash)
    | SetSessionId(newSessionId: Option<Token>)
    | SetResetToken(newResetToken: Option<Token>)
    | Unknown(name: string)

  datatype Field = IdField | EmailField | HashField | SessionField | ResetField

  /** The column a known keyword writes. */
  function Target(k: Kwarg): Field
    requires !k.Unknown?
  {
    match k
    case SetId(_) => IdField
    case SetEmail(_) => EmailField
    case SetHashedPassword(_) => HashField
    case SetSessionId(_) => SessionField
    case SetResetToken(_) => ResetField
  }

  predicate AllKnown(ks: seq<Kwarg>) {
    forall j :: 0 <= j < |ks| ==> !ks[j].Unknown?
  }

  /** `setattr(user, key, value)` for a column of User. */
  function Assign(u: User, k: Kwarg): User
    requires !k.Unknown?
  {
    match k
    case SetId(x) => u.(id := x)
    case SetEmail(x) => u.(email := x)
    case SetHashedPassword(x) => u.(hashedPassword := x)
    case SetSessionId(x) => u.(sessionId := x)
    case SetResetToken(x) => u.(resetToken := x)
  }

  /** The keywords written one after the other, in order. */
  function AssignAll(u: User, ks: seq<Kwarg>): User
    requires AllKnown(ks)
  {
    if ks == [] then u
    else Assign(AssignAll(u, ks[..|ks| - 1]), ks[|ks| - 1])
  }

  /** Does `v` hold, in the column `k` writes, the value `k` carries? */
  predicate Carries(v: User, k: Kwarg)
    requires !k.Unknown?
  {
    match k
    case SetId(x) => v.id == x
    case SetEmail(x) => v.email == x
    case SetHashedPassword(x) => v.hashedPassword == x
    case SetSessionId(x) => v.sessionId == x
    case SetResetToken(x) => v.resetToken == x
  }

  predicate SameField(u: User, v: User, fld: Field) {
    match fld
    case IdField => u.id == v.id
    case EmailField => u.email == v.email
    case HashField => u.hashedPassword == v.hashedPassword
    case SessionField => u.sessionId == v.sessionId
    case ResetField => u.resetToken == v.resetToken
  }

  /** A column no keyword names keeps its value. */
  lemma {:induction false} AssignAllKeepsUnnamed(u: User, ks: seq<Kwarg>, fld: Field)
    requires AllKnown(ks)
    requires forall j :: 0 <= j < |ks| ==> Target(ks[j]) != fld
    ensures SameField(u, AssignAll(u, ks), fld)
  {
    if ks != [] {
      var init := ks[..|ks| - 1];
      assert forall j :: 0 <= j < |init| ==> init[j] == ks[j];
      AssignAllKeepsUnnamed(u, init, fld);
    }
  }

  /** A keyword that no later keyword overrides leaves its value in its
      column; with Python's distinct keyword names this is every keyword. */
  lemma {:induction false} AssignAllLastWins(u: User, ks: seq<Kwarg>, j: int)
    requires AllKnown(ks) && 0 <= j < |ks|
    requires forall m :: j < m < |ks| ==> Target(ks[m]) != Target(ks[j])
    ensures Carries(AssignAll(u, ks), ks[j])
  {
    var init := ks[..|ks| - 1];
    if j < |ks| - 1 {
      assert forall m :: 0 <= m < |init| ==> init[m] == ks[m];
      AssignAllLastWins(u, init, j);
    }
  }

  /** Writing only credential columns keeps the row's id and email. */
  lemma {:induction false} AssignAllKeepsKeys(u: User, ks: seq<Kwarg>)
    requires AllKnown(ks)
    requires forall j :: 0 <= j < |ks| ==> !ks[j].SetId? && !ks[j].SetEmail?
    ensures AssignAll(u, ks).id == u.id && AssignAll(u, ks).email == u.email
  {
    if ks != [] {
      var init := ks[..|ks| - 1];
      assert forall j :: 0 <= j < |init| ==> init[j] == ks[j];
      AssignAllKeepsKeys(u, init);
    }
  }

  /** The number of keywords `update_user` writes before it meets one that
      is not an attribute of User. */
  function KnownPrefix(ks: seq<Kwarg>): (n: nat)
    ensures n <= |ks| && AllKnown(ks[..n])
    ensures n < |ks| ==> ks[n].Unknown?
  {
    if ks == [] || ks[0].Unknown? then 0
    else
      var n := 1 + KnownPrefix(ks[1..]);
      assert forall j :: 1 <= j < n ==> ks[..n][j] == ks[1..][..n - 1][j - 1];
      n
  }

  /** The table after the first row the filter selects is rewritten by the
      keywords; the table itself when no row is selected. */
  function UpdateAt(users: seq<User>, f: Filter, ks: seq<Kwarg>): seq<User>
    requires AllKnown(ks)
  {
    match FindFirst(users, f)
    case None => users
    case Some(i) => users[i := AssignAll(users[i], ks)]
  }

  /** Only the selected row changes, and in it only the columns the
      keywords name; the others keep their values. */
  lemma UpdateAtFrame(users: seq<User>, f: Filter, ks: seq<Kwarg>, i: int, fld: Field)
    requires AllKnown(ks) && IsFirstMatch(users, f, i)
    requires forall j :: 0 <= j < |ks| ==> Target(ks[j]) != fld
    ensures |UpdateAt(users, f, ks)| == |users|
    ensures forall j :: 0 <= j < |users| && j != i ==> UpdateAt(users, f, ks)[j] == users[j]
    ensures SameField(users[i], UpdateAt(users, f, ks)[i], fld)
  {
    FirstMatchIsFound(users, f, i);
    AssignAllKeepsUnnamed(users[i], ks, fld);
  }

  /** Rewriting one row without touching its id or email, and giving it
      only its own tokens, none, or tokens nobody holds, keeps every table
      invariant. */
  lemma ReplaceKeepsInvariants(users: seq<User>, i: int, v: User)
    requires Consistent(users) && TokensDistinct(users) && 0 <= i < |users|
    requires v.id == users[i].id && v.email == users[i].email
    requires v.sessionId == users[i].sessionId || v.sessionId.None?
          || (forall j :: 0 <= j < |users| ==> users[j].sessionId != v.sessionId)
    requires v.resetToken == users[i].resetToken || v.resetToken.None?
          || (forall j :: 0 <= j < |users| ==> users[j].resetToken != v.resetToken)
    ensures Consistent(users[i := v]) && TokensDistinct(users[i := v])
  {
  }

  /** The insert of `add_user` keeps the constraints exactly when the email
      is new: the fresh id can never collide. */
  lemma {:induction false} InsertConsistentIffNewEmail(users: seq<User>, u: User)
    requires Consistent(users) && u.id == NextId(users)
    ensures Consistent(users + [u]) <==> !AnyMatch(users, ByEmail(u.email))
  {
    var t := users + [u];
    if AnyMatch(users, ByEmail(u.email)) {
      var i :| 0 <= i < |users| && users[i].email == u.email;
      assert t[i].email == t[|users|].email;
    } else {
      forall i, j | 0 <= i < j < |t|
        ensures t[i].id != t[j].id && t[i].email != t[j].email
      {
        if j == |users| {
          assert t[i] == users[i];
        }
      }
    }
  }

  /** A row holding no token keeps tokens distinct when appended. */
  lemma AppendKeepsTokensDistinct(users: seq<User>, u: User)
    requires TokensDistinct(users) && u.sessionId.None? && u.resetToken.None?
    ensures TokensDistinct(users + [u])
  {
  }
}
