/** The account repository: the `users` and `login_history` tables and the
    queries and updates issued against them. The backend is an in-memory
    store; whether it reports an error on a given call is a parameter of
    that call. */
module Store {
  import opened Wrappers
  import opened Hasher

  /** Row identifiers, assigned by the store when a row is inserted. */
  type UserId = nat

  /** An ISO-8601 timestamp, as produced by `new Date().toISOString()`. */
  type Timestamp = string

  /** A row of the `users` table. */
  datatype UserRow = UserRow(
    id: UserId,
    full_name: string,
    username: string,
    email: string,
    password_hash: PasswordHash,
    last_login: Option<Timestamp>)

  /** A row of the `login_history` table. */
  datatype HistoryEntry = HistoryEntry(user_id: UserId, login_time: Timestamp)

  /** The data handed to `registerNewUser`: the validated registration form. */
  datatype RegistrationPayload = RegistrationPayload(
    full_name: string,
    username: string,
    email: string,
    password: string,
    confirmPassword: string)

  /** The data handed to `changePassword`. */
  datatype ChangePasswordPayload = ChangePasswordPayload(email: string, newPassword: string)

  /** An error reported by the backend. */
  datatype DbError = DbError(message: string)

  // ---------------------------------------------------------------------------
  // Lookup by identifier

  /** The column a lookup filters on. */
  datatype Column = EmailColumn | UsernameColumn

  /** An identifier with an `@` is looked up as an email, any other as a username. */
  function LookupColumn(identifier: string): (c: Column)
    ensures c == EmailColumn <==> '@' in identifier
  {
    if '@' in identifier then EmailColumn else UsernameColumn
  }

  function ColumnValue(u: UserRow, c: Column): string {
    match c
    case EmailColumn => u.email
    case UsernameColumn => u.username
  }

  /** The rows whose column `c` equals `v` exactly. How many entries two or
      more matching rows give is stated by `MatchingTwo`. */
  function Matching(users: seq<UserRow>, c: Column, v: string): (m: seq<UserRow>)
    ensures |m| <= |users|
    ensures forall u :: u in m ==> u in users && ColumnValue(u, c) == v
    ensures forall j :: 0 <= j < |users| && ColumnValue(users[j], c) == v ==> users[j] in m
  {
    if users == [] then []
    else
      var rest := Matching(users[1..], c, v);
      assert forall u :: u in users[1..] ==> u in users;
      assert forall j :: 1 <= j < |users| ==> users[j] == users[1..][j - 1];
      (if ColumnValue(users[0], c) == v then [users[0]] else []) + rest
  }

  /** `getUserByIdentifier`: select the rows whose email (identifier with `@`)
      or username (otherwise) equals the identifier and demand a single one.
      A backend error, no match and several matches all give `None`. */
  function GetUserByIdentifier(users: seq<UserRow>, identifier: string, fails: bool): (r: Option<UserRow>)
    ensures r.Some? ==> !fails && r.value in users
    ensures r.Some? && '@' in identifier ==> r.value.email == identifier
    ensures r.Some? && '@' !in identifier ==> r.value.username == identifier
    ensures r.Some? ==>
      forall j :: 0 <= j < |users| && ColumnValue(users[j], LookupColumn(identifier)) == identifier ==>
        users[j] == r.value
  {
    if fails then None
    else
      var m := Matching(users, LookupColumn(identifier), identifier);
      if |m| == 1 then Some(m[0]) else None
  }

  lemma {:induction false} MatchingNone(users: seq<UserRow>, c: Column, v: string)
    requires forall k :: 0 <= k < |users| ==> ColumnValue(users[k], c) != v
    ensures Matching(users, c, v) == []
  {
    if users != [] {
      MatchingNone(users[1..], c, v);
    }
  }

  lemma {:induction false} MatchingSingle(users: seq<UserRow>, c: Column, v: string, j: nat)
    requires j < |users| && ColumnValue(users[j], c) == v
    requires forall k :: 0 <= k < |users| && ColumnValue(users[k], c) == v ==> k == j
    ensures Matching(users, c, v) == [users[j]]
  {
    if j == 0 {
      MatchingNone(users[1..], c, v);
    } else {
      MatchingSingle(users[1..], c, v, j - 1);
    }
  }

  lemma {:induction false} MatchingTwo(users: seq<UserRow>, c: Column, v: string, j: nat, k: nat)
    requires j < k < |users|
    requires ColumnValue(users[j], c) == v && ColumnValue(users[k], c) == v
    ensures |Matching(users, c, v)| >= 2
  {
    if j == 0 {
      assert users[k] == users[1..][k - 1];
      assert users[k] in Matching(users[1..], c, v);
    } else {
      MatchingTwo(users[1..], c, v, j - 1, k - 1);
    }
  }

  /** When exactly one row's lookup column equals the identifier, and the
      backend reports no error, the lookup returns that row. */
  lemma LookupFindsSoleMatch(users: seq<UserRow>, identifier: string, j: nat)
    requires j < |users| && ColumnValue(users[j], LookupColumn(identifier)) == identifier
    requires forall k :: 0 <= k < |users| && ColumnValue(users[k], LookupColumn(identifier)) == identifier ==> k == j
    ensures GetUserByIdentifier(users, identifier, false) == Some(users[j])
  {
    MatchingSingle(users, LookupColumn(identifier), identifier, j);
  }

  /** Two rows matching the identifier make the lookup fail. */
  lemma LookupRejectsAmbiguous(users: seq<UserRow>, identifier: string, j: nat, k: nat)
    requires j < k < |users|
    requires ColumnValue(users[j], LookupColumn(identifier)) == identifier
    requires ColumnValue(users[k], LookupColumn(identifier)) == identifier
    ensures GetUserByIdentifier(users, identifier, false) == None
  {
    MatchingTwo(users, LookupColumn(identifier), identifier, j, k);
  }

  /** No matching row makes the lookup fail. */
  lemma LookupRejectsUnknown(users: seq<UserRow>, identifier: string)
    requires forall k :: 0 <= k < |users| ==> ColumnValue(users[k], LookupColumn(identifier)) != identifier
    ensures GetUserByIdentifier(users, identifier, false) == None
  {
    MatchingNone(users, LookupColumn(identifier), identifier);
  }

  // ---------------------------------------------------------------------------
  // Column updates

  /** The table after applying `f` to every row. */
  function MapRows(users: seq<UserRow>, f: UserRow -> UserRow): (r: seq<UserRow>)
    ensures |r| == |users|
    ensures forall i :: 0 <= i < |users| ==> r[i] == f(users[i])
  {
    if users == [] then [] else [f(users[0])] + MapRows(users[1..], f)
  }

  function OptionMap(o: Option<UserRow>, f: UserRow -> UserRow): Option<UserRow> {
    match o
    case None => None
    case Some(u) => Some(f(u))
  }

  /** A row update that keeps both lookup columns. */
  ghost predicate KeepsLookupColumns(f: UserRow -> UserRow) {
    forall u :: f(u).email == u.email && f(u).username == u.username
  }

  lemma {:induction false} MatchingMapRows(users: seq<UserRow>, f: UserRow -> UserRow, c: Column, v: string)
    requires KeepsLookupColumns(f)
    ensures Matching(MapRows(users, f), c, v) == MapRows(Matching(users, c, v), f)
  {
    if users != [] {
      assert MapRows(users, f)[1..] == MapRows(users[1..], f);
      assert ColumnValue(f(users[0]), c) == ColumnValue(users[0], c);
      MatchingMapRows(users[1..], f, c, v);
    }
  }

  /** An update that keeps the email and username columns changes what a
      lookup finds only by that same update. */
  lemma LookupAfterUpdate(users: seq<UserRow>, f: UserRow -> UserRow, identifier: string, fails: bool)
    requires KeepsLookupColumns(f)
    ensures GetUserByIdentifier(MapRows(users, f), identifier, fails)
         == OptionMap(GetUserByIdentifier(users, identifier, fails), f)
  {
    MatchingMapRows(users, f, LookupColumn(identifier), identifier);
  }

  /** The row after `update({ last_login: now }).eq('id', userId)`. */
  function StampLogin(u: UserRow, userId: UserId, now: Timestamp): UserRow {
    if u.id == userId then u.(last_login := Some(now)) else u
  }

  /** The row after `update({ password_hash: h }).eq('email', email)`. */
  function SetHash(u: UserRow, email: string, h: PasswordHash): UserRow {
    if u.email == email then u.(password_hash := h) else u
  }

  function StampLoginOn(userId: UserId, now: Timestamp): UserRow -> UserRow {
    u => StampLogin(u, userId, now)
  }

  function SetHashOn(email: string, h: PasswordHash): UserRow -> UserRow {
    u => SetHash(u, email, h)
  }

  /** The table after a successful `updateLastLogin(userId)` at time `now`. */
  function WithLastLogin(users: seq<UserRow>, userId: UserId, now: Timestamp): (r: seq<UserRow>)
    ensures |r| == |users|
    ensures forall i :: 0 <= i < |users| ==>
      r[i].id == users[i].id && r[i].username == users[i].username && r[i].email == users[i].email
  {
    MapRows(users, StampLoginOn(userId, now))
  }

  /** The table after a successful password update for `email`. */
  function WithPasswordHash(users: seq<UserRow>, email: string, h: PasswordHash): (r: seq<UserRow>)
    ensures |r| == |users|
    ensures forall i :: 0 <= i < |users| ==>
      r[i].id == users[i].id && r[i].username == users[i].username && r[i].email == users[i].email
  {
    MapRows(users, SetHashOn(email, h))
  }

  /** `updateLastLogin` sets `last_login` on exactly the rows with that id and
      changes no other field of any row. */
  lemma LastLoginFrame(users: seq<UserRow>, userId: UserId, now: Timestamp)
    ensures |WithLastLogin(users, userId, now)| == |users|
    ensures forall i :: 0 <= i < |users| ==>
      WithLastLogin(users, userId, now)[i].(last_login := users[i].last_login) == users[i]
    ensures forall i :: 0 <= i < |users| ==>
      (WithLastLogin(users, userId, now)[i].last_login == Some(now) || users[i].id != userId)
    ensures forall i :: 0 <= i < |users| && users[i].id != userId ==>
      WithLastLogin(users, userId, now)[i] == users[i]
  {
  }

  /** A password update replaces `password_hash` on exactly the rows with
      that email and changes no other field of any row. */
  lemma PasswordHashFrame(users: seq<UserRow>, email: string, h: PasswordHash)
    ensures |WithPasswordHash(users, email, h)| == |users|
    ensures forall i :: 0 <= i < |users| ==>
      WithPasswordHash(users, email, h)[i].(password_hash := users[i].password_hash) == users[i]
    ensures forall i :: 0 <= i < |users| && users[i].email == email ==>
      WithPasswordHash(users, email, h)[i].password_hash == h
    ensures forall i :: 0 <= i < |users| && users[i].email != email ==>
      WithPasswordHash(users, email, h)[i] == users[i]
  {
  }

  // ---------------------------------------------------------------------------
  // Store invariants

  /** No two rows share an id, a username or an email: the uniqueness the
      backend's constraints enforce. */
  ghost predicate UniqueKeys(users: seq<UserRow>) {
    forall i, j :: 0 <= i < j < |users| ==>
      users[i].id != users[j].id && users[i].username != users[j].username && users[i].email != users[j].email
  }

  /** Under the uniqueness constraints, a lookup without a backend error
      finds a row whenever one matches. */
  lemma LookupUnderUniqueKeys(users: seq<UserRow>, identifier: string, j: nat)
    requires UniqueKeys(users)
    requires j < |users| && ColumnValue(users[j], LookupColumn(identifier)) == identifier
    ensures GetUserByIdentifier(users, identifier, false) == Some(users[j])
  {
    assert forall k :: 0 <= k < |users| && ColumnValue(users[k], LookupColumn(identifier)) == identifier ==> k == j;
    LookupFindsSoleMatch(users, identifier, j);
  }

  /** Registering would violate a uniqueness constraint. */
  predicate Conflicts(users: seq<UserRow>, username: string, email: string) {
    exists i :: 0 <= i < |users| && (users[i].username == username || users[i].email == email)
  }

  /** The message of the error the backend reports on a uniqueness violation. */
  const UniqueViolationMessage := "duplicate key value violates unique constraint"

  /** The message `registerNewUser` throws for a backend error. */
  function RegistrationErrorMessage(e: DbError): (m: string)
    ensures m != []
    ensures e.message != [] ==> m == e.message
    ensures e.message == [] ==> m == "Failed to create user"
  {
    if e.message == [] then "Failed to create user" else e.message
  }

  /** The `users` and `login_history` tables. */
  class AccountStore {
    var users: seq<UserRow>
    var history: seq<HistoryEntry>
    /** The id the next inserted row receives. */
    var nextId: UserId

    ghost predicate Valid()
      reads this
    {
      UniqueKeys(users) && forall i :: 0 <= i < |users| ==> users[i].id < nextId
    }

    constructor ()
      ensures Valid()
      ensures users == [] && history == [] && nextId == 0
    {
      users, history, nextId := [], [], 0;
    }

    /** `updateLastLogin(userId)` at time `now`; a backend error is only logged. */
    method UpdateLastLogin(userId: UserId, now: Timestamp, fails: bool)
      requires Valid()
      modifies this`users
      ensures Valid()
      ensures users == if fails then old(users) else WithLastLogin(old(users), userId, now)
    {
      if !fails {
        users := WithLastLogin(users, userId, now);
      }
    }

    /** `insertLoginHistory(userId)` at time `now`; a backend error is only logged. */
    method InsertLoginHistory(userId: UserId, now: Timestamp, fails: bool)
      modifies this`history
      ensures history == if fails then old(history) else old(history) + [HistoryEntry(userId, now)]
    {
      if !fails {
        history := history + [HistoryEntry(userId, now)];
      }
    }

    /** `registerNewUser(payload)`: hash the password with `salt`, insert a row
        of the name, username, email and hash, and return it. `fault` is the
        error the backend reports, if any; a row that would break a
        uniqueness constraint is refused too. On every error nothing is
        inserted and an error is thrown. */
    method RegisterNewUser(payload: RegistrationPayload, salt: Salt, fault: Option<DbError>)
      returns (r: Result<UserRow>)
      requires Valid()
      modifies this`users, this`nextId
      ensures Valid()
      ensures r.Ok? <==> fault.None? && !Conflicts(old(users), payload.username, payload.email)
      ensures r.Ok? ==>
        && r.value == UserRow(old(nextId), payload.full_name, payload.username, payload.email,
                              Hash(payload.password, salt), None)
        && users == old(users) + [r.value]
        && nextId == old(nextId) + 1
      ensures r.Err? ==> users == old(users) && nextId == old(nextId)
      ensures r.Err? && fault.Some? ==> r.message == RegistrationErrorMessage(fault.value)
      ensures r.Err? && fault.None? ==> r.message == UniqueViolationMessage
    {
      var hashed := Hash(payload.password, salt);
      if fault.Some? {
        return Err(RegistrationErrorMessage(fault.value));
      }
      if Conflicts(users, payload.username, payload.email) {
        return Err(RegistrationErrorMessage(DbError(UniqueViolationMessage)));
      }
      var row := UserRow(nextId, payload.full_name, payload.username, payload.email, hashed, None);
      users := users + [row];
      nextId := nextId + 1;
      r := Ok(row);
    }

    /** `changePassword(payload)`: hash the new password with `salt` and set it
        on every row with the payload's email. Returns true whenever the
        backend reports no error, even when no row has that email; a backend
        error is thrown and changes nothing. */
    method ChangePassword(payload: ChangePasswordPayload, salt: Salt, fault: Option<DbError>)
      returns (r: Result<bool>)
      requires Valid()
      modifies this`users
      ensures Valid()
      ensures r == if fault.Some? then Err(fault.value.message) else Ok(true)
      ensures users == if fault.Some? then old(users)
                       else WithPasswordHash(old(users), payload.email, Hash(payload.newPassword, salt))
    {
      var hashed := Hash(payload.newPassword, salt);
      if fault.Some? {
        return Err(fault.value.message);
      }
      users := WithPasswordHash(users, payload.email, hashed);
      r := Ok(true);
    }
  }
}
