/** The authentication service: login, registration, account lookup for the
    password reset, and the password change, each built from the
    repository's operations. */
module AuthService {
  import opened Wrappers
  import opened Hasher
  import opened Store
  import Validation

  const AccountNotFoundMessage := "No account found with this email/username"
  const IncorrectPasswordMessage := "Incorrect password"

  /** The data handed to `FindAccountFunction`: the validated forgot-password form. */
  datatype ForgotPasswordPayload = ForgotPasswordPayload(identifier: string)

  /** What a login returns or throws, given the `users` table it reads. */
  function LoginOutcome(users: seq<UserRow>, identifier: string, password: string, lookupFails: bool): (r: Result<UserRow>)
    ensures r.Err? ==> r.message == AccountNotFoundMessage || r.message == IncorrectPasswordMessage
  {
    match GetUserByIdentifier(users, identifier, lookupFails)
    case None => Err(AccountNotFoundMessage)
    case Some(u) => if Verify(password, u.password_hash) then Ok(u) else Err(IncorrectPasswordMessage)
  }

  /** A login fails with "No account found" exactly when the identifier does
      not resolve, fails with "Incorrect password" exactly when it resolves
      to a row whose hash rejects the password, and otherwise returns that
      row. */
  lemma LoginOutcomeCases(users: seq<UserRow>, identifier: string, password: string, lookupFails: bool)
    ensures var found := GetUserByIdentifier(users, identifier, lookupFails);
      && (LoginOutcome(users, identifier, password, lookupFails) == Err(AccountNotFoundMessage) <==> found.None?)
      && (LoginOutcome(users, identifier, password, lookupFails) == Err(IncorrectPasswordMessage) <==>
            found.Some? && !Verify(password, found.value.password_hash))
      && (LoginOutcome(users, identifier, password, lookupFails).Ok? <==>
            found.Some? && Verify(password, found.value.password_hash))
      && (LoginOutcome(users, identifier, password, lookupFails).Ok? ==>
            found == Some(LoginOutcome(users, identifier, password, lookupFails).value))
  {
    assert AccountNotFoundMessage != IncorrectPasswordMessage by {
      assert AccountNotFoundMessage[0] != IncorrectPasswordMessage[0];
    }
  }

  /** A successful login returns a row of the table whose lookup column is the
      identifier and whose hash accepts the password. */
  lemma LoginSuccessMeansCredentials(users: seq<UserRow>, identifier: string, password: string, lookupFails: bool)
    requires LoginOutcome(users, identifier, password, lookupFails).Ok?
    ensures var u := LoginOutcome(users, identifier, password, lookupFails).value;
      u in users && ColumnValue(u, LookupColumn(identifier)) == identifier && Verify(password, u.password_hash)
  {
  }

  /** `LoginFunction(identifier, password)` at time `now`. On success the
      last-login update and the history insert follow, one after the other;
      their failures are only logged. */
  method LoginFunction(store: AccountStore, identifier: string, password: string, now: Timestamp,
                       lookupFails: bool, lastLoginFails: bool, historyFails: bool)
    returns (r: Result<UserRow>)
    requires store.Valid()
    modifies store
    ensures store.Valid()
    ensures r == LoginOutcome(old(store.users), identifier, password, lookupFails)
    ensures store.users == if r.Ok? && !lastLoginFails then WithLastLogin(old(store.users), r.value.id, now)
                           else old(store.users)
    ensures store.history == if r.Ok? && !historyFails then old(store.history) + [HistoryEntry(r.value.id, now)]
                             else old(store.history)
    ensures store.nextId == old(store.nextId)
  {
    var user := GetUserByIdentifier(store.users, identifier, lookupFails);
    if user.None? {
      return Err(AccountNotFoundMessage);
    }
    if !Verify(password, user.value.password_hash) {
      return Err(IncorrectPasswordMessage);
    }
    store.UpdateLastLogin(user.value.id, now, lastLoginFails);
    store.InsertLoginHistory(user.value.id, now, historyFails);
    r := Ok(user.value);
  }

  /** `RegisterUserFunction(newUserData)`: register and return the new row;
      the repository's error is thrown on. */
  method RegisterUserFunction(store: AccountStore, newUserData: RegistrationPayload, salt: Salt, fault: Option<DbError>)
    returns (r: Result<UserRow>)
    requires store.Valid()
    modifies store
    ensures store.Valid()
    ensures store.history == old(store.history)
    ensures r.Ok? <==> fault.None? && !Conflicts(old(store.users), newUserData.username, newUserData.email)
    ensures r.Ok? ==>
      && r.value == UserRow(old(store.nextId), newUserData.full_name, newUserData.username, newUserData.email,
                            Hash(newUserData.password, salt), None)
      && store.users == old(store.users) + [r.value]
      && store.nextId == old(store.nextId) + 1
    ensures r.Err? ==> store.users == old(store.users) && store.nextId == old(store.nextId)
    ensures r.Err? ==> r.message == if fault.Some? then RegistrationErrorMessage(fault.value)
                                    else UniqueViolationMessage
  {
    r := store.RegisterNewUser(newUserData, salt, fault);
  }

  /** Right after a registration, logging in with the registered password
      returns the new row, by username (which has no `@`) or by email
      (which has one). */
  lemma LoginAfterRegistration(users: seq<UserRow>, id: UserId, payload: RegistrationPayload, salt: Salt)
    requires UniqueKeys(users + [UserRow(id, payload.full_name, payload.username, payload.email, Hash(payload.password, salt), None)])
    ensures var row := UserRow(id, payload.full_name, payload.username, payload.email, Hash(payload.password, salt), None);
      '@' !in payload.username ==> LoginOutcome(users + [row], payload.username, payload.password, false) == Ok(row)
    ensures var row := UserRow(id, payload.full_name, payload.username, payload.email, Hash(payload.password, salt), None);
      '@' in payload.email ==> LoginOutcome(users + [row], payload.email, payload.password, false) == Ok(row)
  {
    var row := UserRow(id, payload.full_name, payload.username, payload.email, Hash(payload.password, salt), None);
    var after := users + [row];
    assert after[|users|] == row;
    if '@' !in payload.username {
      LookupUnderUniqueKeys(after, payload.username, |users|);
    }
    if '@' in payload.email {
      LookupUnderUniqueKeys(after, payload.email, |users|);
    }
  }

  /** `FindAccountFunction(payload)`: resolve the identifier and return the row,
      or throw "No account found". It only reads the store. */
  method FindAccountFunction(store: AccountStore, payload: ForgotPasswordPayload, lookupFails: bool)
    returns (r: Result<UserRow>)
    ensures r.Ok? <==> GetUserByIdentifier(store.users, payload.identifier, lookupFails).Some?
    ensures r.Ok? ==> GetUserByIdentifier(store.users, payload.identifier, lookupFails) == Some(r.value)
    ensures r.Err? ==> r.message == AccountNotFoundMessage
  {
    var data := GetUserByIdentifier(store.users, payload.identifier, lookupFails);
    if data.None? {
      return Err(AccountNotFoundMessage);
    }
    r := Ok(data.value);
  }

  /** Looking an account up twice in a row gives the same answer both times. */
  method FindAccountIsIdempotent(store: AccountStore, payload: ForgotPasswordPayload, lookupFails: bool)
    returns (first: Result<UserRow>, second: Result<UserRow>)
    ensures first == second
    ensures first.Ok? ==> first.value in store.users
  {
    first := FindAccountFunction(store, payload, lookupFails);
    second := FindAccountFunction(store, payload, lookupFails);
  }

  /** `ChangePasswordFunction(payload)`: change the password, throwing the
      repository's error on; a success always yields `true`. */
  method ChangePasswordFunction(store: AccountStore, payload: ChangePasswordPayload, salt: Salt, fault: Option<DbError>)
    returns (r: Result<bool>)
    requires store.Valid()
    modifies store
    ensures store.Valid()
    ensures r == if fault.Some? then Err(fault.value.message) else Ok(true)
    ensures store.users == if fault.Some? then old(store.users)
                           else WithPasswordHash(old(store.users), payload.email, Hash(payload.newPassword, salt))
    ensures store.history == old(store.history) && store.nextId == old(store.nextId)
  {
    r := store.ChangePassword(payload, salt, fault);
  }

  /** After a password change for `email`, every row with that email accepts
      the new password and, when the two keys differ, rejects the old one. */
  lemma ChangedRowsAcceptNewPassword(users: seq<UserRow>, email: string, newPassword: string, oldPassword: string, salt: Salt)
    ensures forall i :: 0 <= i < |users| && users[i].email == email ==>
      Verify(newPassword, WithPasswordHash(users, email, Hash(newPassword, salt))[i].password_hash)
    ensures Key(oldPassword) != Key(newPassword) ==>
      forall i :: 0 <= i < |users| && users[i].email == email ==>
        !Verify(oldPassword, WithPasswordHash(users, email, Hash(newPassword, salt))[i].password_hash)
  {
  }

  /** Once an identifier resolves to a row, changing the password of that
      row's email makes a login with the same identifier return the updated
      row for the new password and reject an old password with a different key. */
  lemma LoginAfterReset(users: seq<UserRow>, identifier: string, u: UserRow, newPassword: string, oldPassword: string, salt: Salt)
    requires GetUserByIdentifier(users, identifier, false) == Some(u)
    ensures LoginOutcome(WithPasswordHash(users, u.email, Hash(newPassword, salt)), identifier, newPassword, false)
         == Ok(u.(password_hash := Hash(newPassword, salt)))
    ensures Key(oldPassword) != Key(newPassword) ==>
      LoginOutcome(WithPasswordHash(users, u.email, Hash(newPassword, salt)), identifier, oldPassword, false)
        == Err(IncorrectPasswordMessage)
  {
    LookupAfterUpdate(users, SetHashOn(u.email, Hash(newPassword, salt)), identifier, false);
  }

  /** A last-login update changes a later login's outcome only by the new
      timestamp on the returned row. */
  lemma LoginAfterLastLoginUpdate(users: seq<UserRow>, identifier: string, password: string, userId: UserId, now: Timestamp)
    ensures LoginOutcome(WithLastLogin(users, userId, now), identifier, password, false)
         == match LoginOutcome(users, identifier, password, false)
            case Ok(u) => Ok(StampLogin(u, userId, now))
            case Err(m) => Err(m)
  {
    LookupAfterUpdate(users, StampLoginOn(userId, now), identifier, false);
  }

  /** Registration admits passwords of up to 100 code units while bcrypt reads
      only 72 bytes, so the registration schema accepts two different
      passwords that one hash verifies alike. */
  lemma RegistrationAdmitsCollidingPasswords(salt: Salt)
    ensures exists p: string, q: string ::
      && p != q
      && 1 <= Validation.JsLength(p) <= 100 && 1 <= Validation.JsLength(q) <= 100
      && Verify(q, Hash(p, salt))
  {
    var a := seq(72, _ => 'a');
    var p, q := a + "x", a + "y";
    assert p[72] != q[72];
    assert Validation.JsLength(p) == |p| by {
      assert forall k :: 0 <= k < |p| ==> p[k] as int <= 0xFFFF;
      Validation.JsLengthOfBmpText(p);
    }
    assert Validation.JsLength(q) == |q| by {
      assert forall k :: 0 <= k < |q| ==> q[k] as int <= 0xFFFF;
      Validation.JsLengthOfBmpText(q);
    }
    assert Verify(q, Hash(p, salt)) by {
      Utf8OfAscii(a);
      Utf8Append(a, "x");
      Utf8Append(a, "y");
      LongPasswordsCollide(p, q, salt);
    }
  }
}
