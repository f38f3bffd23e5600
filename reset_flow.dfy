/** The two-phase password reset of the forgot-password page: find the
    account, then set a new password for the email it resolved to. The page
    keeps the phase (`isSubmitted`) and the captured `email` between the two
    steps. */
module ResetFlow {
  import opened Wrappers
  import opened Hasher
  import opened Store
  import opened AuthService
  import Validation

  /** `{ ...data, email }`: the form data with the `email` key set last, so it
      overrides any `email` the form data carried. */
  function SpreadWithEmail(data: map<string, string>, email: string): (p: map<string, string>)
    ensures "email" in p && p["email"] == email
    ensures p.Keys == data.Keys + {"email"}
    ensures forall k :: k in data && k != "email" ==> p[k] == data[k]
  {
    data["email" := email]
  }

  /** How the form hook turns the page's payload into the repository's
      payload: the form field `password` becomes `newPassword`. */
  function HookChangePasswordPayload(payload: map<string, string>): (p: ChangePasswordPayload)
    requires "email" in payload && "password" in payload
    ensures p.email == payload["email"] && p.newPassword == payload["password"]
  {
    ChangePasswordPayload(payload["email"], payload["password"])
  }

  /** The page's state and its three handlers. */
  class ForgotPasswordPage {
    /** False while waiting for an identifier, true once an account was found. */
    var isSubmitted: bool
    /** The email of the account found in the first phase. */
    var email: string

    constructor ()
      ensures !isSubmitted && email == ""
    {
      isSubmitted, email := false, "";
    }

    /** `onSubmit`: look the account up; on success move to the second phase
        and capture the account's email (not the identifier typed). A failed
        lookup leaves the page as it was. */
    method OnSubmit(store: AccountStore, data: Validation.ForgotPasswordForm, lookupFails: bool)
      returns (found: Option<UserRow>)
      requires Validation.ForgotPasswordAccepted(data)
      modifies this
      ensures found == GetUserByIdentifier(store.users, data.identifier, lookupFails)
      ensures found.Some? ==> isSubmitted && email == found.value.email
      ensures found.None? ==> isSubmitted == old(isSubmitted) && email == old(email)
    {
      var result := FindAccountFunction(store, ForgotPasswordPayload(data.identifier), lookupFails);
      if result.Err? {
        return None;
      }
      isSubmitted := true;
      email := result.value.email;
      found := Some(result.value);
    }

    /** `onSubmitNewPassword`: send the accepted form data with the captured
        email to the password change; on success return to the first phase,
        keeping the captured email. A failed change leaves the page as it was. */
    method OnSubmitNewPassword(store: AccountStore, data: map<string, string>, salt: Salt, fault: Option<DbError>)
      returns (payload: map<string, string>, changed: bool)
      requires "password" in data && "confirmPassword" in data
      requires Validation.ChangePasswordAccepted(Validation.ChangePasswordForm(data["password"], data["confirmPassword"]))
      requires store.Valid()
      modifies this, store
      ensures store.Valid()
      ensures payload == SpreadWithEmail(data, old(email))
      ensures changed <==> fault.None?
      ensures store.users == if changed then WithPasswordHash(old(store.users), old(email), Hash(data["password"], salt))
                             else old(store.users)
      ensures store.history == old(store.history) && store.nextId == old(store.nextId)
      ensures email == old(email)
      ensures isSubmitted == if changed then false else old(isSubmitted)
    {
      payload := SpreadWithEmail(data, email);
      var result := ChangePasswordFunction(store, HookChangePasswordPayload(payload), salt, fault);
      if result.Err? {
        return payload, false;
      }
      isSubmitted := false;
      changed := true;
    }

    /** The "Back to login" button of the second phase. */
    method OnBackToLogin()
      modifies this`isSubmitted
      ensures !isSubmitted
    {
      isSubmitted := false;
    }
  }

  /** Every row with `email` accepts `password`. */
  ghost predicate EmailRowsAccept(users: seq<UserRow>, email: string, password: string) {
    forall i :: 0 <= i < |users| && users[i].email == email ==> Verify(password, users[i].password_hash)
  }

  /** A last-login update keeps every row's email and hash, so it keeps
      which rows accept a password. */
  lemma LastLoginKeepsAcceptance(users: seq<UserRow>, email: string, password: string, userId: UserId, now: Timestamp)
    requires EmailRowsAccept(users, email, password)
    ensures EmailRowsAccept(WithLastLogin(users, userId, now), email, password)
  {
    LastLoginFrame(users, userId, now);
  }

  /** The reset end to end: find the account by `identifier`, change its
      password, then log in with the old and with the new password. With no
      backend errors, the old password is rejected when its key differs from
      the new one, and the new password logs into the same account. */
  method ResetThenLogin(store: AccountStore, page: ForgotPasswordPage, identifier: string,
                        oldPassword: string, newPassword: string, salt: Salt, now: Timestamp)
    returns (found: Option<UserRow>, oldLogin: Result<UserRow>, newLogin: Result<UserRow>)
    requires store.Valid()
    requires identifier != []
    requires Validation.JsLength(newPassword) >= 8
    modifies store, page
    ensures found == GetUserByIdentifier(old(store.users), identifier, false)
    ensures found.Some? ==> newLogin.Ok? && newLogin.value.id == found.value.id
                            && Verify(newPassword, newLogin.value.password_hash)
    ensures found.Some? && Key(oldPassword) != Key(newPassword) ==> oldLogin == Err(IncorrectPasswordMessage)
    ensures found.None? ==> oldLogin == newLogin == Err(AccountNotFoundMessage)
    ensures found.None? ==> store.users == old(store.users) && store.history == old(store.history)
    ensures found.None? ==> page.isSubmitted == old(page.isSubmitted) && page.email == old(page.email)
    ensures found.Some? ==> !page.isSubmitted && page.email == found.value.email
    ensures found.Some? ==> EmailRowsAccept(store.users, found.value.email, newPassword)
    ensures found.Some? ==> |store.users| == |old(store.users)|
    ensures found.Some? ==> |store.history| == |old(store.history)| + (if oldLogin.Ok? then 2 else 1)
    ensures store.nextId == old(store.nextId)
  {
    ghost var before := store.users;
    found := page.OnSubmit(store, Validation.ForgotPasswordForm(identifier), false);
    if found.None? {
      oldLogin := LoginFunction(store, identifier, oldPassword, now, false, false, false);
      newLogin := LoginFunction(store, identifier, newPassword, now, false, false, false);
      return;
    }
    var u := found.value;
    var data := map["password" := newPassword, "confirmPassword" := newPassword];
    assert data["password"] == newPassword && data["confirmPassword"] == newPassword;
    var _, _ := page.OnSubmitNewPassword(store, data, salt, None);
    ghost var after := WithPasswordHash(before, u.email, Hash(newPassword, salt));
    LoginAfterReset(before, identifier, u, newPassword, oldPassword, salt);
    assert store.users == after;
    ChangedRowsAcceptNewPassword(before, u.email, newPassword, oldPassword, salt);
    assert EmailRowsAccept(after, u.email, newPassword);
    ghost var history := store.history;
    oldLogin := LoginFunction(store, identifier, oldPassword, now, false, false, false);
    ghost var afterOld := store.users;
    if oldLogin.Ok? {
      // The first login only stamped `last_login`.
      LoginAfterLastLoginUpdate(after, identifier, newPassword, oldLogin.value.id, now);
      LastLoginKeepsAcceptance(after, u.email, newPassword, oldLogin.value.id, now);
    }
    assert EmailRowsAccept(afterOld, u.email, newPassword);
    assert |store.history| == |history| + (if oldLogin.Ok? then 1 else 0);
    newLogin := LoginFunction(store, identifier, newPassword, now, false, false, false);
    LastLoginKeepsAcceptance(afterOld, u.email, newPassword, newLogin.value.id, now);
  }
}
