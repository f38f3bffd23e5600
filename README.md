# Account authentication and credential management — a Dafny model

This project models the authentication core of a small web application. It covers:

- the four input schemas (registration, forgot-password, change-password, login);
- the account repository over the `users` and `login_history` tables;
- the login, registration, account-lookup and password-change services;
- the two-phase password reset held by the forgot-password page.

Files:

- `wrappers.dfy`: `Option` for a value or `null`, and `Result` for a value or a thrown `Error` with its message.
- `hasher.dfy`: bcrypt's `hashSync` and `compareSync`. A hash is a symbolic value made of the cost (10), the salt, and a collision-free digest of the key bcrypt reads: the first 72 bytes of the password's UTF-8 encoding. The encoding is written out and proved injective.
- `validation.dfy`: each zod schema as the list of issues it reports, in zod's checking order. A form is accepted when the list is empty. JavaScript string length is counted in UTF-16 code units. `\s` is ECMAScript's exact WhiteSpace/LineTerminator set. The email pattern of the login schema has a hand-written recogniser, proved equal to the regular expression's language.
- `store.dfy`: the tables as the class `AccountStore`, with a `users` sequence, a `history` sequence and an id counter. It also holds the pure lookup `GetUserByIdentifier` and the column updates as functions on the table.
- `auth_service.dfy`: `LoginFunction`, `RegisterUserFunction`, `FindAccountFunction` and `ChangePasswordFunction` as methods over the store. Lemmas relate them: login after registration, and login after a reset.
- `reset_flow.dfy`: the page state `(isSubmitted, email)` as the class `ForgotPasswordPage`, with its three handlers and an end-to-end reset-then-login method.

Things taken as parameters:

- Whether the backend reports an error on a call: a `bool`, or an `Option<DbError>` where the message matters.
- The bcrypt salt.
- The login timestamp.

Three behaviours of the code that the model keeps as written:

- `LoginFunction` returns the full row, `password_hash` included.
- Email lookup is an exact, case-sensitive match.
- A password change for an email with no row still returns true.

## Model

| member | source | states |
|---|---|---|
| Hasher.Utf8 | src/services/dbHelper.ts:62 | the bytes bcrypt hashes are the UTF-8 encoding of the password, one to four bytes per character |
| Hasher.Utf8Injective | src/services/dbHelper.ts:62 | two passwords with the same encoding are the same password |
| Hasher.Key | src/services/dbHelper.ts:62 | the key bcrypt hashes is the whole UTF-8 encoding when that has at most 72 bytes (always so for passwords of at most 18 characters) and its first 72 bytes otherwise |
| Hasher.Hash | src/services/dbHelper.ts:62 | a hash records cost 10 and its salt, and always verifies the password it was made from |
| Hasher.Verify | src/services/auth.ts:18 | `compareSync` rehashes with the stored cost and salt, so it accepts a password exactly when the stored digest is that of the password's key |
| Hasher.VerifyHashIffSameKey | src/services/auth.ts:18 | `compareSync(q, hashSync(p))` holds iff `q` and `p` have the same 72-byte key, for every salt |
| Hasher.ShortPasswordsDoNotCollide | src/services/auth.ts:18 | for passwords whose UTF-8 encoding has at most 72 bytes, a hash accepts exactly its own password |
| Hasher.LongPasswordsCollide | src/validation/auth.ts:7 | two passwords whose encodings agree on their first 72 bytes verify against each other's hash, however they differ afterwards |
| Hasher.LongPasswordsDifferingEarlyDoNotCollide | src/services/auth.ts:18 | two passwords of at least 72 encoded bytes whose first 72 bytes differ do not verify against each other's hash |
| Hasher.MultiByteTextCollidesBelowSeventyTwoCharacters | src/services/auth.ts:18 | the limit counts bytes: forty Cyrillic letters (80 bytes) and a different forty-character password sharing the first thirty-six verify alike |
| AuthService.RegistrationAdmitsCollidingPasswords | src/validation/auth.ts:7 | registration admits passwords of up to 100 code units, so it accepts two different passwords that one hash verifies alike |
| Validation.JsLength | src/validation/auth.ts:4 | JavaScript length lies between the number of characters and twice that |
| Validation.JsLengthOfBmpText | src/validation/auth.ts:5 | for text in the Basic Multilingual Plane, JavaScript length is the number of characters |
| Validation.IndexOfAt | src/validation/auth.ts:27 | returns the position of the first `@`, or the length when there is none |
| Validation.EmailShapeSound | src/validation/auth.ts:27 | every string the recogniser accepts splits as `[^\s@]+ @ [^\s@]+ . [^\s@]+` |
| Validation.EmailShapeComplete | src/validation/auth.ts:27 | every such split is accepted by the recogniser |
| Validation.EmailShapeIsPattern | src/validation/auth.ts:27 | recogniser and pattern agree in both directions |
| Validation.IsWord | src/validation/auth.ts:5-27 | `/^[a-zA-Z0-9_]+$/.test`, used by the username rule and the login identifier: it holds exactly of non-empty text of `[A-Za-z0-9_]`, so such text has no `@` and no `.` |
| Validation.IsSpace | src/validation/auth.ts:27 | `\s` holds only of characters that are neither word characters nor `@` nor `.` |
| Validation.IsEmailShape | src/validation/auth.ts:27 | an accepted string contains `@` and `.`, has at least five characters, and is not a word |
| Validation.UsernameIssues | src/validation/auth.ts:5 | the username field reports at most its three checks, all on `username` |
| Validation.RegistrationFieldIssues | src/validation/auth.ts:3-8 | the field checks report at most seven issues, none on `confirmPassword` or `identifier` |
| Validation.RegistrationIssues | src/validation/auth.ts:3-12 | registration reports at most eight issues, none on `identifier`; "Passwords do not match" is among them iff the passwords differ |
| Validation.ForgotPasswordIssues | src/validation/auth.ts:14-16 | the forgot-password form reports at most one issue, on `identifier` |
| Validation.ChangePasswordIssues | src/validation/auth.ts:18-24 | change-password reports at most two issues, on `password` or `confirmPassword`; "Passwords do not match" is among them iff the passwords differ |
| Validation.LoginIdentifierIssues | src/validation/auth.ts:27 | the login identifier reports at most two issues, both on `identifier` |
| Validation.LoginIssues | src/validation/auth.ts:26-29 | the login form reports at most three issues, on `identifier` or `password` |
| Validation.UsernameRule | src/validation/auth.ts:5 | a username is accepted iff it has 3 to 20 characters, all in `[A-Za-z0-9_]` |
| Validation.RegistrationRule | src/validation/auth.ts:3-12 | registration is accepted iff full name ≥ 2, the username rule, the email check, password length 1..100 and password = confirmPassword all hold |
| Validation.RegistrationShortFullNameRejected | src/validation/auth.ts:4 | a full name shorter than 2 is rejected with its message on `full_name` |
| Validation.RegistrationMismatchOnConfirm | src/validation/auth.ts:9-12 | differing passwords reject the form; "Passwords do not match" is the only issue on `confirmPassword`, and the only issue at all when the fields are valid |
| Validation.ForgotPasswordRule | src/validation/auth.ts:14-16 | the forgot-password form is accepted iff the identifier is non-empty |
| Validation.ChangePasswordRule | src/validation/auth.ts:18-24 | change-password is accepted iff the password has length ≥ 8 and equals its confirmation; a mismatch is reported on `confirmPassword` |
| Validation.LoginIdentifierRule | src/validation/auth.ts:27 | a login identifier is accepted iff it is non-empty and matches the email pattern or is all `[A-Za-z0-9_]`, with no length bound |
| Validation.LoginRule | src/validation/auth.ts:26-29 | the login form is accepted iff its identifier is and its password is non-empty |
| Validation.LoginIdentifierWithAtIsEmail | src/validation/auth.ts:27 | an accepted login identifier containing `@` matches the email pattern |
| Validation.RegisteredUsernameIsLoginIdentifier | src/validation/auth.ts:5-27 | every accepted registration username is an accepted login identifier without `@` |
| Store.LookupColumn | src/services/dbHelper.ts:16 | the lookup filters on `email` exactly when the identifier contains `@`, otherwise on `username` |
| Store.Matching | src/services/dbHelper.ts:21 | the filter returns only rows of the table whose column equals the value, and every such row |
| Store.GetUserByIdentifier | src/services/dbHelper.ts:13-26 | a found row is in the table with no backend error; its email (identifier with `@`) or username (otherwise) equals the identifier; every matching row equals it |
| Store.LookupFindsSoleMatch | src/services/dbHelper.ts:18-25 | with exactly one matching row and no backend error, the lookup returns that row |
| Store.LookupRejectsAmbiguous | src/services/dbHelper.ts:22-24 | two matching rows make the lookup return null |
| Store.LookupRejectsUnknown | src/services/dbHelper.ts:22-24 | no matching row makes the lookup return null |
| Store.LookupAfterUpdate | src/services/dbHelper.ts:13-26 | an update that keeps both lookup columns changes what a lookup finds only by that same update |
| Store.WithLastLogin | src/services/dbHelper.ts:34-37 | the last-login update keeps the number of rows and every row's id, username and email |
| Store.LastLoginFrame | src/services/dbHelper.ts:34-39 | `updateLastLogin` sets `last_login` on exactly the rows with that id; no other field or row changes |
| Store.WithPasswordHash | src/services/dbHelper.ts:90-93 | the password update keeps the number of rows and every row's id, username and email |
| Store.PasswordHashFrame | src/services/dbHelper.ts:90-93 | the password update sets `password_hash` on exactly the rows with that email; no other field or row changes |
| Store.LookupUnderUniqueKeys | src/services/dbHelper.ts:18-25 | with unique ids, usernames and emails, a lookup finds any matching row |
| Store.AccountStore.Valid | src/services/dbHelper.ts:58-80 | the store invariant every method keeps: ids, usernames and emails are unique, and every id is below the id counter |
| Store.RegistrationErrorMessage | src/services/dbHelper.ts:75-77 | the thrown message is the backend's message, or "Failed to create user" when that is empty |
| Store.AccountStore.UpdateLastLogin | src/services/dbHelper.ts:31-40 | without a backend error the table becomes the last-login update of the old one; with an error nothing changes and nothing is thrown |
| Store.AccountStore.InsertLoginHistory | src/services/dbHelper.ts:45-53 | without a backend error exactly one `(user_id, login_time)` entry is appended; with an error nothing changes and nothing is thrown |
| Store.AccountStore.RegisterNewUser | src/services/dbHelper.ts:58-80 | succeeds iff no backend error and no uniqueness conflict; the row holds name, username, email and `Hash(password)` only, and is appended and returned; on failure nothing is added and the message is thrown |
| Store.AccountStore.ChangePassword | src/services/dbHelper.ts:85-98 | returns true whenever the backend reports no error, also when no row has the email, and sets `Hash(newPassword)` on all rows with that email; an error is thrown and changes nothing |
| AuthService.LoginOutcome | src/services/auth.ts:11-29 | what a login returns given the table it reads; every error it throws is "No account found with this email/username" or "Incorrect password" |
| AuthService.LoginOutcomeCases | src/services/auth.ts:15-19 | "No account found" iff the identifier does not resolve; "Incorrect password" iff it resolves and the hash rejects; success iff it resolves and the hash accepts, returning the looked-up row |
| AuthService.LoginSuccessMeansCredentials | src/services/auth.ts:15-28 | a successful login returns a table row whose lookup column is the identifier and whose hash accepts the password |
| AuthService.LoginFunction | src/services/auth.ts:11-29 | the result depends only on the table before the call; failures change nothing; success stamps `last_login` and appends one history entry for the user, unless those calls fail, which never changes the result |
| AuthService.RegisterUserFunction | src/services/auth.ts:31-38 | succeeds iff no backend error and no uniqueness conflict; returns the appended row and advances the id counter; on failure throws the repository's message (the backend's, "Failed to create user" for an empty one, or the uniqueness violation) and adds nothing; the history is left alone |
| AuthService.LoginAfterRegistration | src/services/dbHelper.ts:58-80 | after an insert that keeps keys unique, login with the registered password returns the new row, by username without `@` or by email with `@` |
| AuthService.FindAccountFunction | src/services/auth.ts:40-49 | returns the lookup's row or throws "No account found with this email/username"; it has no write frame, so it changes nothing |
| AuthService.FindAccountIsIdempotent | src/services/auth.ts:40-49 | two lookups in a row give the same answer, and a found row is in the table |
| AuthService.ChangePasswordFunction | src/services/auth.ts:51-60 | returns true or throws the repository's error, with the repository's table update |
| AuthService.ChangedRowsAcceptNewPassword | src/services/dbHelper.ts:88-93 | after a change for email `e`, every row with email `e` verifies the new password and rejects an old one with a different key |
| AuthService.LoginAfterReset | src/services/auth.ts:51-60 | once an identifier resolves, changing its row's email's password makes login with that identifier succeed with the new password and fail with "Incorrect password" for an old one with a different key |
| AuthService.LoginAfterLastLoginUpdate | src/services/auth.ts:25-28 | a last-login update changes a later login only by the timestamp on the returned row |
| ResetFlow.SpreadWithEmail | src/components/pages/auth/ForgotPassword.tsx:56-59 | the payload's `email` is the captured email, overriding any `email` key of the form data; every other key keeps its value |
| ResetFlow.HookChangePasswordPayload | src/services/dbHelper.ts:88 | the repository's `email` is the payload's `email` and its `newPassword` is the form's `password` |
| ResetFlow.ForgotPasswordPage.constructor | src/components/pages/auth/ForgotPassword.tsx:37 | the page starts in the first phase with the captured email empty |
| ResetFlow.ForgotPasswordPage.OnSubmit | src/components/pages/auth/ForgotPassword.tsx:47-53 | runs on accepted forgot-password input; a found account sets `isSubmitted` and captures the account's email, not the identifier; a failed lookup leaves the state unchanged |
| ResetFlow.ForgotPasswordPage.OnSubmitNewPassword | src/components/pages/auth/ForgotPassword.tsx:55-68 | runs on accepted change-password input; sends the captured email; on success the store holds the new hash for that email and `isSubmitted` is reset but `email` is kept; on failure nothing changes |
| ResetFlow.ForgotPasswordPage.OnBackToLogin | src/components/pages/auth/ForgotPassword.tsx:139 | "Back to login" resets `isSubmitted` |
| ResetFlow.LastLoginKeepsAcceptance | src/services/dbHelper.ts:34-37 | a last-login update keeps which rows with an email accept a password |
| ResetFlow.ResetThenLogin | src/components/pages/auth/ForgotPassword.tsx:47-68 | find then change, with no backend errors: a found account leaves the page back in the first phase holding the account's email, every row with that email accepts the new password, the table keeps its size, and the history grows by one entry per successful login; login with the new password returns the same account and verifies it; an old password with a different key is rejected; an unresolved identifier changes neither table nor the page's state and both logins fail with "No account found"; the id counter never changes |

## Left out

- bcrypt's internals (Blowfish, the cost schedule, the encoding of the hash string) are not modelled. A hash is a symbolic triple. Its digest is collision-free by construction, and one-wayness cannot be stated: the digest holds the key bytes themselves, so the stored hash contains the first 72 bytes of the password's encoding. That no row stores the plaintext holds only in the sense that no row has a password field.
- Hasher.Key: bcryptjs appends a NUL byte to the encoding and reads shorter keys cyclically. For passwords without the character U+0000 this gives the same equal-or-different answer as the first 72 bytes; passwords that contain U+0000 can collide in bcrypt where the model keeps them apart.
- Model strings are sequences of Unicode scalar values, so a lone UTF-16 surrogate, which bcryptjs and JavaScript lengths would treat specially, cannot occur.
- Supabase, the network and async/await are not modelled. Each backend call is one atomic step, and whether it reports an error is a parameter.
- The un-awaited audit calls in `LoginFunction` run one after the other in the model. Their concurrency with the returned promise is not modelled.
- The database schema is not part of this model. The ids, usernames and emails are assumed unique, as the uniqueness constraints the store relies on would make them. This is the `Valid()` invariant, and an insert that would break it fails.
- The uniqueness-violation message is PostgreSQL's standard prefix, without the constraint name, because the schema is not part of this model.
- Row ids come from a counter in the store. The backend's real id generator is not part of this model.
- The foreign key from `login_history.user_id` to `users.id`, if there is one, is not modelled. A history insert never fails for that reason.
- `new Date().toISOString()` becomes a timestamp parameter. The two calls in one login share it.
- `console.error` logging is dropped.
- zod's built-in `.email()` check is the function parameter `isEmail`, because its pattern lives in the library.
- The issue lists follow zod 3: a refinement still runs when a field check has already failed. The library version is not part of this model.
- The form hook (`useCustomHook`) is not part of this model. It is written out as assumed. For `findAccount` and `changePassword` it returns the result, and null on a thrown error.
- The hook is also assumed to hand the form field `password` to the repository as `newPassword` (`HookChangePasswordPayload`). The repository reads `newPassword` while the form supplies `password`.
- The initial value of `isSubmitted` lives in the hook and is taken to be false.
- ResetFlow.ForgotPasswordPage.OnSubmitNewPassword: the two-second timer before `setIsSubmitted(false)` and `navigate('/')` is modelled as taking effect at once.
- The `if (!newUser)` and `if (!result)` checks in `RegisterUserFunction` and `ChangePasswordFunction` cannot fire. The repository either throws or returns a row or true, so those messages never arise.
- The rendering, toasts, routing, form resets, loading flags, the inline rules of the registration page, and the other pages and components are presentation and are left out.
