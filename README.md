# Account rules of the user-management API, in Dafny

This project models the account-rule layer of a Laravel user-management backend. An administrator creates, lists, reads, updates and deletes the rows of the `users` table. Any authenticated user may change their own name, last name and password. Every answer has the same JSON envelope: `{data, message, status, errors}`.

The model contains:

- **`users` table** (`UserService.UserTable`): a class with three fields.
  - `rows`: a map from primary key to row.
  - `ids`: the keys in insertion order, which is the order of `User::all()`.
  - `nextId`: the auto-increment counter. Ids start at 1 and are never reused.
- **`UserService` operations**: `createUser`, `deleteUser` and `updateUser`/`updateUserFields` are methods that change the table. `getUser` and `getUsers` are functions that read it.
- **`ProfileService`**: `updateData` and `updatePassword` on the acting user's own row. The authenticated user is an explicit `actorId` argument.
- **The two admin form requests**: their `authorize()`, `prepareForValidation()` and declarative `rules()`. The rules are interpreted the way the framework's validator runs them:
  - every rule of an attribute runs, with no bail;
  - a missing or blank value is checked only by `required`, which is the only implicit rule used here;
  - `unique` and `exists` are skipped once the attribute already has a message;
  - messages are the framework's English defaults, with `last_name` shown as "last name".

  Each request has a predicate over the payload and the table: `CreateRulesHold` and `UpdateRulesHold`. The error list is empty exactly when that predicate holds.
- **The envelope helpers** (`helpers.php`) and **the two exception renderers** (`bootstrap/app.php`). These are pure functions.
- **The request lifecycle of POST /users and PUT /users/{id}** (`Controllers`): merge the route id, authorize (403), validate (422), call the service, and render whatever was thrown.
- **The feature tests' situations, replayed (`Scenarios`)**:
  - the seeded admin root user gets id 1;
  - the next create gets id 2;
  - the delete guards fire in the order the tests meet them;
  - the role, required and min-length messages are the ones the tests expect.

Passwords are stored as `Hash(plain)`, an injective datatype constructor whose check is equality. The model does not use bcrypt.

Request values are strings or integers (`Input.Value`). JSON `null` and arrays are not part of the model. Text written to a string column goes through PHP's string conversion (`Input.Text`).

The `integer` rule accepts the text `filter_var(..., FILTER_VALIDATE_INT)` accepts on a string: an optional sign, then `0` or a digit string without a leading zero. `Input.ParseIntRoundTrip` proves that every integer's decimal text passes this rule and parses back to the same integer.

### Behaviour worth knowing

- The update rule for `email` is a plain `email|unique:users`, with no self-exclusion. `AdminUpdateUserDataRequest.OwnEmailIsTaken` proves that an update resending the row's own non-blank email never validates.
- A blank value passes the update request's `nullable` rules, and the update loop (`$user[$key] = $value`) writes it into the column. In the running application the framework's trim and empty-string-to-null middleware first turns it into `null`. `nullable` then skips the other rules, `validated()` keeps the key, and the loop writes `null` instead. So the middleware changes what is written; it does not prevent the write. The middleware and `null` are not part of this model. The lemmas that keep the table's invariants after an update take as a premise that no value the middleware would turn into `null` (no blank value) reaches the update (`Controllers.NoBlankValues`).
- A route segment for PUT /users/{id} that is not blank and is not integer text fails the `integer` rule and gets 422 (`Controllers.NonIntegerRouteIsRejected`). Only a blank segment, which the rules skip, reaches the service and gets 404 (`Controllers.UnparsedRouteIsBlank`).

## Model

| member | source | states |
|---|---|---|
| Accounts.HashCheckAgreesWithHash | backend/tests/Feature/UpdatePasswordTest.php:34-39 | A stored digest checks against the password it was made from and against no other password. |
| Accounts.InsertKeepsInvariants | backend/app/Services/UserService.php:13-17 | Inserting a row under a fresh key, with an email no row has and a known role, keeps every role in {ADMIN, NORMAL} and keeps emails pairwise distinct. |
| Accounts.ReplaceKeepsInvariants | backend/app/Services/UserService.php:103 | Replacing a row keeps both table invariants, as long as its email is unchanged or untaken and it does not give a valid-role row an unknown role. |
| AdminCreateUserRequest.Authorize | backend/app/Http/Requests/AdminCreateUserRequest.php:12-15 | Authorized exactly when an actor is authenticated and its role is ADMIN. |
| AdminCreateUserRequest.CreateErrors | backend/app/Http/Requests/AdminCreateUserRequest.php:22-31 | The field-error list is empty if and only if all five fields are filled in and every rule holds, including email uniqueness against the table. |
| AdminCreateUserRequest.EmailCheck | backend/app/Http/Requests/AdminCreateUserRequest.php:25 | The email field has no errors if and only if it is a filled-in string, a valid email and not the email of any row. |
| AdminCreateUserRequest.TextFieldCheck | backend/app/Http/Requests/AdminCreateUserRequest.php:26-28 | A `required\|min:n\|string` field has no errors if and only if it is a filled-in string of length at least n. |
| AdminCreateUserRequest.RoleCheck | backend/app/Http/Requests/AdminCreateUserRequest.php:29 | The role field has no errors if and only if it is filled in and its text is ADMIN or NORMAL. |
| AdminCreateUserRequest.CreateValidated | backend/app/Http/Controllers/User/CreateUserController.php:14 | The validated data copies the five fields (the role as its text) and satisfies every create rule: valid, untaken email, password of at least 8, names of at least 2, known role. |
| AdminUpdateUserDataRequest.Authorize | backend/app/Http/Requests/AdminUpdateUserDataRequest.php:12-15 | Authorized exactly when an actor is authenticated and its role is ADMIN. |
| AdminUpdateUserDataRequest.PrepareForValidation | backend/app/Http/Requests/AdminUpdateUserDataRequest.php:17-20 | The route segment replaces any `id` in the body; every other field is kept. |
| AdminUpdateUserDataRequest.UpdateErrors | backend/app/Http/Requests/AdminUpdateUserDataRequest.php:27-37 | The field-error list is empty if and only if every field is absent or obeys its rule, the id being integer text of an existing row. |
| AdminUpdateUserDataRequest.IdCheck | backend/app/Http/Requests/AdminUpdateUserDataRequest.php:30 | The id field has no errors if and only if it is absent or integer text, or an integer, naming an existing row. |
| AdminUpdateUserDataRequest.TextFieldCheck | backend/app/Http/Requests/AdminUpdateUserDataRequest.php:31-33 | A `nullable\|min:n\|string` field has no errors if and only if it is absent or a string of length at least n. |
| AdminUpdateUserDataRequest.RoleCheck | backend/app/Http/Requests/AdminUpdateUserDataRequest.php:34 | The role field has no errors if and only if it is absent or ADMIN or NORMAL. |
| AdminUpdateUserDataRequest.EmailCheck | backend/app/Http/Requests/AdminUpdateUserDataRequest.php:35 | The email field has no errors if and only if it is absent or a valid email held by no row at all. |
| AdminUpdateUserDataRequest.UpdateValidated | backend/app/Http/Controllers/User/UpdateUserController.php:14 | The validated fields hold, under each key, exactly the value the payload has for it, and absent keys are missing. |
| AdminUpdateUserDataRequest.OwnEmailIsTaken | backend/app/Http/Requests/AdminUpdateUserDataRequest.php:35 | Sending a row's own non-blank email in its update always fails validation: `unique:users` has no self-exclusion. |
| Controllers.ForbiddenResponse | backend/bootstrap/app.php:29-36 | A failed authorization renders as 403 with message "This action is unauthorized." and that message as the only error. |
| Controllers.ValidCreateKeepsInvariants | backend/app/Http/Controllers/User/CreateUserController.php:12-17 | Inserting the validated data of a passing create keeps roles valid and emails unique. |
| Controllers.ValidUpdateKeepsInvariants | backend/app/Http/Controllers/User/UpdateUserController.php:12-16 | Applying the validated fields of a passing update with no blank values keeps the id, keeps roles valid and keeps emails unique. |
| Controllers.NonIntegerRouteIsRejected | backend/app/Http/Requests/AdminUpdateUserDataRequest.php:30 | A non-blank route segment that is not integer text makes the update invalid, so it is answered 422. |
| Controllers.UnparsedRouteIsBlank | backend/app/Http/Requests/AdminUpdateUserDataRequest.php:17-20 | A route segment that passes validation without being integer text is blank. |
| Controllers.CreateUser | backend/app/Http/Controllers/User/CreateUserController.php:12-17 | Gives 403 with the table unchanged when not authorized, and 422 with the rendered errors and the table unchanged when invalid. Otherwise it inserts one row under the next id and answers 201 "User Created". It always keeps both table invariants. |
| Controllers.UpdateUser | backend/app/Http/Controllers/User/UpdateUserController.php:12-16 | Gives 403 or 422 with the table unchanged. A route segment that passes validation but does not parse is blank and gets 404 with the table unchanged. Otherwise the existing row becomes the update loop's result and the answer is 200 "User Updated". Without blank values it keeps both table invariants. |
| ExceptionRendering.Render | backend/bootstrap/app.php:20-36 | Both envelopes have empty data and the exception's message. A validation error gives 422 and the per-field map. An HTTP error gives its own status and the one-element list of its message. |
| ExceptionRendering.AbortResponse | backend/app/Helpers/helpers.php:15-18 | An `abort(status, message)` reaches the client with that status, that message and `[message]` as errors. |
| ExceptionRendering.SummarizeSingleMessage | backend/bootstrap/app.php:23 | With a single field message, the validation envelope's message is that message. |
| Helpers.JsonResponse | backend/app/Helpers/helpers.php:5-8 | The transport status is the envelope's own status, and the body is the envelope. |
| Helpers.CreateResponseDataDefaults | backend/app/Helpers/helpers.php:10-13 | With no arguments the envelope is empty data, "OK", 200 and no errors. |
| Helpers.CreateResponseDataKeepsArguments | backend/app/Helpers/helpers.php:10-13 | The envelope's four keys are exactly the four arguments. |
| Helpers.ThrowHttpException | backend/app/Helpers/helpers.php:15-18 | Always an error carrying the given status and message. |
| Helpers.ProjectionHidesPassword | backend/app/Helpers/helpers.php:20-34 | The user projection (`ProjectUser`, which `FormatUserData` and the list map both use) does not depend on the password, and each projected field equals the row's field. |
| Helpers.MapArrayFormatUsersData | backend/app/Helpers/helpers.php:25-34 | Length and order are preserved: element i is the projection of row i, field by field. |
| Input.ParseInt | backend/app/Http/Requests/AdminUpdateUserDataRequest.php:30 | A value exists exactly when the text is integer text. |
| Input.ParseIntRoundTrip | backend/app/Http/Requests/AdminUpdateUserDataRequest.php:30 | Every integer's decimal text is integer text and parses back to that integer. |
| ProfileService.UpdateData | backend/app/Services/ProfileService.php:14-36 | Only the actor's name and last name change. Email, password and other rows are kept, and the answer, built by `RespondWithProfileDataUpdated`, is the refreshed row with "Profile Updated", 200. |
| ProfileService.UpdatePassword | backend/app/Services/ProfileService.php:22-41 | Only the actor's digest changes, and it checks against the new password. The answer, built by `RespondWithProfilePasswordUpdated`, is the refreshed row with "Profile Password Updated", 200. |
| Scenarios.InvalidRoleMessage | backend/tests/Feature/AdminCreateUsersTest.php:270-289 | The test's create payload with role "asasas" gives exactly one error entry: role, with "The selected role is invalid."; the other four fields pass. |
| Scenarios.MissingNameMessage | backend/app/Http/Requests/AdminCreateUserRequest.php:27 | A missing name gives exactly "The name field is required.". |
| Scenarios.ShortLastNameMessage | backend/tests/Feature/AdminCreateUsersTest.php:189-207 | A one-letter last name gives exactly the `min` message for the attribute shown as "last name". |
| UserService.Without | backend/app/Services/UserService.php:42 | Removing a key from the insertion order leaves exactly the other keys, still strictly increasing. |
| UserService.ApplyFieldsByKey | backend/app/Services/UserService.php:95-102 | For the loop's fold `ApplyFields` of the step `ApplyField`: after the loop, the id is kept and the password is the digest of the last password given. Every other column holds the last value given for it, and unnamed columns are untouched. |
| UserService.OnlyNameChanges | backend/tests/Feature/AdminUpdateUsersDataTest.php:139-183 | A payload with only `name` changes the name and no other column. |
| UserService.PasswordUpdateVerifies | backend/app/Services/UserService.php:97-98 | After an update with a password, the stored digest checks against that password and no other. |
| UserService.UserTable.Save | backend/app/Services/UserService.php:103 | The stored row under the saved id becomes the given row; nothing else changes. |
| UserService.UserTable.CreateUser | backend/app/Services/UserService.php:13-26 | Exactly one row is added, under the next id, with the hashed password. It is appended to the listing order, and the answer, built by `RespondWithUserCreated`, is 201 "User Created" with the row's projection (`FormatUserData`). |
| UserService.UserTable.DeleteUser | backend/app/Services/UserService.php:28-51 | The guards fire in order: 404 "User not found", then 403 own user, then 403 root admin id 1; each leaves the table unchanged. Otherwise exactly that row goes, the count drops by one, and the answer, built by `RespondWithUserDeleted`, is "User Deleted", 200. |
| UserService.UserTable.GetUser | backend/app/Services/UserService.php:53-67 | Fails with 404 "User not found" exactly when the id has no row. Otherwise it answers, through `RespondWithUserData`, "OK", 200 with that row's projection. |
| UserService.UserTable.GetUsers | backend/app/Services/UserService.php:69-80 | Every row is listed once, in insertion order, projected without its password, with "OK", 200, as `RespondWithUsersList` builds it. |
| UserService.UserTable.UpdateUserFields | backend/app/Services/UserService.php:92-107 | The loop leaves the row equal to the fold of the update step over the fields, saves it and returns the fresh row. |
| UserService.UserTable.UpdateUser | backend/app/Services/UserService.php:82-115 | Fails with 404 and no change exactly when the id has no row. Otherwise the row becomes the fold of the update step, and `RespondWithUserUpdated` answers "User Updated", 200 with its projection. |
| ValidationRules.IdValue | backend/app/Http/Requests/AdminUpdateUserDataRequest.php:30 | An id is produced exactly when the value passes the `integer` rule. |
| ValidationRules.RuleMessages | backend/app/Http/Requests/AdminCreateUserRequest.php:22-31 | Messages are only appended. The result is empty if and only if nothing came before and every rule passes. |
| ValidationRules.AttributeMessages | backend/app/Http/Requests/AdminCreateUserRequest.php:22-31 | No messages if and only if either a missing or blank value has no `required` rule, or a present value passes every rule. |
| ValidationRules.DisplayName | backend/tests/Feature/AdminCreateUsersTest.php:207 | Attribute names are shown with each underscore as a space; a name without underscores is shown unchanged. |
| ValidationRules.Check | backend/bootstrap/app.php:25 | A field contributes an entry to the error map exactly when it has messages, and the entry is keyed by the field's own name. |
| ValidationRules.Selected | backend/app/Http/Controllers/User/UpdateUserController.php:14 | A present field becomes one validated entry under its key; an absent one contributes nothing. |

## Left out

- The ORM and database: `find`, `create`, `save`, `fresh` and `all` are the map operations of `UserTable`. Transactions, timestamps and the other columns are not modelled.
- Password hashing: `Hash` is an injective constructor rather than bcrypt. The User model's password cast is modelled by its effect: `RowOf` stores the digest on insert.
- The authenticated user: `auth()` and `AuthService::getAuthenticatedUser` are the explicit `actor`/`actorId` arguments. Token issuing in AuthService is left out.
- The request classes for delete, get, list, profile data, password change, registration and login are not part of this model. Their authorization and rules are therefore not modelled, and neither is the old-password check. The delete, get and list service operations are modelled directly on the table.
- List authorization: its rule is not in the code that is modelled.
- Password reset: token and email delivery run through a notification library.
- The unrouted controllers and the registration test are left out, because they contradict the current routes. The thin controllers other than create and update, the routes and the frontend are left out too.
- The trim and empty-string-to-null middleware is left out, and so are JSON `null` and array values. Blank strings are instead treated as missing by the rules, as described above.
- ValidationRules.ValidEmail is a stand-in: exactly one `@`, strictly inside the text, and no whitespace. It is not the framework's RFC email validator.
- Input.ParseInt does not model the whitespace trimming or the 64-bit range of `FILTER_VALIDATE_INT`.
- Controllers.UpdateUser: a blank route segment passes validation and is treated as finding no row (404). `User::find` on such text is not modelled further.
- Accounts.EmailTaken compares emails exactly, as under a case-sensitive collation. A case-insensitive database collation, the MySQL default, would also reject a case variant of a taken email, and the model does not capture that.
- ExceptionRendering.Summarize follows the framework's "first message (and N more errors)" summary. Message translation and custom messages are not modelled.
- ProfileService.UpdateData takes only the name and last name. The request that filters the profile payload is not part of this model, so the other keys are dropped before the call.
