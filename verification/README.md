# Authentication routes of a Flask backend, modelled in Dafny

This project models the request-level authentication logic of a small Flask backend:
the four handlers of the `/api/auth` blueprint (`register`, `login`,
`request_password_reset`, `reset_password`), the two request guards that run before
a handler (`token_required` and `validate_json`), and the input schemas those guards
check bodies against.

- The user table is an immutable sequence of rows (`Users.Store`). `filter_by(...).first()`
  is the first matching row in sequence order (`Users.FirstWhere`).
- Each handler is a pure function from a table and its inputs to an `Auth.Outcome`:
  the reply (HTTP status and JSON body, or an exception that escaped), the committed
  table, and the password-reset email it asks the transport to send, if any.
- Everything outside the handlers is a parameter:
  - password hashing and checking (`Users.Hasher`);
  - the current time (`now`, whole seconds);
  - the newly generated reset token (`newToken`);
  - JWT issuance (`issue`) and verification (`verify`);
  - the email-format check of the schema library (`isEmail`).
- Schema validation follows the default behaviour and messages of marshmallow 3. This
  includes refusing fields a schema does not declare.
- `token_required` is modelled down to Python's `str.split(" ")` (`Decorators.Split`),
  and so is the way `validate_json` calls the wrapped handler. For that call the model
  includes Python's argument binding (`Auth.Bind`), because the reset route depends on it.

The modules follow the source files: `Users` (the table and its lookups),
`Responses` (replies and guard decisions), `Schemas` (`app/schemas/user_schema.py`),
`Decorators` (`app/utils/decorators.py`), `Auth` (`app/routes/auth.py`) and
`AuthProperties` (properties relating several handler calls).

Choices the model makes about behaviour the code leaves open:

- Login and reset confirmation act on the first row the query returns (`first()`), not
  on a row known to be unique. The only uniqueness check the model sees is the one in
  `register`. Whether the database also declares the email column unique depends on
  `models.py`, which is not part of this model, so the model does not assume it.
- The expiry check is `token_expiry < now`, so a link is still good at its expiry instant.
- Validation errors are answered before a handler runs. For the reset confirmation
  route, the decorator's call `f(data, token=token)` is made but raises TypeError while
  binding its arguments, so the body of `reset_password` never runs (see Findings).

`models.py` is not part of this model, so the columns' defaults and the key assignment
are assumptions. A new row is taken to be inactive, not an admin, and without a reset
token or expiry. Its key is taken to be one past the largest key in use; only two facts
about the key are used: it is fresh, and it is at least 1.

## Model

| member | source | states |
|---|---|---|
| Users.FirstWhere | app/routes/auth.py:55 | `query.first()` yields the first row that matches the filter, and yields nothing exactly when no row matches |
| Users.FindByEmail | app/routes/auth.py:78 | the email lookup yields the first row with that email, or nothing exactly when no row has it |
| Users.FindByToken | app/routes/auth.py:99 | the token lookup matches a row only on an exactly equal live token; a row whose token is NULL never matches |
| Users.FindById | app/utils/decorators.py:17 | `User.query.get(id)` yields a row of the table carrying that key, or `None` exactly when no row has it |
| Users.NextId | app/routes/auth.py:33-41 | a newly inserted user gets a key of at least 1 that no existing row carries |
| Users.PublicViewExactlyPublicFields | app/schemas/user_schema.py:18-22 | the public user view holds exactly id, username, email and is_admin: two rows have equal views if and only if they agree on those four fields, whatever their hash, token or expiry |
| Schemas.FieldError | app/schemas/user_schema.py:3-16 | a required string or email field reports an error if and only if its value is absent, not a string, too short, or not an email address |
| Schemas.DeclaredErrors | app/schemas/user_schema.py:3-16 | the declared-field errors are keyed by exactly the declared fields whose values are refused |
| Schemas.Validate | app/utils/decorators.py:26 | `schema().validate(data)` is empty if and only if the body is an object that carries every declared field with an accepted value and no other field; for an object body it is keyed by exactly the refused declared fields and the unknown fields; a non-object body gets a whole-body error |
| Schemas.RegisterSchemaRequirements | app/schemas/user_schema.py:3-6 | a registration body is valid if and only if it holds exactly username (at least 1 character), email (an email) and password (at least 6 characters) |
| Schemas.LoginSchemaRequirements | app/schemas/user_schema.py:8-10 | a login body is valid if and only if it holds exactly an email and a password string of any length |
| Schemas.ResetRequestSchemaRequirements | app/schemas/user_schema.py:12-13 | a reset-request body is valid if and only if it holds exactly an email |
| Schemas.ResetSchemaRequirements | app/schemas/user_schema.py:15-16 | a reset-confirmation body is valid if and only if it holds exactly a password of at least 6 characters |
| Schemas.ShortPasswordPassesLoginOnly | app/schemas/user_schema.py:6-10 | a 5-character password passes login validation, but registration refuses it with exactly one error, on the password field |
| Decorators.Split | app/utils/decorators.py:11 | `split(" ")` cuts at every space: the pieces hold no space, there is at least one, and joined with spaces they give back the header |
| Decorators.SplitJoin | app/utils/decorators.py:11 | splitting is the inverse of joining space-free words, so the pieces are uniquely determined by the header |
| Decorators.BearerToken | app/utils/decorators.py:9-11 | with no header there is no token; a header without a space raises IndexError; otherwise the token is a space-free word |
| Decorators.BearerTokenIsSecondWord | app/utils/decorators.py:11 | the token is the second word of the header, and the first word (the scheme) is never checked |
| Decorators.HeaderExamples | app/utils/decorators.py:10-11 | `Basic x` yields the token `x`; `Bearer ` yields the empty token |
| Decorators.TokenRequired | app/utils/decorators.py:6-19 | a missing header, or an empty token, gives 401 "Token is missing"; a falsy verification result gives 401 "Token is invalid or expired"; the handler is called exactly when a non-empty token verifies to a truthy id, and it receives the row with that key (or `None`) |
| Decorators.SchemeOnlyHeaders | app/utils/decorators.py:11-13 | `Bearer ` is refused as a missing token, while `Bearer` (no space) raises IndexError instead of being answered 401 |
| Decorators.TokenRequiredIntended | app/utils/decorators.py:10-13 | the corrected guard never raises: every refusal is a 401, a header without a space counts as a missing token, and every other header is handled as `token_required` (`Decorators.TokenRequired`) handles it |
| Decorators.ValidateJson | app/utils/decorators.py:21-31 | the handler is called if and only if the body conforms to the schema, and it receives the body unchanged; otherwise the reply is 400 carrying exactly the non-empty errors `schema().validate(data)` returned |
| Auth.Register | app/routes/auth.py:22-47 | a taken email gives 409 "User already exists with this email" and leaves the table unchanged; otherwise exactly one row is appended, with the given username and email, the hash of the password, inactive, non-admin and without a token, under a fresh key that the 201 reply returns; earlier rows are unchanged, the table invariants hold and live reset tokens stay unique |
| Auth.Login | app/routes/auth.py:51-72 | the table is never changed; an unknown email and a wrong password both give the same 401 "Invalid email or password"; a correct password on an inactive account gives 401 "Please verify your email before logging in"; only an active account with the right password gets 200 with a token for its key and its public view |
| Auth.RequestPasswordReset | app/routes/auth.py:74-93 | the reply is always the same 200 message; an unknown email changes nothing and sends no mail; for a known email exactly that row's token and expiry are overwritten together, with now plus one hour, and a mail with that token is sent to that email |
| Auth.ResetPassword | app/routes/auth.py:95-114 | a token no row holds gives 400 "Invalid or expired token"; an expiry before now gives 400 "Password reset link has expired"; both leave the table unchanged; otherwise the matched row alone gets the new password hash and has both token and expiry cleared; on a table whose token and expiry are always paired it never raises and the invariants hold |
| Auth.RegisterRoute | app/routes/auth.py:22-24 | an invalid registration body is answered 400 with the validator's errors, without touching the table or sending mail; a valid one runs `register` on its fields |
| Auth.LoginRoute | app/routes/auth.py:51-53 | an invalid login body is answered 400 with the validator's errors; a valid one runs `login` on its fields; the table never changes |
| Auth.RequestResetRoute | app/routes/auth.py:74-76 | an invalid reset-request body is answered 400 with the validator's errors, without touching the table or sending mail; a valid one runs `request_password_reset` on its email |
| Auth.Bind | app/utils/decorators.py:29 | the call `f(data, *args, **kwargs)` raises TypeError on too many positional arguments, an unknown keyword, or a keyword naming a parameter already bound positionally; when it succeeds every parameter is bound, each keyword argument under its name and, for distinct parameters, each positional argument under its parameter; and distinct keywords that name exactly the remaining parameters always bind |
| Auth.ResetRouteAsWritten | app/routes/auth.py:95-97 | as declared, the reset route never resets a password and never changes the table: a valid body always raises TypeError, and an invalid one is answered 400 with the validator's errors |
| Auth.ResetRoute | app/routes/auth.py:95-114 | with the handler's parameters in the order the decorator calls them, an invalid body is answered 400 with the validator's errors and a valid body runs `reset_password` with the URL token and the new password |
| Auth.CallReset | app/routes/auth.py:95-97 | the decorator's call `f(data, token=token)` raises TypeError against `reset_password(token, validated_data)`, and against the handler declared body-first it runs `reset_password` on the URL token and the body's password |
| AuthProperties.RegisterTwiceConflicts | app/routes/auth.py:26-27 | registering the same email twice: the first call answers 201, the second answers 409 and adds no second row |
| AuthProperties.NewAccountMustBeVerified | app/routes/auth.py:62-63 | a freshly registered account is refused at login with the verify-your-email message, even with the right password |
| AuthProperties.LoginHidesWhichCredentialFailed | app/routes/auth.py:58-59 | an unknown email and a known email with a wrong password get the identical 401 reply, and the table is unchanged |
| AuthProperties.LoginSucceedsIffActiveAndChecked | app/routes/auth.py:58-72 | a session token is issued if and only if the first row with the email is active and accepts the password; the reply then carries a public view, never a hash or token |
| AuthProperties.ResetRequestIsGeneric | app/routes/auth.py:81-93 | two reset requests, for any emails and tables, get byte-identical replies |
| AuthProperties.ResetRequestKeepsTokensUnique | app/routes/auth.py:85-88 | issuing a token no row holds keeps every live token held by at most one row |
| AuthProperties.ResetPasswordKeepsTokensUnique | app/routes/auth.py:109-112 | confirming a reset keeps every live token held by at most one row |
| AuthProperties.ResetTokenIsSingleUse | app/routes/auth.py:99-114 | after a successful confirmation, a second confirmation with the same token is refused as invalid and changes nothing |
| AuthProperties.ExpiryBoundary | app/routes/auth.py:105-106 | a link is accepted at its expiry instant and refused one second later, with the table unchanged |
| AuthProperties.ResetFlowReplacesPassword | app/routes/auth.py:74-114 | for an active account, a reset requested and confirmed within the hour succeeds; afterwards the old password gets the generic 401 and the new one logs in |
| AuthProperties.RegisteredUserPassesTokenGuard | app/utils/decorators.py:14-18 | a registered user's key is truthy, so a bearer token that verifies to it reaches the handler with the new row |
| AuthProperties.ResetRouteCounterexample | app/routes/auth.py:95-97 | a live token with a valid body raises through the reset route as written, and resets the password through the corrected route |

## Left out

- Password hashing and checking (werkzeug, `User.set_password`, `User.check_password`) are the abstract `Users.Hasher`. Salting, per-call randomness and constant-time comparison are not modelled. `Sound` and `Exact` state the assumptions that individual lemmas rely on.
- JWT issuance and verification (`generate_token`, `verify_token`) are function parameters. Signing and token lifetime are outside the source files.
- `blacklist_token` is imported by `app/routes/auth.py` but never called in these files, so token revocation is not modelled.
- Reset-token generation (`generate_verification_token`) is the `newToken` parameter. Uniqueness is assumed where a lemma needs it.
- `datetime.utcnow()` is the integer `now`, in seconds. `timedelta(hours=1)` is `ResetTokenLifetime = 3600`.
- Email sending (the SendGrid transport, configuration lookup, URL building and templates) is reduced to a `ResetMail(to, token)` event on the outcome. Whether it was delivered does not affect the reply, as in the source.
- SQLAlchemy sessions and commits: a commit is returning the new table. Database collations are not modelled; email comparison is exact string equality. Concurrent requests are not modelled.
- Marshmallow's email-format check is the abstract `isEmail` predicate. String lengths count characters.
- `request.get_json()` on a request that is not JSON is not modelled. Every body is a JSON value, and a non-object body gets the schema library's whole-body error.
- `verify_token` is taken to return an integer key or `None`. Python truthiness then makes key 0 refused like `None`.
- The application factory (`app/__init__.py`) only wires extensions together and holds no logic.
- Auth.Register: the new row's defaults (inactive, not an admin, no reset token or expiry) and its key (one past the largest in use) are assumptions, because the user model `models.py` is not part of this model; a database-level unique constraint on the email column, if `models.py` declares one, is not modelled either.
- Auth.Bind: a call that passes the same keyword twice is not stated to raise, because a keyword dictionary cannot hold a name twice.
- Decorators.TokenRequired: the handler itself is not modelled. The guard's decision (`Gate`) is what is stated, because no protected route is among these files.

## Findings

| source | as written | input that shows it | evidently intended | confidence | as-written member | corrected member |
|---|---|---|---|---|---|---|
| app/utils/decorators.py:11 | `request.headers['Authorization'].split(" ")[1]` indexes past the end when the header has no space, so the IndexError escapes and the client gets a 500 | `Authorization: Bearer` | answer 401 "Token is missing", as for an absent header | not executed; medium | Decorators.SchemeOnlyHeaders | Decorators.TokenRequiredIntended |
| app/routes/auth.py:97 | `reset_password(token, validated_data)` is called by `validate_json` as `f(data, token=token)`, because Flask passes the URL value by keyword. The body binds to `token` positionally, then the keyword binds it again, which raises "got multiple values for argument 'token'" | POST `/api/auth/password-reset/abc` with body `{"password": "secret1"}` while a row holds `abc` unexpired | the handler receives the validated body and the URL token, and resets the password | not executed; high | AuthProperties.ResetRouteCounterexample | Auth.ResetRoute |
