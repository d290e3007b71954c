/** The authentication routes: registration, login, password-reset request and
    password-reset confirmation, each a transition of the user table that also
    produces a reply. Hashing, the clock, token generation and JWT issuance are
    parameters. */
module Auth {
  import opened Wrappers
  import opened Users
  import opened Responses
  import opened Schemas
  import opened Decorators

  /** How long a reset link stays usable: one hour, in seconds. */
  const ResetTokenLifetime: int := 3600

  const UserExistsMessage := "User already exists with this email"
  const RegisteredMessage := "User registered successfully. Please check your email to verify your account."
  const BadCredentialsMessage := "Invalid email or password"
  const NotVerifiedMessage := "Please verify your email before logging in"
  const LoginOkMessage := "Login successful"
  const ResetRequestedMessage := "If your email is registered, you will receive a password reset link"
  const InvalidTokenMessage := "Invalid or expired token"
  const ExpiredMessage := "Password reset link has expired"
  const PasswordUpdatedMessage := "Password updated successfully"

  /** A password-reset email handed to the mail transport. */
  datatype ResetMail = ResetMail(to: string, token: string)

  /** A handler's reply, the table it commits, and the mail it asks to send. */
  datatype Outcome = Outcome(response: Response, store: Store, mail: Option<ResetMail>)

  /** `i` is the first row whose email is `email`. */
  predicate FirstWithEmail(s: Store, i: int, email: string)
  {
    0 <= i < |s| && s[i].email == email && forall j :: 0 <= j < i ==> s[j].email != email
  }

  /** `i` is the first row holding `token`. */
  predicate FirstWithToken(s: Store, i: int, token: string)
  {
    0 <= i < |s| && s[i].verificationToken == Some(token)
    && forall j :: 0 <= j < i ==> s[j].verificationToken != Some(token)
  }

  /** The lookup by email finds exactly the first row with that email. */
  lemma FoundByEmail(s: Store, email: string)
    ensures forall i :: FirstWithEmail(s, i, email) <==> FindByEmail(s, email) == Some(i)
  {
  }

  /** The lookup by token finds exactly the first row holding that token. */
  lemma FoundByToken(s: Store, token: string)
    ensures forall i :: FirstWithToken(s, i, token) <==> FindByToken(s, token) == Some(i)
  {
  }

  /** `register`: refuse a taken email, otherwise insert an inactive user holding the
      hash of the password. */
  function Register(s: Store, username: string, email: string, password: string, h: Hasher): (o: Outcome)
    ensures o.mail.None?
    ensures (exists i :: 0 <= i < |s| && s[i].email == email) ==>
      o == Outcome(Reply(409, Message(UserExistsMessage)), s, None)
    ensures (forall i :: 0 <= i < |s| ==> s[i].email != email) ==>
      && |o.store| == |s| + 1
      && o.store[..|s|] == s
      && o.store[|s|].username == username
      && o.store[|s|].email == email
      && o.store[|s|].passwordHash == h.hash(password)
      && !o.store[|s|].isActive && !o.store[|s|].isAdmin
      && o.store[|s|].verificationToken.None? && o.store[|s|].tokenExpiry.None?
      && o.store[|s|].id >= 1
      && (forall i :: 0 <= i < |s| ==> s[i].id != o.store[|s|].id)
      && o.response == Reply(201, Registered(RegisteredMessage, o.store[|s|].id))
    ensures WellFormed(s) ==> WellFormed(o.store)
    ensures TokensUnique(s) ==> TokensUnique(o.store)
  {
    if FindByEmail(s, email).Some? then
      Outcome(Reply(409, Message(UserExistsMessage)), s, None)
    else
      var u := User(NextId(s), username, email, h.hash(password), false, false, None, None);
      assert (s + [u])[..|s|] == s;
      Outcome(Reply(201, Registered(RegisteredMessage, u.id)), s + [u], None)
  }

  /** `login`: one generic refusal for an unknown email and for a wrong password, a
      distinct refusal for an inactive account, and a session token with the public
      view of the user otherwise. The table is never changed. */
  function Login(s: Store, email: string, password: string, h: Hasher, issue: nat -> string): (o: Outcome)
    ensures o.store == s && o.mail.None?
    ensures (forall i :: 0 <= i < |s| ==> s[i].email != email) ==>
      o.response == Reply(401, Message(BadCredentialsMessage))
    ensures forall i :: FirstWithEmail(s, i, email) ==>
      && (!h.check(password, s[i].passwordHash) ==>
            o.response == Reply(401, Message(BadCredentialsMessage)))
      && (h.check(password, s[i].passwordHash) && !s[i].isActive ==>
            o.response == Reply(401, Message(NotVerifiedMessage)))
      && (h.check(password, s[i].passwordHash) && s[i].isActive ==>
            o.response == Reply(200, LoggedIn(LoginOkMessage, issue(s[i].id), PublicView(s[i]))))
  {
    FoundByEmail(s, email);
    match FindByEmail(s, email)
    case None => Outcome(Reply(401, Message(BadCredentialsMessage)), s, None)
    case Some(i) =>
      var u := s[i];
      if !h.check(password, u.passwordHash) then Outcome(Reply(401, Message(BadCredentialsMessage)), s, None)
      else if !u.isActive then Outcome(Reply(401, Message(NotVerifiedMessage)), s, None)
      else Outcome(Reply(200, LoggedIn(LoginOkMessage, issue(u.id), PublicView(u))), s, None)
  }

  /** `request_password_reset`: the same generic reply whether or not the email is
      known; for a known email, a new token and its expiry replace any previous pair
      on that row and a reset mail is requested after the change is committed. */
  function RequestPasswordReset(s: Store, email: string, now: int, newToken: string): (o: Outcome)
    ensures o.response == Reply(200, Message(ResetRequestedMessage))
    ensures (forall i :: 0 <= i < |s| ==> s[i].email != email) ==> o.store == s && o.mail.None?
    ensures forall i :: FirstWithEmail(s, i, email) ==>
      && o.store == s[i := s[i].(verificationToken := Some(newToken), tokenExpiry := Some(now + ResetTokenLifetime))]
      && o.mail == Some(ResetMail(email, newToken))
    ensures WellFormed(s) ==> WellFormed(o.store)
  {
    FoundByEmail(s, email);
    match FindByEmail(s, email)
    case None => Outcome(Reply(200, Message(ResetRequestedMessage)), s, None)
    case Some(i) =>
      var u := s[i].(verificationToken := Some(newToken), tokenExpiry := Some(now + ResetTokenLifetime));
      UpdateKeepsWellFormed(s, i, u);
      Outcome(Reply(200, Message(ResetRequestedMessage)), s[i := u], Some(ResetMail(u.email, newToken)))
  }

  /** `reset_password`: an unknown token and an expired one are refused with the table
      untouched; a token whose expiry is not before `now` sets the new password hash and
      clears the token pair. A row holding a token without an expiry makes the
      comparison raise. */
  function ResetPassword(s: Store, token: string, password: string, now: int, h: Hasher): (o: Outcome)
    ensures o.mail.None?
    ensures (forall i :: 0 <= i < |s| ==> s[i].verificationToken != Some(token)) ==>
      o == Outcome(Reply(400, Message(InvalidTokenMessage)), s, None)
    ensures forall i :: FirstWithToken(s, i, token) ==>
      && (s[i].tokenExpiry.Some? && s[i].tokenExpiry.value < now ==>
            o == Outcome(Reply(400, Message(ExpiredMessage)), s, None))
      && (s[i].tokenExpiry.Some? && now <= s[i].tokenExpiry.value ==>
            && o.store == s[i := s[i].(passwordHash := h.hash(password), verificationToken := None, tokenExpiry := None)]
            && o.response == Reply(200, Message(PasswordUpdatedMessage)))
      && (s[i].tokenExpiry.None? ==> o == Outcome(Uncaught("TypeError"), s, None))
    ensures AllTokensPaired(s) ==> !o.response.Uncaught?
    ensures WellFormed(s) ==> WellFormed(o.store)
  {
    FoundByToken(s, token);
    match FindByToken(s, token)
    case None => Outcome(Reply(400, Message(InvalidTokenMessage)), s, None)
    case Some(i) =>
      var u := s[i];
      match u.tokenExpiry
      case None => Outcome(Uncaught("TypeError"), s, None)
      case Some(expiry) =>
        if expiry < now then Outcome(Reply(400, Message(ExpiredMessage)), s, None)
        else
          var u' := u.(passwordHash := h.hash(password), verificationToken := None, tokenExpiry := None);
          UpdateKeepsWellFormed(s, i, u');
          Outcome(Reply(200, Message(PasswordUpdatedMessage)), s[i := u'], None)
  }

  /** The register route: `validate_json(UserRegisterSchema)` in front of `register`. */
  function RegisterRoute(s: Store, body: Json, isEmail: string -> bool, h: Hasher): (o: Outcome)
    ensures !Conforms(RegisterSchema, body, isEmail) ==>
      o == Outcome(Reply(400, FieldErrors(Validate(RegisterSchema, body, isEmail))), s, None)
    ensures Conforms(RegisterSchema, body, isEmail) ==>
      && body.Object?
      && "username" in body.fields && "email" in body.fields && "password" in body.fields
      && o == Register(s, body.fields["username"].text, body.fields["email"].text, body.fields["password"].text, h)
  {
    match ValidateJson(RegisterSchema, body, isEmail)
    case Halt(r) => Outcome(r, s, None)
    case Pass(d) =>
      RegisterSchemaRequirements(d, isEmail);
      Register(s, StringField(d, "username"), StringField(d, "email"), StringField(d, "password"), h)
  }

  /** The login route: `validate_json(UserLoginSchema)` in front of `login`. */
  function LoginRoute(s: Store, body: Json, isEmail: string -> bool, h: Hasher, issue: nat -> string): (o: Outcome)
    ensures o.store == s
    ensures !Conforms(LoginSchema, body, isEmail) ==>
      o == Outcome(Reply(400, FieldErrors(Validate(LoginSchema, body, isEmail))), s, None)
    ensures Conforms(LoginSchema, body, isEmail) ==>
      && body.Object? && "email" in body.fields && "password" in body.fields
      && o == Login(s, body.fields["email"].text, body.fields["password"].text, h, issue)
  {
    match ValidateJson(LoginSchema, body, isEmail)
    case Halt(r) => Outcome(r, s, None)
    case Pass(d) =>
      LoginSchemaRequirements(d, isEmail);
      Login(s, StringField(d, "email"), StringField(d, "password"), h, issue)
  }

  /** The reset-request route: `validate_json(PasswordResetRequestSchema)` in front of
      `request_password_reset`. */
  function RequestResetRoute(s: Store, body: Json, isEmail: string -> bool, now: int, newToken: string): (o: Outcome)
    ensures !Conforms(ResetRequestSchema, body, isEmail) ==>
      o == Outcome(Reply(400, FieldErrors(Validate(ResetRequestSchema, body, isEmail))), s, None)
    ensures Conforms(ResetRequestSchema, body, isEmail) ==>
      && body.Object? && "email" in body.fields
      && o == RequestPasswordReset(s, body.fields["email"].text, now, newToken)
  {
    match ValidateJson(ResetRequestSchema, body, isEmail)
    case Halt(r) => Outcome(r, s, None)
    case Pass(d) =>
      ResetRequestSchemaRequirements(d, isEmail);
      RequestPasswordReset(s, StringField(d, "email"), now, newToken)
  }

  /** A value passed to a Python function: the token from the URL or the validated body. */
  datatype Arg = TokenArg(token: string) | DataArg(data: Json)

  /** No name occurs twice, as Python demands of the parameters of a definition. */
  predicate Distinct(names: seq<string>)
  {
    forall i, j :: 0 <= i < j < |names| ==> names[i] != names[j]
  }

  /** The names of keyword arguments, in call order. */
  function KeywordNames(keywords: seq<(string, Arg)>): (r: seq<string>)
    ensures |r| == |keywords|
    ensures forall k :: 0 <= k < |keywords| ==> r[k] == keywords[k].0
  {
    if |keywords| == 0 then [] else [keywords[0].0] + KeywordNames(keywords[1..])
  }

  /** Python's binding of positional, then keyword, arguments to parameter names: too
      many positional arguments, an unknown keyword, a keyword naming a parameter that
      is already bound, or a parameter left unbound raise a TypeError. Otherwise each
      parameter holds the argument given for it. */
  function Bind(params: seq<string>, positional: seq<Arg>, keywords: seq<(string, Arg)>): (r: Result<map<string, Arg>>)
    ensures r.Failure? ==> r.error == "TypeError"
    ensures |positional| > |params| ==> r.Failure?
    ensures forall k :: 0 <= k < |keywords| && keywords[k].0 !in params ==> r.Failure?
    ensures forall i, k ::
      (0 <= i < |positional| && 0 <= i < |params| && 0 <= k < |keywords| && keywords[k].0 == params[i])
      ==> r.Failure?
    ensures r.Success? ==> |positional| <= |params| && r.value.Keys == set i | 0 <= i < |params| :: params[i]
    ensures r.Success? ==> forall k :: 0 <= k < |keywords| ==>
      keywords[k].0 in r.value && r.value[keywords[k].0] == keywords[k].1
    ensures r.Success? && Distinct(params) ==> forall i :: 0 <= i < |positional| && i < |params| ==>
      params[i] in r.value && r.value[params[i]] == positional[i]
    ensures r.Success? && Distinct(params) ==> forall i :: |positional| <= i < |params| ==>
      params[i] in KeywordNames(keywords)
    ensures
      && |positional| <= |params| && Distinct(params) && Distinct(KeywordNames(keywords))
      && (forall k :: 0 <= k < |keywords| ==> keywords[k].0 in params[|positional|..])
      && (forall i :: |positional| <= i < |params| ==> params[i] in KeywordNames(keywords))
      ==> r.Success?
  {
    if |positional| > |params| then Failure("TypeError")
    else
      var bound := BindPositional(params, positional);
      BindCompletes(params, positional, keywords);
      match BindKeywords(params, keywords, bound)
      case Failure(e) => Failure(e)
      case Success(m) =>
        if forall i :: 0 <= i < |params| ==> params[i] in m then
          BoundArguments(params, positional, keywords, m);
          Success(m)
        else Failure("TypeError")
  }

  /** The first `|positional|` parameters bound in order. */
  function BindPositional(params: seq<string>, positional: seq<Arg>): (m: map<string, Arg>)
    requires |positional| <= |params|
    ensures forall i :: 0 <= i < |positional| ==> params[i] in m
    ensures Distinct(params) ==> forall i :: 0 <= i < |positional| ==> m[params[i]] == positional[i]
  {
    if |positional| == 0 then map[]
    else
      var rest := BindPositional(params[1..], positional[1..]);
      assert forall i :: 1 <= i < |positional| ==> params[1..][i - 1] == params[i];
      rest[params[0] := positional[0]]
  }

  /** The keyword arguments bound after the positional ones in `acc`. */
  function BindKeywords(params: seq<string>, keywords: seq<(string, Arg)>, acc: map<string, Arg>): (r: Result<map<string, Arg>>)
    ensures r.Failure? ==> r.error == "TypeError"
    ensures forall k :: 0 <= k < |keywords| && keywords[k].0 in acc ==> r.Failure?
    ensures forall k :: 0 <= k < |keywords| && keywords[k].0 !in params ==> r.Failure?
    ensures r.Success? ==> forall x :: x in r.value <==> x in acc || x in KeywordNames(keywords)
    ensures r.Success? ==> forall x :: x in acc ==> r.value[x] == acc[x]
    ensures r.Success? ==> forall k :: 0 <= k < |keywords| ==>
      keywords[k].0 in r.value && r.value[keywords[k].0] == keywords[k].1
  {
    if |keywords| == 0 then Success(acc)
    else
      var (name, value) := keywords[0];
      if name !in params then Failure("TypeError")
      else if name in acc then Failure("TypeError")
      else
        var r := BindKeywords(params, keywords[1..], acc[name := value]);
        assert forall k :: 1 <= k < |keywords| ==> keywords[1..][k - 1] == keywords[k];
        r
  }

  /** Distinct keywords that each name a parameter not yet bound all bind. */
  lemma {:induction false} KeywordsBind(params: seq<string>, keywords: seq<(string, Arg)>, acc: map<string, Arg>)
    requires forall k :: 0 <= k < |keywords| ==> keywords[k].0 in params && keywords[k].0 !in acc
    requires Distinct(KeywordNames(keywords))
    ensures BindKeywords(params, keywords, acc).Success?
    decreases |keywords|
  {
    if |keywords| > 0 {
      var names := KeywordNames(keywords);
      assert KeywordNames(keywords[1..]) == names[1..];
      forall k | 1 <= k < |keywords| ensures keywords[k].0 != keywords[0].0 {
        assert names[0] != names[k];
      }
      KeywordsBind(params, keywords[1..], acc[keywords[0].0 := keywords[0].1]);
    }
  }

  /** Only the first `|positional|` parameters are bound positionally. */
  lemma {:induction false} PositionalKeys(params: seq<string>, positional: seq<Arg>, x: string)
    requires |positional| <= |params|
    requires x in BindPositional(params, positional)
    ensures exists i :: 0 <= i < |positional| && params[i] == x
    decreases |positional|
  {
    if x != params[0] {
      PositionalKeys(params[1..], positional[1..], x);
      var i :| 0 <= i < |positional| - 1 && params[1..][i] == x;
      assert params[i + 1] == x;
    }
  }

  /** What a complete binding holds: the keys are the parameters, and with distinct
      parameters each positional argument sits under its parameter and every later
      parameter is named by a keyword. */
  lemma BoundArguments(params: seq<string>, positional: seq<Arg>, keywords: seq<(string, Arg)>, m: map<string, Arg>)
    requires |positional| <= |params|
    requires BindKeywords(params, keywords, BindPositional(params, positional)) == Success(m)
    requires forall i :: 0 <= i < |params| ==> params[i] in m
    ensures m.Keys == set i | 0 <= i < |params| :: params[i]
    ensures Distinct(params) ==> forall i :: 0 <= i < |positional| ==> m[params[i]] == positional[i]
    ensures Distinct(params) ==> forall i :: |positional| <= i < |params| ==> params[i] in KeywordNames(keywords)
  {
    forall x | x in m ensures exists i :: 0 <= i < |params| && params[i] == x {
      KeyIsParameter(params, positional, keywords, m, x);
    }
    if Distinct(params) {
      forall i | |positional| <= i < |params| ensures params[i] in KeywordNames(keywords) {
        LaterNamedByKeyword(params, positional, keywords, m, i);
      }
    }
  }

  /** Every key of a binding is a parameter. */
  lemma KeyIsParameter(params: seq<string>, positional: seq<Arg>, keywords: seq<(string, Arg)>, m: map<string, Arg>, x: string)
    requires |positional| <= |params|
    requires BindKeywords(params, keywords, BindPositional(params, positional)) == Success(m)
    requires x in m
    ensures exists i :: 0 <= i < |params| && params[i] == x
  {
    if x in BindPositional(params, positional) {
      PositionalKeys(params, positional, x);
    } else {
      var k :| 0 <= k < |keywords| && KeywordNames(keywords)[k] == x;
      assert x in params;
    }
  }

  /** With distinct parameters, a bound parameter past the positional ones was named by
      a keyword. */
  lemma LaterNamedByKeyword(params: seq<string>, positional: seq<Arg>, keywords: seq<(string, Arg)>, m: map<string, Arg>, i: int)
    requires |positional| <= i < |params| && Distinct(params)
    requires BindKeywords(params, keywords, BindPositional(params, positional)) == Success(m)
    requires params[i] in m
    ensures params[i] in KeywordNames(keywords)
  {
    if params[i] in BindPositional(params, positional) {
      PositionalKeys(params, positional, params[i]);
      assert false;
    }
  }

  /** Distinct keywords that name exactly the parameters past the positional ones bind
      every parameter. */
  lemma BindCompletes(params: seq<string>, positional: seq<Arg>, keywords: seq<(string, Arg)>)
    requires |positional| <= |params|
    ensures
      && Distinct(params) && Distinct(KeywordNames(keywords))
      && (forall k :: 0 <= k < |keywords| ==> keywords[k].0 in params[|positional|..])
      && (forall i :: |positional| <= i < |params| ==> params[i] in KeywordNames(keywords))
      ==> var r := BindKeywords(params, keywords, BindPositional(params, positional));
        r.Success? && forall i :: 0 <= i < |params| ==> params[i] in r.value
  {
    var n := |positional|;
    var bound := BindPositional(params, positional);
    if && Distinct(params) && Distinct(KeywordNames(keywords))
       && (forall k :: 0 <= k < |keywords| ==> keywords[k].0 in params[n..])
    {
      var rest := params[n..];
      forall k | 0 <= k < |keywords| ensures keywords[k].0 in params && keywords[k].0 !in bound {
        var j :| 0 <= j < |rest| && rest[j] == keywords[k].0;
        assert params[n + j] == keywords[k].0;
        if keywords[k].0 in bound {
          PositionalKeys(params, positional, keywords[k].0);
          assert false;
        }
      }
      KeywordsBind(params, keywords, bound);
    }
  }

  /** `reset_password` as declared: the URL token first, the validated body second. */
  const ResetParamsAsWritten: seq<string> := ["token", "validated_data"]
  /** The order `validate_json` can call: the validated body first, the URL token by name. */
  const ResetParams: seq<string> := ["validated_data", "token"]

  /** `validate_json`'s call `f(data, token=token)` of a reset handler declared with
      `params`, and the handler's run when the call binds. The handler runs with the
      token and the body it was given; the final branch, for a binding that hands it
      anything else, is reached by neither declaration (see the last two clauses) and
      stands for no behaviour of the source. */
  function CallReset(params: seq<string>, s: Store, data: Json, token: string, now: int, h: Hasher): (o: Outcome)
    requires data.Object? && "password" in data.fields && data.fields["password"].Str?
    ensures params == ResetParamsAsWritten ==> o == Outcome(Uncaught("TypeError"), s, None)
    ensures params == ResetParams ==> o == ResetPassword(s, token, data.fields["password"].text, now, h)
  {
    assert ResetParamsAsWritten[0] == "token";
    assert params == ResetParams ==> Bind(params, [DataArg(data)], [("token", TokenArg(token))]).Success? by {
      if params == ResetParams {
        assert params[1..] == ["token"];
        assert params[1] == "token";
      }
    }
    match Bind(params, [DataArg(data)], [("token", TokenArg(token))])
    case Failure(e) => Outcome(Uncaught(e), s, None)
    case Success(b) =>
      if "token" in b && "validated_data" in b && b["token"].TokenArg? && b["validated_data"].DataArg?
        && b["validated_data"].data == data
      then ResetPassword(s, b["token"].token, StringField(data, "password"), now, h)
      else Outcome(Uncaught("TypeError"), s, None)
  }

  /** The reset-confirmation route as written: every request that passes validation
      reaches `reset_password` with the body bound to `token` positionally and the URL
      token again by name, which raises; no password is ever reset through it. */
  function ResetRouteAsWritten(s: Store, token: string, body: Json, isEmail: string -> bool, now: int, h: Hasher): (o: Outcome)
    ensures o.store == s && o.mail.None?
    ensures o.response != Reply(200, Message(PasswordUpdatedMessage))
    ensures Conforms(ResetSchema, body, isEmail) ==> o.response == Uncaught("TypeError")
    ensures !Conforms(ResetSchema, body, isEmail) ==>
      o == Outcome(Reply(400, FieldErrors(Validate(ResetSchema, body, isEmail))), s, None)
  {
    match ValidateJson(ResetSchema, body, isEmail)
    case Halt(r) => Outcome(r, s, None)
    case Pass(d) =>
      ResetSchemaRequirements(d, isEmail);
      CallReset(ResetParamsAsWritten, s, d, token, now, h)
  }

  /** The reset-confirmation route with the handler's parameters in the order the
      decorator calls them: a valid body and the URL token reach `reset_password`. */
  function ResetRoute(s: Store, token: string, body: Json, isEmail: string -> bool, now: int, h: Hasher): (o: Outcome)
    ensures !Conforms(ResetSchema, body, isEmail) ==>
      o == Outcome(Reply(400, FieldErrors(Validate(ResetSchema, body, isEmail))), s, None)
    ensures Conforms(ResetSchema, body, isEmail) ==>
      && body.Object? && "password" in body.fields
      && o == ResetPassword(s, token, body.fields["password"].text, now, h)
  {
    match ValidateJson(ResetSchema, body, isEmail)
    case Halt(r) => Outcome(r, s, None)
    case Pass(d) =>
      ResetSchemaRequirements(d, isEmail);
      CallReset(ResetParams, s, d, token, now, h)
  }
}
