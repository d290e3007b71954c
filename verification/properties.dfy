/** Properties that relate several calls of the authentication handlers. */
module AuthProperties {
  import opened Wrappers
  import opened Users
  import opened Responses
  import opened Schemas
  import opened Decorators
  import opened Auth

  /** Registering an email twice: the first call inserts the user, the second is refused
      with 409 and inserts no second row. */
  lemma RegisterTwiceConflicts(s: Store, username: string, email: string, password: string,
                               username2: string, password2: string, h: Hasher)
    requires forall i :: 0 <= i < |s| ==> s[i].email != email
    ensures var o1 := Register(s, username, email, password, h);
      && o1.response.Reply? && o1.response.status == 201
      && Register(o1.store, username2, email, password2, h)
         == Outcome(Reply(409, Message(UserExistsMessage)), o1.store, None)
  {
    var o1 := Register(s, username, email, password, h);
    assert o1.store[|s|].email == email;
  }

  /** A freshly registered account cannot log in, even with the right password, until
      it is activated. */
  lemma NewAccountMustBeVerified(s: Store, username: string, email: string, password: string,
                                 h: Hasher, issue: nat -> string)
    requires Sound(h)
    requires forall i :: 0 <= i < |s| ==> s[i].email != email
    ensures var o := Register(s, username, email, password, h);
      Login(o.store, email, password, h, issue).response == Reply(401, Message(NotVerifiedMessage))
  {
    var o := Register(s, username, email, password, h);
    assert FirstWithEmail(o.store, |s|, email);
    assert h.check(password, h.hash(password));
  }

  /** Login does not tell an unknown email from a known one with a wrong password. */
  lemma LoginHidesWhichCredentialFailed(s1: Store, email1: string, password1: string,
                                        s2: Store, email2: string, password2: string, i: int,
                                        h: Hasher, issue: nat -> string)
    requires forall j :: 0 <= j < |s1| ==> s1[j].email != email1
    requires FirstWithEmail(s2, i, email2) && !h.check(password2, s2[i].passwordHash)
    ensures Login(s1, email1, password1, h, issue) == Outcome(Reply(401, Message(BadCredentialsMessage)), s1, None)
    ensures Login(s2, email2, password2, h, issue) == Outcome(Reply(401, Message(BadCredentialsMessage)), s2, None)
  {
  }

  /** A session token is issued exactly when the first row with the email is active and
      accepts the password; the reply then carries only the public view of that row. */
  lemma LoginSucceedsIffActiveAndChecked(s: Store, email: string, password: string, h: Hasher, issue: nat -> string)
    ensures var r := Login(s, email, password, h, issue).response;
      r.Reply? && r.body.LoggedIn? <==>
        exists i :: FirstWithEmail(s, i, email) && h.check(password, s[i].passwordHash) && s[i].isActive
    ensures var r := Login(s, email, password, h, issue).response;
      r.Reply? && r.body.LoggedIn? ==> r.status == 200 && exists i :: 0 <= i < |s| && r.body.user == PublicView(s[i])
  {
    match FindByEmail(s, email)
    case None =>
    case Some(i) =>
      assert FirstWithEmail(s, i, email);
      forall j | FirstWithEmail(s, j, email) ensures j == i { }
  }

  /** The reset request answers every caller with the same bytes. */
  lemma ResetRequestIsGeneric(s1: Store, email1: string, now1: int, token1: string,
                              s2: Store, email2: string, now2: int, token2: string)
    ensures RequestPasswordReset(s1, email1, now1, token1).response
         == RequestPasswordReset(s2, email2, now2, token2).response
  {
  }

  /** Issuing a token that no row holds keeps live tokens unique. */
  lemma ResetRequestKeepsTokensUnique(s: Store, email: string, now: int, newToken: string)
    requires TokensUnique(s)
    requires forall j :: 0 <= j < |s| ==> s[j].verificationToken != Some(newToken)
    ensures TokensUnique(RequestPasswordReset(s, email, now, newToken).store)
  {
    match FindByEmail(s, email)
    case None =>
    case Some(i) =>
      assert FirstWithEmail(s, i, email);
      var t := RequestPasswordReset(s, email, now, newToken).store;
      forall a, b | 0 <= a < b < |t| && t[a].verificationToken.Some?
        ensures t[a].verificationToken != t[b].verificationToken
      {
        if a == i {
          assert t[b] == s[b];
        } else if b == i {
          assert t[a] == s[a];
        } else {
          assert t[a] == s[a] && t[b] == s[b];
        }
      }
  }

  /** Confirming a reset clears only token pairs, so live tokens stay unique. */
  lemma ResetPasswordKeepsTokensUnique(s: Store, token: string, password: string, now: int, h: Hasher)
    requires TokensUnique(s)
    ensures TokensUnique(ResetPassword(s, token, password, now, h).store)
  {
    var t := ResetPassword(s, token, password, now, h).store;
    match FindByToken(s, token)
    case None =>
    case Some(i) =>
      assert FirstWithToken(s, i, token);
      forall a, b | 0 <= a < b < |t| && t[a].verificationToken.Some?
        ensures t[a].verificationToken != t[b].verificationToken
      {
        assert t[a].verificationToken == s[a].verificationToken;
        assert b != i ==> t[b].verificationToken == s[b].verificationToken;
      }
  }

  /** A reset token works once: after a successful confirmation no row holds it, so a
      second confirmation with it is refused as invalid and changes nothing. */
  lemma ResetTokenIsSingleUse(s: Store, token: string, password: string, now: int,
                                                 password2: string, now2: int, h: Hasher)
    requires TokensUnique(s)
    requires ResetPassword(s, token, password, now, h).response == Reply(200, Message(PasswordUpdatedMessage))
    ensures var t := ResetPassword(s, token, password, now, h).store;
      ResetPassword(t, token, password2, now2, h) == Outcome(Reply(400, Message(InvalidTokenMessage)), t, None)
  {
    var t := ResetPassword(s, token, password, now, h).store;
    match FindByToken(s, token)
    case None =>
    case Some(i) =>
      assert FirstWithToken(s, i, token);
      forall j | 0 <= j < |t| ensures t[j].verificationToken != Some(token) {
        if j < i {
          assert t[j] == s[j];
        } else if j > i {
          assert t[j] == s[j];
          assert s[i].verificationToken != s[j].verificationToken;
        }
      }
  }

  /** The expiry comparison is strict: a link is still accepted at its expiry instant
      and refused one second later, with the table unchanged. */
  lemma ExpiryBoundary(s: Store, i: int, token: string, password: string, h: Hasher)
    requires FirstWithToken(s, i, token) && s[i].tokenExpiry.Some?
    ensures ResetPassword(s, token, password, s[i].tokenExpiry.value, h).response
         == Reply(200, Message(PasswordUpdatedMessage))
    ensures ResetPassword(s, token, password, s[i].tokenExpiry.value + 1, h)
         == Outcome(Reply(400, Message(ExpiredMessage)), s, None)
  {
  }

  /** The reset flow end to end for an active account: request a link, confirm it
      within the hour, and afterwards only the new password logs in. */
  lemma ResetFlowReplacesPassword(s: Store, i: int, oldPassword: string, newPassword: string,
                                                     requestedAt: int, confirmedAt: int, newToken: string,
                                                     h: Hasher, issue: nat -> string)
    requires Exact(h)
    requires EmailsUnique(s)
    requires 0 <= i < |s| && s[i].isActive && s[i].passwordHash == h.hash(oldPassword)
    requires oldPassword != newPassword
    requires forall j :: 0 <= j < |s| ==> s[j].verificationToken != Some(newToken)
    requires confirmedAt <= requestedAt + ResetTokenLifetime
    ensures var s1 := RequestPasswordReset(s, s[i].email, requestedAt, newToken).store;
      var o2 := ResetPassword(s1, newToken, newPassword, confirmedAt, h);
      && o2.response == Reply(200, Message(PasswordUpdatedMessage))
      && Login(o2.store, s[i].email, oldPassword, h, issue).response == Reply(401, Message(BadCredentialsMessage))
      && Login(o2.store, s[i].email, newPassword, h, issue).response
         == Reply(200, LoggedIn(LoginOkMessage, issue(s[i].id), PublicView(s[i])))
  {
    var email := s[i].email;
    assert FirstWithEmail(s, i, email);
    var s1 := RequestPasswordReset(s, email, requestedAt, newToken).store;
    assert s1[i].verificationToken == Some(newToken);
    assert FirstWithToken(s1, i, newToken) by {
      forall j | 0 <= j < i ensures s1[j].verificationToken != Some(newToken) {
        assert s1[j] == s[j];
      }
    }
    var s2 := ResetPassword(s1, newToken, newPassword, confirmedAt, h).store;
    assert s2[i].passwordHash == h.hash(newPassword);
    assert FirstWithEmail(s2, i, email) by {
      forall j | 0 <= j < i ensures s2[j].email != email {
        assert s2[j] == s[j];
      }
    }
    assert !h.check(oldPassword, h.hash(newPassword));
    assert h.check(newPassword, h.hash(newPassword));
    assert PublicView(s2[i]) == PublicView(s[i]);
  }

  /** A registered user gets a truthy key, so a request whose bearer token verifies to
      that key reaches the protected handler with the new row. */
  lemma RegisteredUserPassesTokenGuard(s: Store, username: string, email: string, password: string, h: Hasher,
                                       token: string, verify: string -> Option<int>)
    requires IdsUnique(s)
    requires forall i :: 0 <= i < |s| ==> s[i].email != email
    requires token != "" && ' ' !in token
    requires var o := Register(s, username, email, password, h);
      verify(token) == Some(o.store[|s|].id)
    ensures var o := Register(s, username, email, password, h);
      TokenRequired(Some(Join(["Bearer", token], ' ')), verify, o.store) == Pass(Some(o.store[|s|]))
  {
    var o := Register(s, username, email, password, h);
    BearerTokenIsSecondWord(["Bearer", token]);
    var r := FindById(o.store, o.store[|s|].id);
    assert r.Some? && r.value in o.store;
    assert r.value == o.store[|s|] by {
      var k :| 0 <= k < |o.store| && o.store[k] == r.value;
      if k < |s| { assert s[k].id != o.store[|s|].id; }
    }
  }

  /** One request that shows the two reset routes apart: a live token and a valid body
      raise through the route as written and reset the password through the corrected one. */
  lemma ResetRouteCounterexample(h: Hasher, isEmail: string -> bool)
    ensures var s := [User(1, "alice", "a@x.com", "old-hash", true, false, Some("abc"), Some(100))];
      var body := Object(map["password" := Str("secret1")]);
      && ResetRouteAsWritten(s, "abc", body, isEmail, 50, h).response == Uncaught("TypeError")
      && ResetRoute(s, "abc", body, isEmail, 50, h).response == Reply(200, Message(PasswordUpdatedMessage))
      && ResetRoute(s, "abc", body, isEmail, 50, h).store[0].passwordHash == h.hash("secret1")
  {
    var s := [User(1, "alice", "a@x.com", "old-hash", true, false, Some("abc"), Some(100))];
    var body := Object(map["password" := Str("secret1")]);
    ResetSchemaRequirements(body, isEmail);
    assert Conforms(ResetSchema, body, isEmail);
    assert FirstWithToken(s, 0, "abc");
  }
}
