/** The request guards that run before a handler: `token_required` and `validate_json`. */
module Decorators {
  import opened Wrappers
  import opened Users
  import opened Responses
  import opened Schemas

  const TokenMissingMessage := "Token is missing"
  const TokenInvalidMessage := "Token is invalid or expired"

  /** The pieces of `parts` glued back together with `sep` between neighbours. */
  function Join(parts: seq<string>, sep: char): string
    requires |parts| >= 1
  {
    if |parts| == 1 then parts[0] else parts[0] + [sep] + Join(parts[1..], sep)
  }

  /** Python's `s.split(sep)` with an explicit separator: every occurrence of `sep`
      cuts, so neighbouring separators yield empty pieces. */
  function Split(s: string, sep: char): (r: seq<string>)
    ensures |r| >= 1
    ensures forall i :: 0 <= i < |r| ==> sep !in r[i]
    ensures Join(r, sep) == s
  {
    if |s| == 0 then [""]
    else
      var rest := Split(s[1..], sep);
      if s[0] == sep then
        assert ([""] + rest)[1..] == rest;
        [""] + rest
      else
        var r := [[s[0]] + rest[0]] + rest[1..];
        assert r[1..] == rest[1..];
        assert |rest| > 1 ==> Join(rest, sep) == rest[0] + [sep] + Join(rest[1..], sep);
        r
  }

  /** The shape of a join of two or more pieces: the first piece, a separator, the rest. */
  lemma JoinShape(parts: seq<string>, sep: char)
    requires |parts| >= 2
    ensures Join(parts, sep)[..|parts[0]|] == parts[0]
    ensures Join(parts, sep)[|parts[0]|] == sep
    ensures Join(parts, sep)[|parts[0]| + 1..] == Join(parts[1..], sep)
  {
  }

  /** A join of pieces free of the separator contains the separator only if there
      are two or more pieces. */
  lemma JoinSingle(parts: seq<string>, sep: char)
    requires |parts| == 1 && sep !in parts[0]
    ensures sep !in Join(parts, sep)
  {
  }

  /** Splitting is the inverse of joining pieces that do not contain the separator. */
  lemma SplitJoin(parts: seq<string>, sep: char)
    requires |parts| >= 1
    requires forall i :: 0 <= i < |parts| ==> sep !in parts[i]
    ensures Split(Join(parts, sep), sep) == parts
  {
    JoinInjective(parts, Split(Join(parts, sep), sep), sep);
  }

  /** Two separator-free decompositions of one string are the same decomposition. */
  lemma {:induction false} JoinInjective(a: seq<string>, b: seq<string>, sep: char)
    requires |a| >= 1 && |b| >= 1
    requires forall i :: 0 <= i < |a| ==> sep !in a[i]
    requires forall i :: 0 <= i < |b| ==> sep !in b[i]
    requires Join(a, sep) == Join(b, sep)
    ensures a == b
    decreases |a|
  {
    var x := Join(a, sep);
    if |a| == 1 && |b| == 1 {
    } else if |a| == 1 {
      JoinSingle(a, sep);
      JoinShape(b, sep);
      assert false;
    } else if |b| == 1 {
      JoinSingle(b, sep);
      JoinShape(a, sep);
      assert false;
    } else {
      JoinShape(a, sep);
      JoinShape(b, sep);
      SeparatorFreePrefix(a[0], x, sep);
      SeparatorFreePrefix(b[0], x, sep);
      assert |a[0]| == |b[0]|;
      assert a[0] == b[0];
      assert Join(a[1..], sep) == Join(b[1..], sep);
      JoinInjective(a[1..], b[1..], sep);
      assert a == [a[0]] + a[1..] && b == [b[0]] + b[1..];
    }
  }

  /** No separator occurs inside a separator-free prefix. */
  lemma SeparatorFreePrefix(p: string, x: string, sep: char)
    requires sep !in p && |p| <= |x| && x[..|p|] == p
    ensures forall k :: 0 <= k < |p| ==> x[k] != sep
  {
    forall k | 0 <= k < |p| ensures x[k] != sep {
      assert x[k] == p[k];
    }
  }

  /** `request.headers['Authorization'].split(" ")[1]`, when the header is present:
      the second space-separated word, or an IndexError when there is no space. */
  function BearerToken(authorization: Option<string>): (r: Result<Option<string>>)
    ensures authorization.None? ==> r == Success(None)
    ensures authorization.Some? && ' ' !in authorization.value ==> r == Failure("IndexError")
    ensures authorization.Some? && ' ' in authorization.value ==>
      r.Success? && r.value.Some? && ' ' !in r.value.value
  {
    match authorization
    case None => Success(None)
    case Some(h) =>
      var parts := Split(h, ' ');
      if |parts| < 2 then
        JoinSingle(parts, ' ');
        Failure("IndexError")
      else
        JoinShape(parts, ' ');
        assert h[|parts[0]|] == ' ';
        Success(Some(parts[1]))
  }

  /** The scheme word is never looked at: for a header made of space-separated words,
      whatever the first word is, the token is the second word. */
  lemma BearerTokenIsSecondWord(words: seq<string>)
    requires |words| >= 2
    requires forall i :: 0 <= i < |words| ==> ' ' !in words[i]
    ensures BearerToken(Some(Join(words, ' '))) == Success(Some(words[1]))
  {
    SplitJoin(words, ' ');
  }

  /** Two headers from the wild: the scheme of `Basic x` is not checked, and `Bearer `
      carries the empty token. */
  lemma HeaderExamples()
    ensures BearerToken(Some("Basic x")) == Success(Some("x"))
    ensures BearerToken(Some("Bearer ")) == Success(Some(""))
  {
    assert Join(["Basic", "x"], ' ') == "Basic x";
    BearerTokenIsSecondWord(["Basic", "x"]);
    assert Join(["Bearer", ""], ' ') == "Bearer ";
    BearerTokenIsSecondWord(["Bearer", ""]);
  }

  /** Python truthiness of the user id `verify_token` returns: `None` and `0` are false. */
  predicate Truthy(id: Option<int>)
  {
    id.Some? && id.value != 0
  }

  /** `token_required`: reject a request without a usable token or whose token does not
      verify; otherwise call the handler with the user the token names, which is `None`
      when no row has that key. */
  function TokenRequired(authorization: Option<string>, verify: string -> Option<int>, s: Store): (g: Gate<Option<User>>)
    ensures authorization.None? ==> g == Halt(Reply(401, Message(TokenMissingMessage)))
    ensures BearerToken(authorization) == Success(Some("")) ==> g == Halt(Reply(401, Message(TokenMissingMessage)))
    ensures authorization.Some? && ' ' !in authorization.value ==> g == Halt(Uncaught("IndexError"))
    ensures forall t :: BearerToken(authorization) == Success(Some(t)) && t != "" && !Truthy(verify(t)) ==>
      g == Halt(Reply(401, Message(TokenInvalidMessage)))
    ensures g.Pass? <==> exists t :: BearerToken(authorization) == Success(Some(t)) && t != "" && Truthy(verify(t))
    ensures g.Pass? ==> var t := BearerToken(authorization).value.value;
      g.arg == FindById(s, verify(t).value) && (g.arg.Some? ==> g.arg.value in s)
  {
    match BearerToken(authorization)
    case Failure(e) => Halt(Uncaught(e))
    case Success(token) =>
      if token.None? || token.value == "" then Halt(Reply(401, Message(TokenMissingMessage)))
      else
        var id := verify(token.value);
        if !Truthy(id) then Halt(Reply(401, Message(TokenInvalidMessage)))
        else Pass(FindById(s, id.value))
  }

  /** `token_required` with a header that has no space answered as a missing token,
      instead of letting the IndexError escape. */
  function TokenRequiredIntended(authorization: Option<string>, verify: string -> Option<int>, s: Store): (g: Gate<Option<User>>)
    ensures g.Halt? ==> g.response.Reply? && g.response.status == 401
    ensures authorization.Some? && ' ' !in authorization.value ==>
      g == Halt(Reply(401, Message(TokenMissingMessage)))
    ensures !(authorization.Some? && ' ' !in authorization.value) ==> g == TokenRequired(authorization, verify, s)
  {
    match BearerToken(authorization)
    case Failure(_) => Halt(Reply(401, Message(TokenMissingMessage)))
    case Success(_) => TokenRequired(authorization, verify, s)
  }

  /** `Bearer ` is answered as a missing token; `Bearer`, with no space, makes
      `token_required` raise where the intended guard answers 401. */
  lemma SchemeOnlyHeaders(verify: string -> Option<int>, s: Store)
    ensures TokenRequired(Some("Bearer "), verify, s) == Halt(Reply(401, Message(TokenMissingMessage)))
    ensures TokenRequired(Some("Bearer"), verify, s) == Halt(Uncaught("IndexError"))
    ensures TokenRequiredIntended(Some("Bearer"), verify, s) == Halt(Reply(401, Message(TokenMissingMessage)))
  {
    HeaderExamples();
  }

  /** `validate_json`: a body with schema errors is answered 400 with those errors;
      otherwise the handler receives the body unchanged. */
  function ValidateJson(schema: Schema, body: Json, isEmail: string -> bool): (g: Gate<Json>)
    ensures g.Pass? <==> Conforms(schema, body, isEmail)
    ensures g.Pass? ==> g.arg == body
    ensures g.Halt? ==>
      g.response == Reply(400, FieldErrors(Validate(schema, body, isEmail))) && Validate(schema, body, isEmail) != map[]
  {
    var errors := Validate(schema, body, isEmail);
    if errors != map[] then Halt(Reply(400, FieldErrors(errors))) else Pass(body)
  }
}
