/** The credential gate the load endpoint and the webhook relay run first
    (the save endpoint and the page fetcher run none): the account
    configuration must hold a non-empty password, and the request must carry
    `Authorization: Bearer <token>` where the token is the SHA-256 hex digest of
    that password. The hash function is a parameter and stays uninterpreted. */
module Auth {
  import opened Php
  import opened Http

  /** Either the script goes on past the gate or it has already answered. */
  datatype Gate = Proceed | Halt(response: Response)

  const AuthorizationName := "authorization"

  predicate IsAuthorization(name: string) {
    LowerAscii(name) == AuthorizationName
  }

  /** No header after position `i` is an Authorization header. */
  predicate NoAuthorizationAfter(headers: seq<(string, string)>, i: nat) {
    forall j :: i < j < |headers| ==> !IsAuthorization(headers[j].0)
  }

  /** `array_change_key_case($headers, CASE_LOWER)['authorization'] ?? null`:
      the value of the last header whose name, lower-cased, is "authorization"
      (a later key overwrites an earlier one when the case is folded). */
  function AuthorizationHeader(headers: seq<(string, string)>): (r: Option<string>)
    ensures r.None? <==> forall i :: 0 <= i < |headers| ==> !IsAuthorization(headers[i].0)
    ensures r.Some? ==> exists i :: 0 <= i < |headers| && IsAuthorization(headers[i].0) && headers[i].1 == r.value
                                   && NoAuthorizationAfter(headers, i)
  {
    if headers == [] then None
    else if IsAuthorization(headers[|headers| - 1].0) then Some(headers[|headers| - 1].1)
    else
      var r := AuthorizationHeader(headers[..|headers| - 1]);
      assert forall i :: 0 <= i < |headers| - 1 ==> headers[..|headers| - 1][i] == headers[i];
      r
  }

  /** The headers with every name lower-cased. */
  function LowerNames(headers: seq<(string, string)>): (r: seq<(string, string)>)
    ensures |r| == |headers|
    ensures forall i :: 0 <= i < |headers| ==> r[i] == (LowerAscii(headers[i].0), headers[i].1)
  {
    if headers == [] then [] else [(LowerAscii(headers[0].0), headers[0].1)] + LowerNames(headers[1..])
  }

  const BearerPrefix := "Bearer "

  /** The capture group of `preg_match('/^Bearer (.*)$/', $h)`, or None when the
      header does not match. `.` stops at a line feed and `$` also matches just
      before a final line feed. */
  function BearerToken(h: string): (r: Option<string>)
    ensures r.Some? ==> '\n' !in r.value
    ensures r.Some? ==> h == BearerPrefix + r.value || h == BearerPrefix + r.value + "\n"
    ensures (|h| < |BearerPrefix| || h[..|BearerPrefix|] != BearerPrefix) ==> r.None?
    ensures |h| >= |BearerPrefix| && h[..|BearerPrefix|] == BearerPrefix && '\n' !in h[|BearerPrefix|..]
            ==> r == Some(h[|BearerPrefix|..])
    ensures |h| > |BearerPrefix| && h[..|BearerPrefix|] == BearerPrefix && h[|h| - 1] == '\n'
            && '\n' !in h[|BearerPrefix|..|h| - 1]
            ==> r == Some(h[|BearerPrefix|..|h| - 1])
  {
    if |h| < |BearerPrefix| || h[..|BearerPrefix|] != BearerPrefix then None
    else
      var rest := h[|BearerPrefix|..];
      assert h == BearerPrefix + rest;
      if '\n' !in rest then Some(rest)
      else if rest[|rest| - 1] == '\n' && '\n' !in rest[..|rest| - 1] then
        assert rest == rest[..|rest| - 1] + "\n";
        Some(rest[..|rest| - 1])
      else None
  }

  /** The guard chain of the gate, in the order the script runs it. It answers
      200 only to a preflight, 400 only for a missing account, 500 only for a
      password `hash()` cannot take, and 401 otherwise. */
  function Check(req: Request, account: Value, sha256: string -> string): (g: Gate)
    ensures g.Halt? ==> g.response.status in {200, 400, 401, 500}
    ensures g.Halt? && g.response.status == 200 <==> req.verb == "OPTIONS"
    ensures g.Halt? && g.response.status == 400 <==> req.verb != "OPTIONS" && !account.Arr?
    ensures g.Halt? && g.response.status == 500
            ==> account.Arr? && (Get(account.entries, "password").Arr? || Get(account.entries, "password").Obj?)
  {
    if Preflight(req.verb).Some? then Halt(Preflight(req.verb).value)
    else if !account.Arr? then Halt(Exit(400, "No account found."))
    else
      var stored := Get(account.entries, "password");
      if Empty(stored) then Halt(Exit(401, "Stored password was empty."))
      else Credentials(AuthorizationHeader(req.headers), stored, sha256)
  }

  /** The header part of the chain, given the Authorization header found (if
      any) and the non-empty stored password. */
  function Credentials(header: Option<string>, stored: Value, sha256: string -> string): (g: Gate)
  {
    if header.None? || EmptyString(header.value) then Halt(Exit(401, "Authorization header not set."))
    else
      // `array_pop` on the match array: the capture group, or null without a match
      var token := BearerToken(header.value);
      if token.None? || EmptyString(token.value) then Halt(Exit(401, "Provided password was empty."))
      else
        match StringArgument(stored)
        // `hash()` given an array or object throws an uncaught TypeError
        case None => Halt(Response(500, NoBody))
        case Some(password) =>
          if sha256(password) != token.value then
            Halt(Exit(401, "Provided password did not match stored password."))
          else Proceed
  }

  /** An OPTIONS request is answered before any credential is looked at:
      the outcome does not depend on the account, the headers or the hash. */
  lemma PreflightBeforeCredentials(req1: Request, req2: Request, a1: Value, a2: Value,
                                   f1: string -> string, f2: string -> string)
    requires req1.verb == req2.verb == "OPTIONS"
    ensures Check(req1, a1, f1) == Check(req2, a2, f2) == Halt(Response(200, NoBody))
  {
  }

  /** A configuration that is not an array is rejected with 400 before any
      header is examined. */
  lemma NoAccountBeforeHeaders(req1: Request, req2: Request, account: Value,
                               f1: string -> string, f2: string -> string)
    requires req1.verb == req2.verb != "OPTIONS"
    requires !account.Arr?
    ensures Check(req1, account, f1) == Check(req2, account, f2) == Halt(Exit(400, "No account found."))
  {
  }

  /** An empty stored password (missing, null, "", "0", 0, false or []) is
      rejected with 401 whatever the request carries. */
  lemma EmptyPasswordRejected(req1: Request, req2: Request, account: Value,
                              f1: string -> string, f2: string -> string)
    requires req1.verb == req2.verb != "OPTIONS"
    requires account.Arr? && Empty(Get(account.entries, "password"))
    ensures Check(req1, account, f1) == Check(req2, account, f2) == Halt(Exit(401, "Stored password was empty."))
  {
  }

  /** Folding the case of header names does not change which Authorization
      header is found. */
  lemma {:induction false} AuthorizationHeaderIgnoresCase(headers: seq<(string, string)>)
    ensures AuthorizationHeader(LowerNames(headers)) == AuthorizationHeader(headers)
  {
    if headers != [] {
      var n := |headers| - 1;
      var lowered := LowerNames(headers);
      LowerAsciiIdempotent(headers[n].0);
      assert LowerNames(headers)[..n] == LowerNames(headers[..n]);
      AuthorizationHeaderIgnoresCase(headers[..n]);
    }
  }

  /** The Authorization header is found whatever the case of its name: the gate
      answers the same when every header name is lower-cased. */
  lemma HeaderNameCaseInsensitive(req: Request, account: Value, sha256: string -> string)
    ensures Check(req, account, sha256) == Check(req.(headers := LowerNames(req.headers)), account, sha256)
  {
    AuthorizationHeaderIgnoresCase(req.headers);
    SameHeaderSameGate(req, req.(headers := LowerNames(req.headers)), account, sha256);
  }

  /** The gate sees the headers only through the Authorization header it finds. */
  lemma SameHeaderSameGate(req1: Request, req2: Request, account: Value, sha256: string -> string)
    requires req1.verb == req2.verb
    requires AuthorizationHeader(req1.headers) == AuthorizationHeader(req2.headers)
    ensures Check(req1, account, sha256) == Check(req2, account, sha256)
  {
  }

  /** Past the account checks, a request without any Authorization header, or
      whose Authorization header is "" or "0", is rejected with 401. */
  lemma MissingHeaderRejected(req: Request, account: Value, sha256: string -> string)
    requires req.verb != "OPTIONS"
    requires account.Arr? && !Empty(Get(account.entries, "password"))
    requires AuthorizationHeader(req.headers).None? || EmptyString(AuthorizationHeader(req.headers).value)
    ensures Check(req, account, sha256) == Halt(Exit(401, "Authorization header not set."))
  {
  }

  /** A header that does not start with "Bearer ", or whose token is empty, is
      rejected with 401 and never compared with the hash. */
  lemma MissingTokenRejected(req: Request, account: Value, sha256: string -> string, h: string)
    requires req.verb != "OPTIONS"
    requires account.Arr? && !Empty(Get(account.entries, "password"))
    requires AuthorizationHeader(req.headers) == Some(h) && !EmptyString(h)
    requires BearerToken(h).None? || EmptyString(BearerToken(h).value)
    ensures Check(req, account, sha256) == Halt(Exit(401, "Provided password was empty."))
  {
  }

  /** Soundness: a request gets past the gate only when its last Authorization
      header is exactly "Bearer " followed by the SHA-256 of the stored password
      (a single trailing line feed aside), and that digest is not empty. */
  lemma {:induction false} AcceptedOnlyWithMatchingHash(req: Request, account: Value, sha256: string -> string)
    requires Check(req, account, sha256) == Proceed
    ensures req.verb != "OPTIONS" && account.Arr?
    ensures var stored := Get(account.entries, "password");
      && !Empty(stored) && (stored.Str? || stored.Int? || stored.Bool?)
    ensures var p := StringArgument(Get(account.entries, "password")).value;
      && AuthorizationHeader(req.headers).Some?
      && !EmptyString(sha256(p))
      && (AuthorizationHeader(req.headers).value == BearerPrefix + sha256(p)
          || AuthorizationHeader(req.headers).value == BearerPrefix + sha256(p) + "\n")
  {
  }

  /** Completeness: a stored password and an Authorization header (the last
      one, any case of the name, anywhere among the headers) carrying "Bearer "
      and its digest is accepted. */
  lemma MatchingHashAccepted(req: Request, account: Value, sha256: string -> string, password: string)
    requires req.verb != "OPTIONS"
    requires account.Arr? && Get(account.entries, "password") == Str(password) && !EmptyString(password)
    requires AuthorizationHeader(req.headers) == Some(BearerPrefix + sha256(password))
    requires !EmptyString(sha256(password)) && '\n' !in sha256(password)
    ensures Check(req, account, sha256) == Proceed
  {
    SplitAt(BearerPrefix, sha256(password));
  }

  /** A well-formed token that is not the digest of the stored password is
      rejected with 401. */
  lemma WrongTokenRejected(req: Request, account: Value, sha256: string -> string, password: string, token: string)
    requires req.verb != "OPTIONS"
    requires account.Arr? && Get(account.entries, "password") == Str(password) && !EmptyString(password)
    requires AuthorizationHeader(req.headers) == Some(BearerPrefix + token)
    requires !EmptyString(token) && '\n' !in token && token != sha256(password)
    ensures Check(req, account, sha256) == Halt(Exit(401, "Provided password did not match stored password."))
  {
    SplitAt(BearerPrefix, token);
  }
}
