/** The request guards of the observation service: bearer-token
    extraction and verification, and the EXPERT-or-ADMIN gate. Token
    verification is a collaborator passed in as a function. */
module AuthMiddleware {
  import opened Common
  import opened Text

  /** The payload of a verified token. */
  datatype Claims = Claims(userId: Id, email: string, username: string, role: string)

  /** What a guard does with a request: reject it with a status code, or
      pass it on to the next handler. */
  datatype Outcome = Reject(status: nat, message: string) | Next

  const MissingTokenMessage := "Token manquant"
  const InvalidTokenMessage := "Token invalide ou expiré"
  const ExpertsOnlyMessage := "Accès réservé aux experts"

  /** `authHeader && authHeader.split(' ')[1]`, kept only when truthy: the
      second space-separated piece of the header, if there is one and it
      is not empty. */
  function ExtractToken(header: Option<string>): (r: Option<string>)
    ensures header.Some? && |Split(header.value, ' ')| >= 2 && Split(header.value, ' ')[1] != ""
      ==> r == Some(Split(header.value, ' ')[1])
    ensures r.Some? ==> header.Some? && r.value != [] && ' ' !in r.value && ' ' in header.value
    ensures r.Some? ==>
      var h := header.value;
      var i := IndexOf(h, ' ');
      && ' ' !in h[..i]
      && StartsWith(h[i + 1..], r.value)
      && (|h| == i + 1 + |r.value| || h[i + 1 + |r.value|] == ' ')
  {
    if header.None? then None
    else
      var parts := Split(header.value, ' ');
      if |parts| < 2 || parts[1] == "" then None
      else
        SecondPiece(header.value);
        Some(parts[1])
  }

  /** Where the second piece of a split on spaces lies in the string. */
  lemma SecondPiece(h: string)
    requires |Split(h, ' ')| >= 2
    ensures ' ' in h
    ensures var i := IndexOf(h, ' ');
      var t := Split(h, ' ')[1];
      && ' ' !in h[..i]
      && StartsWith(h[i + 1..], t)
      && (|h| == i + 1 + |t| || h[i + 1 + |t|] == ' ')
  {
    var i := IndexOf(h, ' ');
    var rest := h[i + 1..];
    var t := Split(rest, ' ')[0];
    if ' ' in rest {
      var j := IndexOf(rest, ' ');
      assert t == rest[..j];
      assert h[i + 1 + j] == rest[j];
    } else {
      assert t == rest;
    }
  }

  /** A well-formed `Authorization: Bearer <token>` header yields its token. */
  lemma BearerHeaderYieldsToken(token: string)
    requires token != [] && ' ' !in token
    ensures ExtractToken(Some("Bearer " + token)) == Some(token)
  {
    BearerSplit(token);
  }

  /** A header that starts with `Bearer ` splits into `Bearer` and the
      pieces of the rest. */
  lemma BearerSplit(rest: string)
    ensures Split("Bearer " + rest, ' ') == ["Bearer"] + Split(rest, ' ')
  {
    var h := "Bearer " + rest;
    assert h[6] == ' ';
    assert ' ' !in h[..6];
    FirstSpace(h, 6);
    assert h[7..] == rest;
    assert h[..6] == "Bearer";
  }

  /** The first space of a string without a space before `i` is the one at
      `i`. */
  lemma FirstSpace(s: string, i: int)
    requires 0 <= i < |s| && s[i] == ' ' && ' ' !in s[..i]
    ensures ' ' in s && IndexOf(s, ' ') == i
  {
  }

  /** The request as the guards see it: its `Authorization` header and
      the user a verified token attached to it. */
  class Request {
    const authorization: Option<string>
    var user: Option<Claims>

    constructor (authorization: Option<string>)
      ensures this.authorization == authorization && user.None?
    {
      this.authorization := authorization;
      user := None;
    }
  }

  /** `authenticateToken`: 401 without a token, 403 when verification
      fails; otherwise the decoded claims become `req.user` and the request
      goes on. */
  method AuthenticateToken(req: Request, verify: string -> Option<Claims>) returns (outcome: Outcome)
    modifies req
    ensures ExtractToken(req.authorization).None? ==>
      outcome == Reject(401, MissingTokenMessage) && req.user == old(req.user)
    ensures (ExtractToken(req.authorization).Some? && verify(ExtractToken(req.authorization).value).None?) ==>
      outcome == Reject(403, InvalidTokenMessage) && req.user == old(req.user)
    ensures outcome == Next <==>
      ExtractToken(req.authorization).Some? && verify(ExtractToken(req.authorization).value).Some?
    ensures outcome == Next ==> req.user == verify(ExtractToken(req.authorization).value)
  {
    var token := ExtractToken(req.authorization);
    if token.None? {
      return Reject(401, MissingTokenMessage);
    }
    var decoded := verify(token.value);
    if decoded.None? {
      return Reject(403, InvalidTokenMessage);
    }
    req.user := decoded;
    outcome := Next;
  }

  /** The role test of `requireExpert`. */
  predicate IsExpertRole(role: string)
  {
    role == "EXPERT" || role == "ADMIN"
  }

  /** `requireExpert`: passes a request whose user has the EXPERT or ADMIN
      role and answers 403 to every other role name. */
  function RequireExpert(user: Claims): (outcome: Outcome)
    ensures outcome == Next <==> ParseRole(user.role) == Some(EXPERT) || ParseRole(user.role) == Some(ADMIN)
    ensures outcome != Next ==> outcome == Reject(403, ExpertsOnlyMessage)
    ensures ParseRole(user.role) == Some(USER) ==> outcome == Reject(403, ExpertsOnlyMessage)
  {
    if !IsExpertRole(user.role) then Reject(403, ExpertsOnlyMessage) else Next
  }
}
