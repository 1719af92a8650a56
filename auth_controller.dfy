/** The input checks the account endpoints run before calling the account
    directory, and the status codes they answer with. */
module AuthController {
  import opened Common
  import opened Text
  import AuthService

  /** The minimum password length accepted at registration. */
  const MinPasswordLength: int := 6

  /** The input errors of the endpoints, one per message. */
  datatype InputError =
    | MissingFields            // "Tous les champs sont requis"
    | InvalidEmailFormat       // "Format d'email invalide"
    | PasswordTooShort         // "Le mot de passe doit contenir au moins 6 caractères"
    | MissingCredentials       // "Email et mot de passe requis"
    | MissingRole              // "Le rôle est requis"
    | MissingReputationChange  // "Le changement de réputation est requis"

  datatype Failure = Input(input: InputError) | Service(service: AuthService.AuthError)

  /** An HTTP answer: a status code and either a payload or the failure
      whose message it carries. */
  datatype Reply<+T> = Reply(status: nat, payload: Result<T, Failure>)

  /** A request body field may be absent (`undefined`); `None` models that. */
  datatype RegisterBody = RegisterBody(
    email: Option<string>,
    username: Option<string>,
    password: Option<string>,
    role: Option<string>)

  /** No white space and no `@`: the class `[^\s@]`. */
  predicate PlainRun(t: string)
  {
    forall k :: 0 <= k < |t| ==> !IsSpace(t[k]) && t[k] != '@'
  }

  /** `s` splits at `i` and `j` as `[^\s@]+ @ [^\s@]+ \. [^\s@]+`. */
  predicate EmailSplit(s: string, i: int, j: int)
  {
    && 0 < i && i + 1 < j < |s| - 1
    && s[i] == '@' && s[j] == '.'
    && PlainRun(s[..i]) && PlainRun(s[i + 1..j]) && PlainRun(s[j + 1..])
  }

  /** `/^[^\s@]+@[^\s@]+\.[^\s@]+$/.test(s)`. */
  ghost predicate EmailShaped(s: string)
  {
    exists i, j :: EmailSplit(s, i, j)
  }

  /** The email check as a scan: no white space, exactly one `@` with
      something before it, and a `.` after the `@` that is neither the
      first nor the last character there. */
  predicate IsValidEmail(s: string)
  {
    && (forall k :: 0 <= k < |s| ==> !IsSpace(s[k]))
    && '@' in s
    && var i := IndexOf(s, '@');
       var rest := s[i + 1..];
       && i > 0
       && '@' !in rest
       && |rest| >= 3
       && '.' in rest[1..|rest| - 1]
  }

  /** The scan accepts exactly the strings the pattern matches. */
  lemma EmailCheckIff(s: string)
    ensures IsValidEmail(s) <==> EmailShaped(s)
  {
    if IsValidEmail(s) {
      ScanToPattern(s);
    }
    if EmailShaped(s) {
      PatternToScan(s);
    }
  }

  /** A string the scan accepts splits as the pattern requires. */
  lemma ScanToPattern(s: string)
    requires IsValidEmail(s)
    ensures EmailShaped(s)
  {
    var i := IndexOf(s, '@');
    var rest := s[i + 1..];
    var m := IndexOf(rest[1..|rest| - 1], '.');
    var j := i + 2 + m;
    assert s[j] == '.';
    assert s[i + 1..j] == rest[..m + 1];
    assert s[j + 1..] == rest[m + 2..];
    assert EmailSplit(s, i, j);
  }

  /** A string the pattern matches passes the scan. */
  lemma PatternToScan(s: string)
    requires EmailShaped(s)
    ensures IsValidEmail(s)
  {
    var i, j :| EmailSplit(s, i, j);
    FirstAt(s, i);
    SplitHasNoSpace(s, i, j);
    SplitHasOneAt(s, i, j);
    var rest := s[i + 1..];
    assert rest[1..|rest| - 1][j - i - 2] == '.';
  }

  /** The three runs and the two separators contain no white space. */
  lemma SplitHasNoSpace(s: string, i: int, j: int)
    requires EmailSplit(s, i, j)
    ensures forall k :: 0 <= k < |s| ==> !IsSpace(s[k])
  {
    forall k | 0 <= k < |s| ensures !IsSpace(s[k]) {
      if k < i {
        assert s[k] == s[..i][k];
      } else if i < k < j {
        assert s[k] == s[i + 1..j][k - i - 1];
      } else if j < k {
        assert s[k] == s[j + 1..][k - j - 1];
      }
    }
  }

  /** After the `@` of the split there is no other. */
  lemma SplitHasOneAt(s: string, i: int, j: int)
    requires EmailSplit(s, i, j)
    ensures '@' !in s[i + 1..]
  {
    var rest := s[i + 1..];
    forall k | 0 <= k < |rest| ensures rest[k] != '@' {
      if k < j - i - 1 {
        assert rest[k] == s[i + 1..j][k];
      } else if k > j - i - 1 {
        assert rest[k] == s[j + 1..][k - (j - i)];
      }
    }
  }

  /** The first `@` of a string whose prefix before `i` is a plain run is
      the one at `i`. */
  lemma FirstAt(s: string, i: int)
    requires 0 <= i < |s| && s[i] == '@' && PlainRun(s[..i])
    ensures '@' in s && IndexOf(s, '@') == i
  {
  }

  predicate RegisterFieldsPresent(b: RegisterBody)
  {
    Present(b.email) && Present(b.username) && Present(b.password)
  }

  /** The checks of `register`, in their order: all three fields present,
      then the email pattern, then the password length. */
  function CheckRegister(b: RegisterBody): (r: Option<InputError>)
    ensures r == Some(MissingFields) <==> !RegisterFieldsPresent(b)
    ensures r == Some(InvalidEmailFormat) <==> RegisterFieldsPresent(b) && !EmailShaped(b.email.value)
    ensures r == Some(PasswordTooShort) <==>
      RegisterFieldsPresent(b) && EmailShaped(b.email.value) && |b.password.value| < MinPasswordLength
    ensures r.None? <==>
      RegisterFieldsPresent(b) && EmailShaped(b.email.value) && |b.password.value| >= MinPasswordLength
  {
    if !RegisterFieldsPresent(b) then Some(MissingFields)
    else
      EmailCheckIff(b.email.value);
      if !IsValidEmail(b.email.value) then Some(InvalidEmailFormat)
      else if |b.password.value| < MinPasswordLength then Some(PasswordTooShort)
      else None
  }

  /** `POST /auth/register`: 400 on an input error, without touching the
      directory; otherwise the service's answer, 201 on success and 400
      on a service error. */
  method Register(db: AuthService.UserDb, body: RegisterBody, hash: string -> string, now: Time)
    returns (reply: Reply<AuthService.PublicUser>)
    requires db.Valid()
    modifies db
    ensures db.Valid()
    ensures CheckRegister(body).Some? ==>
      reply == Reply(400, Err(Input(CheckRegister(body).value))) && db.users == old(db.users)
    ensures reply.status == 201 <==> reply.payload.Ok?
    ensures reply.payload.Err? ==> reply.status == 400 && db.users == old(db.users)
    ensures reply.payload.Ok? <==>
      && CheckRegister(body).None?
      && !AuthService.EmailInUse(old(db.users), body.email.value)
      && !AuthService.UsernameInUse(old(db.users), body.username.value)
      && ParseRole(AuthService.RequestedRole(body.role)).Some?
    ensures CheckRegister(body).None? && AuthService.EmailInUse(old(db.users), body.email.value)
      ==> reply == Reply(400, Err(Service(AuthService.EmailTaken)))
    ensures CheckRegister(body).None? && !AuthService.EmailInUse(old(db.users), body.email.value)
            && AuthService.UsernameInUse(old(db.users), body.username.value)
      ==> reply == Reply(400, Err(Service(AuthService.UsernameTaken)))
    ensures reply.payload.Ok? ==>
      var u := reply.payload.value;
      && u.id !in old(db.users)
      && u.reputation == 0
      && RoleName(u.role) == AuthService.RequestedRole(body.role)
      && db.users == old(db.users)[u.id := AuthService.User(u.id, body.email.value, body.username.value,
                                                           hash(body.password.value), u.role, 0, now)]
      && u == AuthService.Public(db.users[u.id])
  {
    var check := CheckRegister(body);
    if check.Some? {
      return Reply(400, Err(Input(check.value)));
    }
    var r := AuthService.Register(db, body.email.value, body.username.value, body.password.value,
                                  body.role, hash, now);
    if r.Err? {
      reply := Reply(400, Err(Service(r.error)));
    } else {
      reply := Reply(201, Ok(r.value));
    }
  }

  /** `POST /auth/login`: 400 when the email or the password is missing;
      401 with the single credentials error otherwise on failure. */
  method Login(db: AuthService.UserDb, email: Option<string>, password: Option<string>,
               passwordMatches: (string, string) -> bool, sign: AuthService.Claims -> string)
    returns (reply: Reply<AuthService.LoginResult>)
    requires db.Valid()
    ensures !(Present(email) && Present(password)) ==> reply == Reply(400, Err(Input(MissingCredentials)))
    ensures (Present(email) && Present(password) && reply.payload.Err?)
      ==> reply == Reply(401, Err(Service(AuthService.InvalidCredentials)))
    ensures reply.payload.Ok? <==>
      && Present(email) && Present(password)
      && exists k :: k in db.users && db.users[k].email == email.value
                     && passwordMatches(password.value, db.users[k].passwordHash)
    ensures reply.payload.Ok? ==> reply.status == 200
  {
    if !(Present(email) && Present(password)) {
      return Reply(400, Err(Input(MissingCredentials)));
    }
    var r := AuthService.Login(db, email.value, password.value, passwordMatches, sign);
    if r.Err? {
      reply := Reply(401, Err(Service(r.error)));
    } else {
      reply := Reply(200, Ok(r.value));
    }
  }

  /** `PUT /auth/users/:id/role`: a missing or empty role is refused with
      400 before the service runs; service errors are 400 as well. */
  method UpdateUserRole(db: AuthService.UserDb, userId: Id, role: Option<string>)
    returns (reply: Reply<AuthService.PublicUser>)
    requires db.Valid()
    modifies db
    ensures db.Valid()
    ensures !Present(role) ==> reply == Reply(400, Err(Input(MissingRole))) && db.users == old(db.users)
    ensures reply.payload.Err? ==> reply.status == 400 && db.users == old(db.users)
    ensures reply.payload.Ok? <==> Present(role) && ParseRole(role.value).Some? && userId in old(db.users)
    ensures Present(role) && ParseRole(role.value).None?
      ==> reply == Reply(400, Err(Service(AuthService.InvalidRole)))
    ensures reply.payload.Ok? ==>
      && reply.status == 200
      && RoleName(reply.payload.value.role) == role.value
      && db.users == old(db.users)[userId := old(db.users)[userId].(role := ParseRole(role.value).value)]
      && reply.payload.value == AuthService.Public(db.users[userId])
  {
    if !Present(role) {
      return Reply(400, Err(Input(MissingRole)));
    }
    var r := AuthService.UpdateUserRole(db, userId, role.value);
    if r.Err? {
      reply := Reply(400, Err(Service(r.error)));
    } else {
      reply := Reply(200, Ok(r.value));
    }
  }

  /** `PUT /auth/users/:id/reputation`: only an absent change is refused;
      a change of 0 reaches the service. */
  method UpdateReputation(db: AuthService.UserDb, userId: Id, reputationChange: Option<int>)
    returns (reply: Reply<AuthService.PublicUser>)
    requires db.Valid()
    modifies db
    ensures db.Valid()
    ensures reputationChange.None? <==> reply == Reply(400, Err(Input(MissingReputationChange)))
    ensures reputationChange.None? ==> db.users == old(db.users)
    ensures reply.payload.Err? ==> reply.status == 400 && db.users == old(db.users)
    ensures reply.payload.Ok? <==> reputationChange.Some? && userId in old(db.users)
    ensures reputationChange.Some? && userId !in old(db.users)
      ==> reply == Reply(400, Err(Service(AuthService.UserNotFound)))
    ensures reply.payload.Ok? ==>
      var before := old(db.users)[userId];
      var u := reply.payload.value;
      && reply.status == 200
      && u.reputation == before.reputation + reputationChange.value
      && u.role == AuthService.PromotedRole(before.role, before.reputation + reputationChange.value)
      && db.users == old(db.users)[userId := before.(reputation := u.reputation, role := u.role)]
      && u == AuthService.Public(db.users[userId])
  {
    if reputationChange.None? {
      return Reply(400, Err(Input(MissingReputationChange)));
    }
    var r := AuthService.UpdateReputation(db, userId, reputationChange.value);
    if r.Err? {
      reply := Reply(400, Err(Service(r.error)));
    } else {
      reply := Reply(200, Ok(r.value));
    }
  }
}
