/** The account directory: registration under a unique email and a unique
    user name, login, role changes and the reputation update with its
    one-way promotion from USER to EXPERT. Password hashing, its
    comparison and token signing are collaborators passed in as functions. */
module AuthService {
  import opened Common

  /** A stored account; `passwordHash` never leaves the service. */
  datatype User = User(
    id: Id,
    email: string,
    username: string,
    passwordHash: string,
    role: Role,
    reputation: int,
    createdAt: Time)

  /** An account as returned to callers: every column but the password. */
  datatype PublicUser = PublicUser(
    id: Id,
    email: string,
    username: string,
    role: Role,
    reputation: int,
    createdAt: Time)

  /** The claims signed into a login token. */
  datatype Claims = Claims(userId: Id, email: string, username: string, role: string)

  datatype LoginResult = LoginResult(token: string, user: PublicUser)

  /** The errors the account directory throws, one per message. */
  datatype AuthError =
    | EmailTaken            // "Cet email est déjà utilisé"
    | UsernameTaken         // "Ce nom d'utilisateur est déjà pris"
    | InvalidRegisterRole   // "Rôle invalide. Valeurs acceptées : USER, EXPERT, ADMIN"
    | InvalidCredentials    // "Email ou mot de passe incorrect"
    | UserNotFound          // "Utilisateur non trouvé"
    | InvalidRole           // "Rôle invalide"
    | UpdateTargetMissing   // the database's error when `update` finds no row

  /** The account without its password column. */
  function Public(u: User): (p: PublicUser)
    ensures p.id == u.id && p.email == u.email && p.username == u.username
    ensures p.role == u.role && p.reputation == u.reputation && p.createdAt == u.createdAt
  {
    PublicUser(u.id, u.email, u.username, u.role, u.reputation, u.createdAt)
  }

  /** Reputation needed for a USER to become an EXPERT. */
  const ExpertThreshold: int := 10

  /** The role after a reputation update: a USER reaching the threshold is
      promoted to EXPERT; any other role is kept. */
  function PromotedRole(role: Role, newReputation: int): (r: Role)
    ensures role != USER ==> r == role
    ensures r == EXPERT <==> role == EXPERT || (role == USER && newReputation >= ExpertThreshold)
    ensures r == USER <==> role == USER && newReputation < ExpertThreshold
  {
    if newReputation >= ExpertThreshold && role == USER then EXPERT else role
  }

  /** The rank of a role: USER below EXPERT below ADMIN. */
  function Rank(role: Role): nat
  {
    match role
    case USER => 0
    case EXPERT => 1
    case ADMIN => 2
  }

  /** The role after a series of reputation updates starting from
      `reputation`. */
  function RoleAfter(role: Role, reputation: int, changes: seq<int>): Role
    decreases |changes|
  {
    if changes == [] then role
    else RoleAfter(PromotedRole(role, reputation + changes[0]), reputation + changes[0], changes[1..])
  }

  /** Promotion is one-way: no series of reputation updates, gains or
      losses, ever lowers a role, and an EXPERT or ADMIN keeps their role. */
  lemma {:induction false} NoDemotion(role: Role, reputation: int, changes: seq<int>)
    ensures Rank(RoleAfter(role, reputation, changes)) >= Rank(role)
    ensures role != USER ==> RoleAfter(role, reputation, changes) == role
    decreases |changes|
  {
    if changes != [] {
      NoDemotion(PromotedRole(role, reputation + changes[0]), reputation + changes[0], changes[1..]);
    }
  }

  class UserDb {
    var users: map<Id, User>
    var nextId: nat

    /** Ids are handed out densely and match their keys; email and user
        name are unique columns. */
    ghost predicate Valid()
      reads this
    {
      && (forall k: Id :: k in users <==> k < nextId)
      && (forall k :: k in users ==> users[k].id == k)
      && (forall a, b :: a in users && b in users && users[a].email == users[b].email ==> a == b)
      && (forall a, b :: a in users && b in users && users[a].username == users[b].username ==> a == b)
    }

    constructor ()
      ensures Valid() && users == map[]
    {
      users, nextId := map[], 0;
    }
  }

  predicate EmailInUse(users: map<Id, User>, email: string)
  {
    exists k :: k in users && users[k].email == email
  }

  predicate UsernameInUse(users: map<Id, User>, username: string)
  {
    exists k :: k in users && users[k].username == username
  }

  /** The role a registration asks for: an omitted role means USER. */
  function RequestedRole(role: Option<string>): string
  {
    if role.None? then "USER" else role.value
  }

  /** Creates an account with reputation 0. The email is checked first,
      then the user name, then the role; the password is stored hashed and
      the result carries no password. */
  method Register(db: UserDb, email: string, username: string, password: string, role: Option<string>,
                  hash: string -> string, now: Time)
    returns (r: Result<PublicUser, AuthError>)
    requires db.Valid()
    modifies db
    ensures db.Valid()
    ensures EmailInUse(old(db.users), email) ==> r == Err(EmailTaken)
    ensures (!EmailInUse(old(db.users), email) && UsernameInUse(old(db.users), username)) ==> r == Err(UsernameTaken)
    ensures (!EmailInUse(old(db.users), email) && !UsernameInUse(old(db.users), username)
             && ParseRole(RequestedRole(role)).None?) ==> r == Err(InvalidRegisterRole)
    ensures r.Ok? <==> (!EmailInUse(old(db.users), email) && !UsernameInUse(old(db.users), username)
                        && ParseRole(RequestedRole(role)).Some?)
    ensures r.Err? ==> db.users == old(db.users)
    ensures r.Ok? ==>
      && r.value.id !in old(db.users)
      && r.value.reputation == 0
      && RoleName(r.value.role) == RequestedRole(role)
      && db.users == old(db.users)[r.value.id := User(r.value.id, email, username, hash(password),
                                                       r.value.role, 0, now)]
      && r.value == Public(db.users[r.value.id])
  {
    if EmailInUse(db.users, email) {
      return Err(EmailTaken);
    }
    if UsernameInUse(db.users, username) {
      return Err(UsernameTaken);
    }
    var parsed := ParseRole(RequestedRole(role));
    if parsed.None? {
      return Err(InvalidRegisterRole);
    }
    var id := db.nextId;
    var user := User(id, email, username, hash(password), parsed.value, 0, now);
    db.users := db.users[id := user];
    db.nextId := id + 1;
    r := Ok(Public(user));
  }

  /** The claims of a user's token. */
  function ClaimsOf(u: User): Claims
  {
    Claims(u.id, u.email, u.username, RoleName(u.role))
  }

  /** Checks a password against the stored hash and signs a token. An
      unknown email and a wrong password fail with the same error, so a
      caller cannot tell which accounts exist. */
  method Login(db: UserDb, email: string, password: string,
               passwordMatches: (string, string) -> bool, sign: Claims -> string)
    returns (r: Result<LoginResult, AuthError>)
    requires db.Valid()
    ensures !EmailInUse(db.users, email) ==> r == Err(InvalidCredentials)
    ensures r.Err? ==> r == Err(InvalidCredentials)
    ensures r.Ok? <==> exists k :: k in db.users && db.users[k].email == email
                                   && passwordMatches(password, db.users[k].passwordHash)
    ensures r.Ok? ==>
      && r.value.user.id in db.users
      && db.users[r.value.user.id].email == email
      && r.value.user == Public(db.users[r.value.user.id])
      && r.value.token == sign(ClaimsOf(db.users[r.value.user.id]))
  {
    if !EmailInUse(db.users, email) {
      return Err(InvalidCredentials);
    }
    var k :| k in db.users && db.users[k].email == email;
    var user := db.users[k];
    if !passwordMatches(password, user.passwordHash) {
      return Err(InvalidCredentials);
    }
    var token := sign(ClaimsOf(user));
    r := Ok(LoginResult(token, Public(user)));
  }

  /** `getMe`: the caller's own account, without its password. */
  function GetMe(users: map<Id, User>, userId: Id): (r: Result<PublicUser, AuthError>)
    ensures userId !in users <==> r == Err(UserNotFound)
    ensures r.Ok? ==> r.value.id == users[userId].id && r.value == Public(users[userId])
  {
    if userId !in users then Err(UserNotFound) else Ok(Public(users[userId]))
  }

  /** `getUserById`: the account or nothing, without raising. */
  function GetUserById(users: map<Id, User>, userId: Id): (r: Option<PublicUser>)
    ensures r.None? <==> userId !in users
    ensures r.Some? ==> r.value == Public(users[userId])
  {
    if userId in users then Some(Public(users[userId])) else None
  }

  /** `getAllUsers`: every account once, in id order, without passwords. */
  function GetAllUsers(db: UserDb): (r: seq<PublicUser>)
    reads db
    requires db.Valid()
    ensures forall i :: 0 <= i < |r| ==> i in db.users && r[i] == Public(db.users[i])
    ensures forall k :: k in db.users ==> k < |r| && r[k] == Public(db.users[k])
  {
    var users, n := db.users, db.nextId;
    seq(n, i requires 0 <= i < n => Public(users[i]))
  }

  /** Sets the role of an account. An unknown role name is refused before
      the database is touched; an unknown account fails in the update. */
  method UpdateUserRole(db: UserDb, userId: Id, newRole: string) returns (r: Result<PublicUser, AuthError>)
    requires db.Valid()
    modifies db
    ensures db.Valid()
    ensures ParseRole(newRole).None? ==> r == Err(InvalidRole)
    ensures (ParseRole(newRole).Some? && userId !in old(db.users)) ==> r == Err(UpdateTargetMissing)
    ensures r.Ok? <==> ParseRole(newRole).Some? && userId in old(db.users)
    ensures r.Err? ==> db.users == old(db.users)
    ensures r.Ok? ==>
      && db.users == old(db.users)[userId := old(db.users)[userId].(role := ParseRole(newRole).value)]
      && r.value == Public(db.users[userId])
      && RoleName(r.value.role) == newRole
  {
    var parsed := ParseRole(newRole);
    if parsed.None? {
      return Err(InvalidRole);
    }
    if userId !in db.users {
      return Err(UpdateTargetMissing);
    }
    var updated := db.users[userId].(role := parsed.value);
    db.users := db.users[userId := updated];
    r := Ok(Public(updated));
  }

  /** Adds `reputationChange` to an account's reputation and promotes a
      USER who reaches the threshold; nothing else changes. */
  method UpdateReputation(db: UserDb, userId: Id, reputationChange: int) returns (r: Result<PublicUser, AuthError>)
    requires db.Valid()
    modifies db
    ensures db.Valid()
    ensures userId !in old(db.users) <==> r.Err?
    ensures r.Err? ==> r == Err(UserNotFound) && db.users == old(db.users)
    ensures r.Ok? ==>
      var before := old(db.users)[userId];
      && r.value.reputation == before.reputation + reputationChange
      && r.value.role == PromotedRole(before.role, before.reputation + reputationChange)
      && db.users == old(db.users)[userId := before.(reputation := r.value.reputation, role := r.value.role)]
      && r.value == Public(db.users[userId])
  {
    if userId !in db.users {
      return Err(UserNotFound);
    }
    var user := db.users[userId];
    var newReputation := user.reputation + reputationChange;
    var newRole := user.role;
    if newReputation >= ExpertThreshold && user.role == USER {
      newRole := EXPERT;
    }
    var updated := user.(reputation := newReputation, role := newRole);
    db.users := db.users[userId := updated];
    r := Ok(Public(updated));
  }
}
