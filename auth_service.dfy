/** Registration and the part of login that follows authentication. Password
    hashing is a function parameter and the authentication manager's verdict is
    an input: neither is part of this model. */
module AuthService {
  import opened Common
  import opened Entities
  import opened Principal
  import opened Requests
  import opened Store

  /** `register`: a taken email is refused and nothing is stored; otherwise one
      active user is stored with the encoded password, and a token is issued
      for it with its role name. */
  method Register(db: Database, req: RegisterRequest, encode: string -> string) returns (r: Result<AuthResponse>)
    requires db.Valid()
    modifies db
    ensures db.Valid()
    ensures EmailTaken(old(db.users), req.email) ==> r == Err(Validation("Email already exists")) && unchanged(db)
    ensures !EmailTaken(old(db.users), req.email) ==>
      var id := old(db.nextUserId);
      var u := User(id, req.fullName, req.email, encode(req.password), req.role, true);
      && id !in old(db.users)
      && db.users == old(db.users)[id := u]
      && db.jobs == old(db.jobs) && db.applications == old(db.applications)
      && db.nextUserId == id + 1 && db.nextJobId == old(db.nextJobId)
      && db.nextApplicationId == old(db.nextApplicationId)
      && r == Ok(AuthResponse(IssueToken(Create(u), RoleName(req.role)), req.email, req.role, req.fullName, id))
    ensures r.Ok? ==> EmailTaken(db.users, req.email)
  {
    var taken := db.ExistsByEmail(req.email);
    if taken {
      return Err(Validation("Email already exists"));
    }
    var id := db.SaveNewUser(req.fullName, req.email, encode(req.password), req.role, true);
    var user := db.users[id];
    var principal := Create(user);
    var token := IssueToken(principal, RoleName(user.role));
    r := Ok(AuthResponse(token, user.email, user.role, user.fullName, user.id));
  }

  /** `login` after the authentication manager has answered: its failure is
      passed on unchanged; otherwise the token is issued for the authenticated
      principal with its role name, and the response describes the stored user
      with the principal's email, or fails when there is none. */
  method Login(db: Database, authentication: Result<UserPrincipal>) returns (r: Result<AuthResponse>)
    requires db.Valid()
    ensures authentication.Err? ==> r == Err(authentication.failure)
    ensures authentication.Ok? && !EmailTaken(db.users, Username(authentication.value)) ==>
      r == Err(Validation("User not found"))
    ensures authentication.Ok? && EmailTaken(db.users, Username(authentication.value)) ==>
      var p := authentication.value;
      && r.Ok?
      && r.value.token == IssueToken(p, RoleName(p.role))
      && r.value.userId in db.users
      && var u := db.users[r.value.userId];
      && u.email == p.email
      && r.value == AuthResponse(r.value.token, u.email, u.role, u.fullName, u.id)
  {
    if authentication.Err? {
      return Err(authentication.failure);
    }
    var principal := authentication.value;
    var token := IssueToken(principal, RoleName(principal.role));
    var found := db.FindByEmail(Username(principal));
    if found.None? {
      return Err(Validation("User not found"));
    }
    var user := found.value;
    r := Ok(AuthResponse(token, user.email, user.role, user.fullName, user.id));
  }
}
