/** The authenticated identity attached to a request, and the opaque token
    issued for it. */
module Principal {
  import opened Common
  import opened Entities

  /** A value fixed at construction: the user's identity, credentials, role,
      active flag and granted authorities. */
  datatype UserPrincipal = UserPrincipal(
    id: int,
    email: string,
    password: string,
    role: Role,
    isActive: bool,
    authorities: seq<string>)

  /** The authority string a role grants. */
  function Authority(r: Role): string {
    "ROLE_" + RoleName(r)
  }

  /** `UserPrincipal.create`: the user's fields unchanged and a single authority. */
  function Create(u: User): (p: UserPrincipal)
    ensures p.id == u.id && p.email == u.email && p.password == u.password
    ensures p.role == u.role && p.isActive == u.isActive
    ensures p.authorities == [Authority(u.role)]
  {
    UserPrincipal(u.id, u.email, u.password, u.role, u.isActive, [Authority(u.role)])
  }

  /** The user name is the email. */
  function Username(p: UserPrincipal): string {
    p.email
  }

  predicate IsEnabled(p: UserPrincipal) {
    p.isActive
  }

  predicate IsAccountNonExpired(p: UserPrincipal) {
    true
  }

  predicate IsAccountNonLocked(p: UserPrincipal) {
    true
  }

  predicate IsCredentialsNonExpired(p: UserPrincipal) {
    true
  }

  /** Spring's `hasRole(r)`: the principal holds the authority ROLE_r. */
  predicate HasRole(p: UserPrincipal, r: Role) {
    Authority(r) in p.authorities
  }

  /** Spring's `hasAnyRole(rs)`: the principal holds the authority of one of `rs`. */
  predicate HasAnyRole(p: UserPrincipal, rs: set<Role>) {
    exists r :: r in rs && HasRole(p, r)
  }

  /** Distinct roles grant distinct authorities. */
  lemma AuthorityIsInjective(r1: Role, r2: Role)
    ensures Authority(r1) == Authority(r2) <==> r1 == r2
  {
    if r1 != r2 {
      assert |Authority(r1)| != |Authority(r2)| || Authority(r1)[5] != Authority(r2)[5];
    }
  }

  /** A principal built by `create` holds exactly the role of its user, and is
      enabled exactly when the user is active; the other account flags never block it. */
  lemma CreatedPrincipalHoldsExactlyItsRole(u: User, r: Role)
    ensures HasRole(Create(u), r) <==> u.role == r
    ensures forall rs :: HasAnyRole(Create(u), rs) <==> u.role in rs
    ensures Username(Create(u)) == u.email
    ensures IsEnabled(Create(u)) == u.isActive
    ensures IsAccountNonExpired(Create(u)) && IsAccountNonLocked(Create(u)) && IsCredentialsNonExpired(Create(u))
  {
    forall r' | true
      ensures HasRole(Create(u), r') <==> u.role == r'
    {
      AuthorityIsInjective(u.role, r');
    }
  }

  /** The bearer token stands for a signed JWT: opaque, carrying the subject
      principal and the role name it was requested with. */
  datatype Token = Token(subject: UserPrincipal, roleName: string)

  function IssueToken(p: UserPrincipal, roleName: string): Token {
    Token(p, roleName)
  }
}
