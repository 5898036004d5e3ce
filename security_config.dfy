/** The URL-level authorization of the HTTP filter chain: an ordered table of
    (method, path patterns) rules, the first matching rule deciding what a
    request needs, and every unlisted request needing only authentication. */
module SecurityConfig {
  import opened Common
  import opened Entities
  import opened Principal

  datatype HttpMethod = Get | Post | Put | Delete | OtherMethod(name: string)

  /** A request path as its list of segments: `/api/jobs/5` is ["api", "jobs", "5"]. */
  type Path = seq<string>

  /** One pattern segment: a literal, or `*`, which stands for exactly one
      non-empty segment. */
  datatype Segment = Literal(text: string) | AnySegment

  /** A path pattern: its segments, and whether it ends in a double-star
      segment, which matches any remainder, including none. */
  datatype Pattern = Pattern(segments: seq<Segment>, anyTail: bool)

  /** What a rule demands of the request. */
  datatype Access = PermitAll | AnyRole(roles: set<Role>) | Authenticated

  /** A rule applies to one HTTP method, or to all when `verb` is None. */
  datatype Rule = Rule(verb: Option<HttpMethod>, patterns: seq<Pattern>, access: Access)

  predicate SegmentMatches(s: Segment, segment: string) {
    match s
    case Literal(text) => segment == text
    case AnySegment => segment != ""
  }

  predicate PatternMatches(p: Pattern, path: Path) {
    && (if p.anyTail then |p.segments| <= |path| else |p.segments| == |path|)
    && forall i :: 0 <= i < |p.segments| ==> SegmentMatches(p.segments[i], path[i])
  }

  predicate RuleMatches(r: Rule, m: HttpMethod, path: Path) {
    && (r.verb.None? || r.verb.value == m)
    && exists i :: 0 <= i < |r.patterns| && PatternMatches(r.patterns[i], path)
  }

  /** A pattern made of literal segments. */
  function Literals(texts: seq<string>): (r: seq<Segment>)
    ensures |r| == |texts|
    ensures forall i :: 0 <= i < |texts| ==> r[i] == Literal(texts[i])
  {
    if texts == [] then [] else [Literal(texts[0])] + Literals(texts[1..])
  }

  function Exact(texts: seq<string>): Pattern {
    Pattern(Literals(texts), false)
  }

  function Under(texts: seq<string>): Pattern {
    Pattern(Literals(texts), true)
  }

  const RecruiterOrAdmin: set<Role> := {Recruiter, Admin}

  const AuthRule := Rule(None, [Under(["api", "auth"])], PermitAll)
  const DocsRule := Rule(None, [Exact(["swagger-ui.html"]), Under(["swagger-ui"]), Exact(["swagger-ui", "index.html"]),
                                Under(["v3", "api-docs"]), Under(["api-docs"]), Under(["webjars"]), Under(["swagger-resources"])],
                         PermitAll)
  const ReadJobsRule := Rule(Some(Get), [Under(["api", "jobs"])], PermitAll)
  const PostJobRule := Rule(Some(Post), [Exact(["api", "jobs"])], AnyRole(RecruiterOrAdmin))
  const PutJobRule := Rule(Some(Put), [Under(["api", "jobs"])], AnyRole(RecruiterOrAdmin))
  const DeleteJobRule := Rule(Some(Delete), [Under(["api", "jobs"])], AnyRole(RecruiterOrAdmin))
  const ApplyRule := Rule(None, [Under(["api", "applications", "apply"])], AnyRole({Candidate}))
  const MyApplicationsRule := Rule(None, [Exact(["api", "applications", "my"])], AnyRole({Candidate}))
  const JobApplicationsRule := Rule(None, [Under(["api", "applications", "job"])], AnyRole(RecruiterOrAdmin))
  const StatusRule := Rule(None, [Pattern([Literal("api"), Literal("applications"), AnySegment, Literal("status")], false)],
                           AnyRole(RecruiterOrAdmin))

  /** The rule table, in declaration order. */
  function Rules(): (r: seq<Rule>)
    ensures |r| == 10
  {
    [AuthRule, DocsRule, ReadJobsRule, PostJobRule, PutJobRule, DeleteJobRule,
     ApplyRule, MyApplicationsRule, JobApplicationsRule, StatusRule]
  }

  /** Three public rules come first; each of the seven after them demands a
      role, and no rule is left to plain authentication. */
  lemma OnlyTheFirstThreeRulesArePublic()
    ensures forall i :: 0 <= i < |Rules()| ==> (Rules()[i].access.PermitAll? <==> i < 3)
    ensures forall i :: 0 <= i < |Rules()| ==> !Rules()[i].access.Authenticated? && Rules()[i].patterns != []
  {
  }

  /** The position of the first rule that matches, if any. */
  function FirstMatch(rules: seq<Rule>, m: HttpMethod, path: Path): (r: Option<nat>)
    ensures r.Some? ==> r.value < |rules| && RuleMatches(rules[r.value], m, path)
    ensures r.Some? ==> forall j :: 0 <= j < r.value ==> !RuleMatches(rules[j], m, path)
    ensures r.None? ==> forall j :: 0 <= j < |rules| ==> !RuleMatches(rules[j], m, path)
  {
    if rules == [] then None
    else if RuleMatches(rules[0], m, path) then Some(0)
    else
      match FirstMatch(rules[1..], m, path)
      case None => None
      case Some(j) => Some(j + 1)
  }

  /** First-match is determined by which rules match: the rule at `i` decides
      exactly when it matches and no earlier one does. */
  lemma FirstMatchIs(rules: seq<Rule>, m: HttpMethod, path: Path, i: nat)
    requires i < |rules| && RuleMatches(rules[i], m, path)
    requires forall j :: 0 <= j < i ==> !RuleMatches(rules[j], m, path)
    ensures FirstMatch(rules, m, path) == Some(i)
  {
  }

  /** What the filter chain demands of a request: the first matching rule's
      access, or authentication when no rule matches. */
  function RequiredAccess(m: HttpMethod, path: Path): Access {
    match FirstMatch(Rules(), m, path)
    case Some(i) => Rules()[i].access
    case None => Authenticated
  }

  /** The filter chain's verdict. A missing principal stands for an anonymous request. */
  datatype Decision = Allow | DenyUnauthenticated | DenyForbidden

  function Decide(access: Access, principal: Option<UserPrincipal>): (d: Decision)
    ensures d == Allow <==>
      access.PermitAll? || (principal.Some? && (access.Authenticated? || HasAnyRole(principal.value, access.roles)))
    ensures d == DenyUnauthenticated <==> !access.PermitAll? && principal.None?
  {
    match access
    case PermitAll => Allow
    case Authenticated => if principal.Some? then Allow else DenyUnauthenticated
    case AnyRole(roles) =>
      if principal.None? then DenyUnauthenticated
      else if HasAnyRole(principal.value, roles) then Allow
      else DenyForbidden
  }

  function Authorize(m: HttpMethod, path: Path, principal: Option<UserPrincipal>): Decision {
    Decide(RequiredAccess(m, path), principal)
  }

  /** A principal built from a stored user passes a role rule exactly when the
      user's role is one of the rule's roles. */
  lemma RoleRuleAdmitsExactlyItsRoles(u: User, roles: set<Role>)
    ensures Decide(AnyRole(roles), Some(Create(u))) == Allow <==> u.role in roles
    ensures Decide(AnyRole(roles), Some(Create(u))) != Allow ==> Decide(AnyRole(roles), Some(Create(u))) == DenyForbidden
  {
    CreatedPrincipalHoldsExactlyItsRole(u, u.role);
  }

  // ---------------------------------------------------------------- the routes

  /** Every method on `/api/auth` and everything below it is public. */
  lemma AuthRoutesArePublic(m: HttpMethod, rest: Path)
    ensures RequiredAccess(m, ["api", "auth"] + rest) == PermitAll
  {
    var path := ["api", "auth"] + rest;
    assert PatternMatches(Rules()[0].patterns[0], path);
    FirstMatchIs(Rules(), m, path, 0);
  }

  /** A path under `/api/<second>` matches none of the documentation patterns, nor
      the auth rule unless `second` is "auth". */
  lemma ApiPathsSkipDocumentation(m: HttpMethod, second: string, rest: Path)
    requires second != "auth"
    ensures !RuleMatches(Rules()[0], m, ["api", second] + rest)
    ensures !RuleMatches(Rules()[1], m, ["api", second] + rest)
  {
    var path := ["api", second] + rest;
    assert path[0] == "api" && path[1] == second;
    var docs := Rules()[1].patterns;
    forall i | 0 <= i < |docs|
      ensures !PatternMatches(docs[i], path)
    {
      assert docs[i].segments[0].text != "api";
    }
  }

  /** GET on `/api/jobs` and everything below it is public. */
  lemma JobReadsArePublic(rest: Path)
    ensures RequiredAccess(Get, ["api", "jobs"] + rest) == PermitAll
  {
    var path := ["api", "jobs"] + rest;
    ApiPathsSkipDocumentation(Get, "jobs", rest);
    assert PatternMatches(Rules()[2].patterns[0], path);
    FirstMatchIs(Rules(), Get, path, 2);
  }

  /** POST to exactly `/api/jobs` needs RECRUITER or ADMIN. */
  lemma PostingJobsNeedsRecruiterOrAdmin()
    ensures RequiredAccess(Post, ["api", "jobs"]) == AnyRole({Recruiter, Admin})
  {
    var path: Path := ["api", "jobs"];
    ApiPathsSkipDocumentation(Post, "jobs", []);
    assert path == ["api", "jobs"] + [];
    assert PatternMatches(Rules()[3].patterns[0], path);
    FirstMatchIs(Rules(), Post, path, 3);
  }

  /** A POST below `/api/jobs` matches no rule and needs only authentication. */
  lemma PostingBelowJobsNeedsOnlyAuthentication(rest: Path)
    requires rest != []
    ensures RequiredAccess(Post, ["api", "jobs"] + rest) == Authenticated
  {
    var path := ["api", "jobs"] + rest;
    ApiPathsSkipDocumentation(Post, "jobs", rest);
    assert path[1] == "jobs";
    forall j | 0 <= j < |Rules()|
      ensures !RuleMatches(Rules()[j], Post, path)
    {
      if 6 <= j {
        assert Rules()[j].patterns[0].segments[1] == Literal("applications");
      }
    }
  }

  /** PUT and DELETE on `/api/jobs` and below need RECRUITER or ADMIN. */
  lemma ChangingJobsNeedsRecruiterOrAdmin(m: HttpMethod, rest: Path)
    requires m == Put || m == Delete
    ensures RequiredAccess(m, ["api", "jobs"] + rest) == AnyRole({Recruiter, Admin})
  {
    var path := ["api", "jobs"] + rest;
    ApiPathsSkipDocumentation(m, "jobs", rest);
    var i := if m == Put then 4 else 5;
    assert PatternMatches(Rules()[i].patterns[0], path);
    FirstMatchIs(Rules(), m, path, i);
  }

  /** The rules about jobs never match a path under `/api/applications`. */
  lemma ApplicationPathsSkipJobRules(m: HttpMethod, rest: Path)
    ensures forall j :: 0 <= j < 6 ==> !RuleMatches(Rules()[j], m, ["api", "applications"] + rest)
  {
    var path := ["api", "applications"] + rest;
    ApiPathsSkipDocumentation(m, "applications", rest);
    assert path[1] == "applications";
    forall j | 2 <= j < 6
      ensures !RuleMatches(Rules()[j], m, path)
    {
      assert Rules()[j].patterns[0].segments[1] == Literal("jobs");
    }
  }

  /** Any method on `/api/applications/apply` and below needs CANDIDATE. */
  lemma ApplyingNeedsCandidate(m: HttpMethod, rest: Path)
    ensures RequiredAccess(m, ["api", "applications", "apply"] + rest) == AnyRole({Candidate})
  {
    var path := ["api", "applications", "apply"] + rest;
    ApplicationPathsSkipJobRules(m, ["apply"] + rest);
    assert path == ["api", "applications"] + (["apply"] + rest);
    assert PatternMatches(Rules()[6].patterns[0], path);
    FirstMatchIs(Rules(), m, path, 6);
  }

  /** Any method on exactly `/api/applications/my` needs CANDIDATE. */
  lemma OwnApplicationsNeedCandidate(m: HttpMethod)
    ensures RequiredAccess(m, ["api", "applications", "my"]) == AnyRole({Candidate})
  {
    var path: Path := ["api", "applications", "my"];
    ApplicationPathsSkipJobRules(m, ["my"]);
    assert path == ["api", "applications"] + ["my"];
    assert !PatternMatches(Rules()[6].patterns[0], path) by {
      assert Rules()[6].patterns[0].segments[2] == Literal("apply");
    }
    assert PatternMatches(Rules()[7].patterns[0], path);
    FirstMatchIs(Rules(), m, path, 7);
  }

  /** Any method on `/api/applications/job` and below needs RECRUITER or ADMIN. */
  lemma JobApplicationsNeedRecruiterOrAdmin(m: HttpMethod, rest: Path)
    ensures RequiredAccess(m, ["api", "applications", "job"] + rest) == AnyRole({Recruiter, Admin})
  {
    var path := ["api", "applications", "job"] + rest;
    ApplicationPathsSkipJobRules(m, ["job"] + rest);
    assert path == ["api", "applications"] + (["job"] + rest);
    assert !PatternMatches(Rules()[6].patterns[0], path) by {
      assert Rules()[6].patterns[0].segments[2] == Literal("apply");
    }
    assert !PatternMatches(Rules()[7].patterns[0], path) by {
      assert Rules()[7].patterns[0].segments[2] == Literal("my");
    }
    assert PatternMatches(Rules()[8].patterns[0], path);
    FirstMatchIs(Rules(), m, path, 8);
  }

  /** Any method on `/api/applications/<id>/status` needs RECRUITER or ADMIN, for
      every non-empty segment in place of the id except "apply", whose rule comes first. */
  lemma StatusUpdatesNeedRecruiterOrAdmin(m: HttpMethod, id: string)
    requires id != "" && id != "apply"
    ensures RequiredAccess(m, ["api", "applications", id, "status"]) == AnyRole({Recruiter, Admin})
  {
    var path: Path := ["api", "applications", id, "status"];
    ApplicationPathsSkipJobRules(m, [id, "status"]);
    assert path == ["api", "applications"] + [id, "status"];
    assert !PatternMatches(Rules()[6].patterns[0], path) by {
      assert Rules()[6].patterns[0].segments[2] == Literal("apply");
    }
    assert !PatternMatches(Rules()[7].patterns[0], path);
    if id == "job" {
      assert PatternMatches(Rules()[8].patterns[0], path);
      FirstMatchIs(Rules(), m, path, 8);
    } else {
      assert !PatternMatches(Rules()[8].patterns[0], path) by {
        assert Rules()[8].patterns[0].segments[2] == Literal("job");
      }
      assert PatternMatches(Rules()[9].patterns[0], path);
      FirstMatchIs(Rules(), m, path, 9);
    }
  }

  /** The status rule's pattern matches `/api/applications/apply/status`, with
      "apply" in place of the id. */
  lemma StatusRuleMatchesApplyStatus()
    ensures RuleMatches(StatusRule, Put, ["api", "applications", "apply", "status"])
  {
    var path: Path := ["api", "applications", "apply", "status"];
    var p := StatusRule.patterns[0];
    assert forall i :: 0 <= i < 4 ==> SegmentMatches(p.segments[i], path[i]);
    assert PatternMatches(p, path);
  }

  /** Declaration order matters: `/api/applications/apply/status` is caught by the
      apply rule and needs CANDIDATE, although the status rule matches it too. */
  lemma ApplyRuleShadowsStatusRule()
    ensures RequiredAccess(Put, ["api", "applications", "apply", "status"]) == AnyRole({Candidate})
    ensures RuleMatches(Rules()[9], Put, ["api", "applications", "apply", "status"])
  {
    assert ["api", "applications", "apply", "status"] == ["api", "applications", "apply"] + ["status"];
    ApplyingNeedsCandidate(Put, ["status"]);
    StatusRuleMatchesApplyStatus();
    assert Rules()[9] == StatusRule;
  }

  /** A request that no rule matches needs only authentication: any principal
      passes, and an anonymous request is refused as unauthenticated. */
  lemma UnlistedRoutesNeedOnlyAuthentication(m: HttpMethod, path: Path, p: UserPrincipal)
    requires FirstMatch(Rules(), m, path).None?
    ensures RequiredAccess(m, path) == Authenticated
    ensures Authorize(m, path, Some(p)) == Allow
    ensures Authorize(m, path, None) == DenyUnauthenticated
  {
  }

  /** GET `/api/applications/5` is such a request: no rule lists it. */
  lemma ReadingOneApplicationNeedsOnlyAuthentication(u: User)
    ensures RequiredAccess(Get, ["api", "applications", "5"]) == Authenticated
    ensures Authorize(Get, ["api", "applications", "5"], Some(Create(u))) == Allow
    ensures Authorize(Get, ["api", "applications", "5"], None) == DenyUnauthenticated
  {
    var path: Path := ["api", "applications", "5"];
    ApplicationPathsSkipJobRules(Get, ["5"]);
    assert path == ["api", "applications"] + ["5"];
    assert path[2] == "5";
    forall j | 6 <= j < |Rules()|
      ensures !RuleMatches(Rules()[j], Get, path)
    {
      var p := Rules()[j].patterns[0];
      if j == 9 {
        assert |p.segments| == 4;
      } else {
        assert p.segments[2].Literal? && p.segments[2].text in {"apply", "my", "job"};
      }
    }
    UnlistedRoutesNeedOnlyAuthentication(Get, path, Create(u));
  }
}
