/** The application endpoints: their routes, the role sets of their
    method-level security annotations, and their success statuses and messages. */
module ApplicationController {
  import opened Common
  import opened Entities
  import opened Principal
  import opened SecurityConfig
  import opened GlobalExceptionHandler

  datatype Endpoint = Apply(jobId: int) | MyApplications | ApplicationsForJob(jobId: int) | UpdateStatus(applicationId: int)

  function Verb(e: Endpoint): HttpMethod {
    match e
    case Apply(_) => Post
    case MyApplications => Get
    case ApplicationsForJob(_) => Get
    case UpdateStatus(_) => Put
  }

  function Route(e: Endpoint): Path {
    match e
    case Apply(jobId) => ["api", "applications", "apply", IntToString(jobId)]
    case MyApplications => ["api", "applications", "my"]
    case ApplicationsForJob(jobId) => ["api", "applications", "job", IntToString(jobId)]
    case UpdateStatus(id) => ["api", "applications", IntToString(id), "status"]
  }

  /** Every application endpoint carries a role annotation: CANDIDATE for the
      candidate's two, RECRUITER or ADMIN for the hiring side's two. */
  function RequiredRoles(e: Endpoint): (r: set<Role>)
    ensures Candidate in r <==> e.Apply? || e.MyApplications?
    ensures r == {Candidate} || r == {Recruiter, Admin}
  {
    if e.Apply? || e.MyApplications? then {Candidate} else {Recruiter, Admin}
  }

  predicate PreAuthorizeAllows(e: Endpoint, p: UserPrincipal) {
    HasAnyRole(p, RequiredRoles(e))
  }

  function SuccessStatus(e: Endpoint): int {
    if e.Apply? then CreatedStatus else OkStatus
  }

  function SuccessMessage(e: Endpoint): string {
    match e
    case Apply(_) => "Application submitted successfully"
    case MyApplications => "Applications retrieved successfully"
    case ApplicationsForJob(_) => "Applications retrieved successfully"
    case UpdateStatus(_) => "Application status updated successfully"
  }

  /** The HTTP response for a service outcome: the endpoint's success status and
      message around the value, or the handler's answer. */
  function Respond<T>(e: Endpoint, result: Result<T>): (r: HttpResponse<T>)
    ensures r.body.success <==> result.Ok?
    ensures 200 <= r.status < 300 <==> result.Ok?
    ensures r.status == CreatedStatus <==> result.Ok? && e.Apply?
    ensures result.Ok? ==> r.body.payload == Data(result.value)
    ensures result.Err? ==> r == Handle(result.failure)
  {
    match result
    case Ok(v) => HttpResponse(SuccessStatus(e), ApiResponse(true, SuccessMessage(e), Data(v)))
    case Err(f) => Handle(f)
  }

  /** A principal built from a stored user passes the annotation exactly when
      the user's role is on the endpoint's side: candidates apply and list their
      own applications; recruiters and admins do the rest. No role passes both sides. */
  lemma EachSideHasItsRoles(e: Endpoint, u: User)
    ensures PreAuthorizeAllows(e, Create(u)) <==>
      (if e.Apply? || e.MyApplications? then u.role == Candidate else u.role == Recruiter || u.role == Admin)
    ensures PreAuthorizeAllows(Apply(0), Create(u)) != PreAuthorizeAllows(UpdateStatus(0), Create(u))
  {
    CreatedPrincipalHoldsExactlyItsRole(u, u.role);
  }
}
