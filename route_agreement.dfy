/** The two authorization layers side by side: the filter chain's route table
    and the controllers' method-level annotations demand the same roles for
    every endpoint, so a request the route table admits is never refused by an
    annotation (a refusal that would surface as a server error). */
module RouteAgreement {
  import opened Common
  import opened Entities
  import opened Principal
  import opened SecurityConfig
  import JobController
  import ApplicationController

  /** The route-table access that corresponds to an annotation's role set. */
  function AccessFor(roles: Option<set<Role>>): Access {
    if roles.Some? then AnyRole(roles.value) else PermitAll
  }

  /** A rendered id is never the empty segment nor one of the literal words
      of the application routes. */
  lemma RenderedIdIsNoRouteWord(id: int)
    ensures IntToString(id) != "" && IntToString(id) != "apply"
  {
    IntToStringIsNumeral(id);
    var s := IntToString(id);
    assert s[0] == '-' || '0' <= s[0] <= '9';
    assert "apply"[0] == 'a';
  }

  lemma JobRoutesMatchAnnotations(e: JobController.Endpoint)
    ensures RequiredAccess(JobController.Verb(e), JobController.Route(e)) == AccessFor(JobController.RequiredRoles(e))
  {
    match e
    case CreateJob => PostingJobsNeedsRecruiterOrAdmin();
    case GetAllJobs =>
      assert JobController.Route(e) == ["api", "jobs"] + [];
      JobReadsArePublic([]);
    case SearchJobs =>
      assert JobController.Route(e) == ["api", "jobs"] + ["search"];
      JobReadsArePublic(["search"]);
    case GetJobById(id) =>
      assert JobController.Route(e) == ["api", "jobs"] + [IntToString(id)];
      JobReadsArePublic([IntToString(id)]);
    case UpdateJob(id) =>
      assert JobController.Route(e) == ["api", "jobs"] + [IntToString(id)];
      ChangingJobsNeedsRecruiterOrAdmin(Put, [IntToString(id)]);
    case DeleteJob(id) =>
      assert JobController.Route(e) == ["api", "jobs"] + [IntToString(id)];
      ChangingJobsNeedsRecruiterOrAdmin(Delete, [IntToString(id)]);
  }

  lemma ApplicationRoutesMatchAnnotations(e: ApplicationController.Endpoint)
    ensures RequiredAccess(ApplicationController.Verb(e), ApplicationController.Route(e))
      == AnyRole(ApplicationController.RequiredRoles(e))
  {
    match e
    case Apply(jobId) =>
      assert ApplicationController.Route(e) == ["api", "applications", "apply"] + [IntToString(jobId)];
      ApplyingNeedsCandidate(Post, [IntToString(jobId)]);
    case MyApplications => OwnApplicationsNeedCandidate(Get);
    case ApplicationsForJob(jobId) =>
      assert ApplicationController.Route(e) == ["api", "applications", "job"] + [IntToString(jobId)];
      JobApplicationsNeedRecruiterOrAdmin(Get, [IntToString(jobId)]);
    case UpdateStatus(id) =>
      RenderedIdIsNoRouteWord(id);
      StatusUpdatesNeedRecruiterOrAdmin(Put, IntToString(id));
  }

  /** For an authenticated caller the route table admits a job request exactly
      when the annotation does; anonymous callers reach exactly the reading endpoints. */
  lemma JobLayersAgree(e: JobController.Endpoint, p: UserPrincipal)
    ensures Authorize(JobController.Verb(e), JobController.Route(e), Some(p)) == Allow
      <==> JobController.PreAuthorizeAllows(e, p)
    ensures Authorize(JobController.Verb(e), JobController.Route(e), None) == Allow
      <==> JobController.RequiredRoles(e).None?
  {
    JobRoutesMatchAnnotations(e);
  }

  /** For an authenticated caller the route table admits an application request
      exactly when the annotation does; anonymous callers reach none of them. */
  lemma ApplicationLayersAgree(e: ApplicationController.Endpoint, p: UserPrincipal)
    ensures Authorize(ApplicationController.Verb(e), ApplicationController.Route(e), Some(p)) == Allow
      <==> ApplicationController.PreAuthorizeAllows(e, p)
    ensures Authorize(ApplicationController.Verb(e), ApplicationController.Route(e), None) == DenyUnauthenticated
  {
    ApplicationRoutesMatchAnnotations(e);
  }
}
