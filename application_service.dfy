/** Applying for jobs, listing applications and moving them through the
    hiring pipeline. The caller is passed in explicitly. */
module ApplicationService {
  import opened Common
  import opened Entities
  import opened Principal
  import opened Requests
  import opened Store
  import Repositories
  import JobService

  /** The application row a response describes: every column is carried over. */
  function ResponseRow(resp: ApplicationResponse): ApplicationRow {
    ApplicationRow(resp.id, resp.candidateId, resp.jobId, resp.status, resp.resumeLink, resp.appliedAt)
  }

  /** The response for a stored application: its columns, plus the candidate's
      name and email and the job's title looked up through its references. */
  function ConvertToResponse(db: Database, app: ApplicationRow): (r: ApplicationResponse)
    reads db
    requires app.candidateId in db.users && app.jobId in db.jobs
    ensures ResponseRow(r) == app
    ensures r.candidateName == db.users[app.candidateId].fullName
    ensures r.candidateEmail == db.users[app.candidateId].email
    ensures r.jobTitle == db.jobs[app.jobId].title
  {
    ApplicationResponse(app.id, app.candidateId, db.users[app.candidateId].fullName, db.users[app.candidateId].email,
                        app.jobId, db.jobs[app.jobId].title, app.status, app.resumeLink, app.appliedAt)
  }

  function ConvertAll(db: Database, apps: seq<ApplicationRow>): (r: seq<ApplicationResponse>)
    reads db
    requires forall a :: a in apps ==> a.candidateId in db.users && a.jobId in db.jobs
    ensures |r| == |apps|
    ensures forall i :: 0 <= i < |apps| ==> r[i] == ConvertToResponse(db, apps[i])
    ensures forall x :: x in r <==> exists a :: a in apps && x == ConvertToResponse(db, a)
    ensures forall i :: 0 <= i < |r| ==> r[i].id == apps[i].id
  {
    if apps == [] then [] else [ConvertToResponse(db, apps[0])] + ConvertAll(db, apps[1..])
  }

  /** The stored caller may view and update the applications of `job` when it
      owns the job or its stored role is ADMIN. */
  predicate MayManageApplications(user: User, job: JobRow) {
    job.postedById == user.id || user.role == Admin
  }

  function ApplicationNotFound(id: int): Failure {
    ResourceNotFound("Application not found with id: " + IntToString(id))
  }

  /** `applyForJob`: the checks run in a fixed order (stored user, its role, the
      job, the job's status, an earlier application) and the first that fails
      decides the error; on success exactly one APPLIED application is added. */
  method ApplyForJob(db: Database, caller: UserPrincipal, jobId: int, req: ApplicationRequest, now: Timestamp)
      returns (r: Result<ApplicationResponse>)
    requires db.Valid()
    requires ApplicationRequestViolations(req) == []
    modifies db
    ensures db.Valid()
    ensures caller.id !in old(db.users) ==> r == Err(ResourceNotFound("User not found")) && unchanged(db)
    ensures caller.id in old(db.users) && old(db.users[caller.id].role) != Candidate ==>
      r == Err(UnauthorizedAccess("Only candidates can apply for jobs")) && unchanged(db)
    ensures caller.id in old(db.users) && old(db.users[caller.id].role) == Candidate && jobId !in old(db.jobs) ==>
      r == Err(JobService.JobNotFound(jobId)) && unchanged(db)
    ensures (caller.id in old(db.users) && old(db.users[caller.id].role) == Candidate && jobId in old(db.jobs)
      && old(db.jobs[jobId].status) != Open) ==>
      r == Err(Validation("Cannot apply for a closed job")) && unchanged(db)
    ensures (caller.id in old(db.users) && old(db.users[caller.id].role) == Candidate && jobId in old(db.jobs)
      && old(db.jobs[jobId].status) == Open && old(HasApplied(db.applications, caller.id, jobId))) ==>
      r == Err(Validation("You have already applied for this job")) && unchanged(db)
    ensures r.Ok? <==>
      && caller.id in old(db.users) && old(db.users[caller.id].role) == Candidate && jobId in old(db.jobs)
      && old(db.jobs[jobId].status) == Open && !old(HasApplied(db.applications, caller.id, jobId))
    ensures r.Ok? ==>
      var id := old(db.nextApplicationId);
      && id !in old(db.applications)
      && db.applications == old(db.applications)[id := ApplicationRow(id, caller.id, jobId, Applied, req.resumeLink.value, now)]
      && db.users == old(db.users) && db.jobs == old(db.jobs)
      && db.nextApplicationId == id + 1 && db.nextUserId == old(db.nextUserId) && db.nextJobId == old(db.nextJobId)
      && HasApplied(db.applications, caller.id, jobId)
      && r.value == ConvertToResponse(db, db.applications[id])
  {
    if caller.id !in db.users {
      return Err(ResourceNotFound("User not found"));
    }
    var candidate := db.users[caller.id];
    if candidate.role != Candidate {
      return Err(UnauthorizedAccess("Only candidates can apply for jobs"));
    }
    var found := db.FindJob(jobId);
    if found.None? {
      return Err(JobService.JobNotFound(jobId));
    }
    var job := found.value;
    if job.status != Open {
      return Err(Validation("Cannot apply for a closed job"));
    }
    var existing := Repositories.FindByCandidateIdAndJobId(db.ApplicationTable(), candidate.id, jobId);
    if existing.Some? {
      assert existing.value in db.applications.Values;
      return Err(Validation("You have already applied for this job"));
    }
    assert !HasApplied(db.applications, caller.id, jobId) by {
      forall k | k in db.applications
        ensures !(db.applications[k].candidateId == caller.id && db.applications[k].jobId == jobId)
      {
        assert db.applications[k] in db.applications.Values;
      }
    }
    var application := new Application();
    application.candidateId := Some(candidate.id);
    application.jobId := Some(job.id.value);
    application.status := Applied;
    application.resumeLink := req.resumeLink;
    var id := db.SaveNewApplication(application, now);
    assert db.applications[id].candidateId == caller.id && db.applications[id].jobId == jobId;
    r := Ok(ConvertToResponse(db, db.applications[id]));
  }

  /** `getMyApplications`: no role check; exactly the applications whose
      candidate is the caller. */
  function GetMyApplications(db: Database, caller: UserPrincipal): (r: seq<ApplicationResponse>)
    reads db
    requires db.Valid()
    ensures forall x :: x in r <==>
      exists k :: k in db.applications && db.applications[k].candidateId == caller.id
        && x == ConvertToResponse(db, db.applications[k])
    ensures forall i, j :: 0 <= i < j < |r| ==> r[i].id < r[j].id
  {
    var rows := Repositories.FindByCandidateId(db.ApplicationTable(), caller.id);
    var r := ConvertAll(db, rows);
    assert forall x :: x in r <==>
      exists k :: k in db.applications && db.applications[k].candidateId == caller.id
        && x == ConvertToResponse(db, db.applications[k])
    by {
      forall x | x in r
        ensures exists k :: (k in db.applications && db.applications[k].candidateId == caller.id
          && x == ConvertToResponse(db, db.applications[k]))
      {
        var a :| a in rows && x == ConvertToResponse(db, a);
        var k :| k in db.applications && db.applications[k] == a;
      }
    }
    r
  }

  /** `getApplicationsByJob`: stored user, then the job, then ownership or the
      stored ADMIN role; on success exactly that job's applications. */
  function GetApplicationsByJob(db: Database, caller: UserPrincipal, jobId: int): (r: Result<seq<ApplicationResponse>>)
    reads db
    requires db.Valid()
    ensures caller.id !in db.users ==> r == Err(ResourceNotFound("User not found"))
    ensures caller.id in db.users && jobId !in db.jobs ==> r == Err(JobService.JobNotFound(jobId))
    ensures caller.id in db.users && jobId in db.jobs && !MayManageApplications(db.users[caller.id], db.jobs[jobId]) ==>
      r == Err(UnauthorizedAccess("You can only view applications for your own jobs"))
    ensures r.Ok? <==>
      caller.id in db.users && jobId in db.jobs && MayManageApplications(db.users[caller.id], db.jobs[jobId])
    ensures r.Ok? ==> forall x :: x in r.value <==>
      exists k :: k in db.applications && db.applications[k].jobId == jobId
        && x == ConvertToResponse(db, db.applications[k])
    ensures r.Ok? ==> forall i, j :: 0 <= i < j < |r.value| ==> r.value[i].id < r.value[j].id
  {
    if caller.id !in db.users then Err(ResourceNotFound("User not found"))
    else if jobId !in db.jobs then Err(JobService.JobNotFound(jobId))
    else if !MayManageApplications(db.users[caller.id], db.jobs[jobId]) then
      Err(UnauthorizedAccess("You can only view applications for your own jobs"))
    else
      var rows := Repositories.FindByJobId(db.ApplicationTable(), jobId);
      var found := ConvertAll(db, rows);
      assert forall x :: x in found <==>
        exists k :: k in db.applications && db.applications[k].jobId == jobId
          && x == ConvertToResponse(db, db.applications[k])
      by {
        forall x | x in found
          ensures exists k :: (k in db.applications && db.applications[k].jobId == jobId
            && x == ConvertToResponse(db, db.applications[k]))
        {
          var a :| a in rows && x == ConvertToResponse(db, a);
          var k :| k in db.applications && db.applications[k] == a;
        }
      }
      Ok(found)
  }

  /** `updateApplicationStatus`: stored user, then the application, then
      ownership of its job or the stored ADMIN role. Any status may be written,
      with no transition check; every other column is kept. */
  method UpdateApplicationStatus(db: Database, caller: UserPrincipal, id: int, req: UpdateApplicationStatusRequest)
      returns (r: Result<ApplicationResponse>)
    requires db.Valid()
    requires UpdateApplicationStatusRequestViolations(req) == []
    modifies db
    ensures db.Valid()
    ensures caller.id !in old(db.users) ==> r == Err(ResourceNotFound("User not found")) && unchanged(db)
    ensures caller.id in old(db.users) && id !in old(db.applications) ==>
      r == Err(ApplicationNotFound(id)) && unchanged(db)
    ensures (caller.id in old(db.users) && id in old(db.applications)
      && !MayManageApplications(old(db.users[caller.id]), old(db.jobs[db.applications[id].jobId]))) ==>
      r == Err(UnauthorizedAccess("You can only update applications for your own jobs")) && unchanged(db)
    ensures r.Ok? <==>
      && caller.id in old(db.users) && id in old(db.applications)
      && MayManageApplications(old(db.users[caller.id]), old(db.jobs[db.applications[id].jobId]))
    ensures r.Ok? ==>
      && db.applications == old(db.applications)[id := old(db.applications[id]).(status := req.status.value)]
      && db.users == old(db.users) && db.jobs == old(db.jobs)
      && db.nextApplicationId == old(db.nextApplicationId) && db.nextUserId == old(db.nextUserId)
      && db.nextJobId == old(db.nextJobId)
      && r.value == ConvertToResponse(db, db.applications[id])
    ensures id in db.applications ==>
      && db.applications[id].candidateId == old(db.applications[id].candidateId)
      && db.applications[id].jobId == old(db.applications[id].jobId)
      && db.applications[id].resumeLink == old(db.applications[id].resumeLink)
      && db.applications[id].appliedAt == old(db.applications[id].appliedAt)
  {
    if caller.id !in db.users {
      return Err(ResourceNotFound("User not found"));
    }
    var user := db.users[caller.id];
    var found := db.FindApplication(id);
    if found.None? {
      return Err(ApplicationNotFound(id));
    }
    var application := found.value;
    var job := db.jobs[application.jobId.value];
    if job.postedById != user.id && user.role != Admin {
      return Err(UnauthorizedAccess("You can only update applications for your own jobs"));
    }
    application.status := req.status.value;
    db.SaveApplication(application);
    r := Ok(ConvertToResponse(db, db.applications[id]));
  }
}
