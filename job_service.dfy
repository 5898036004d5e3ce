/** Posting, editing, deleting and reading jobs. The caller is passed in
    explicitly instead of being read from a thread-bound security context. */
module JobService {
  import opened Common
  import opened Entities
  import opened Principal
  import opened Requests
  import opened Store
  import Repositories

  /** The roles whose stored user record may post a job. */
  predicate MayPostJobs(r: Role) {
    r == Recruiter || r == Admin
  }

  /** Update and delete are allowed to the owner, or to a caller whose token role is ADMIN. */
  predicate MayChangeJob(caller: UserPrincipal, job: JobRow) {
    job.postedById == caller.id || caller.role == Admin
  }

  function JobNotFound(id: int): Failure {
    ResourceNotFound("Job not found with id: " + IntToString(id))
  }

  /** The job row a response describes: every column is carried over. */
  function ResponseRow(resp: JobResponse): JobRow {
    JobRow(resp.id, resp.title, resp.description, resp.location, resp.employmentType, resp.requiredSkills,
           resp.experienceLevel, resp.status, resp.postedById, resp.createdAt)
  }

  /** The response for a stored job: its columns, and its owner's id and full name. */
  function ConvertToResponse(db: Database, job: JobRow): (r: JobResponse)
    reads db
    requires job.postedById in db.users
    ensures ResponseRow(r) == job
    ensures r.postedBy == db.users[job.postedById].fullName
  {
    JobResponse(job.id, job.title, job.description, job.location, job.employmentType, job.requiredSkills,
                job.experienceLevel, job.status, db.users[job.postedById].fullName, job.postedById, job.createdAt)
  }

  function ConvertAll(db: Database, jobs: seq<JobRow>): (r: seq<JobResponse>)
    reads db
    requires forall j :: j in jobs ==> j.postedById in db.users
    ensures |r| == |jobs|
    ensures forall i :: 0 <= i < |jobs| ==> r[i] == ConvertToResponse(db, jobs[i])
    ensures forall x :: x in r <==> exists j :: j in jobs && x == ConvertToResponse(db, j)
    ensures forall i :: 0 <= i < |r| ==> r[i].id == jobs[i].id
  {
    if jobs == [] then [] else [ConvertToResponse(db, jobs[0])] + ConvertAll(db, jobs[1..])
  }

  /** `getJobById`: a read; an unknown id is reported as not found. */
  function GetJobById(db: Database, id: int): (r: Result<JobResponse>)
    reads db
    requires db.Valid()
    ensures r.Ok? <==> id in db.jobs
    ensures r.Ok? ==> ResponseRow(r.value) == db.jobs[id] && r.value.postedBy == db.users[db.jobs[id].postedById].fullName
    ensures r.Err? ==> r.failure == JobNotFound(id)
  {
    if id in db.jobs then Ok(ConvertToResponse(db, db.jobs[id])) else Err(JobNotFound(id))
  }

  /** `getAllJobs` before paging: every stored job, converted. */
  function GetAllJobs(db: Database): (r: seq<JobResponse>)
    reads db
    requires db.Valid()
    ensures forall x :: x in r <==> exists k :: k in db.jobs && x == ConvertToResponse(db, db.jobs[k])
    ensures forall i, j :: 0 <= i < j < |r| ==> r[i].id < r[j].id
  {
    var rows := db.JobTable();
    var r := ConvertAll(db, rows);
    assert forall x :: x in r <==> exists k :: k in db.jobs && x == ConvertToResponse(db, db.jobs[k]) by {
      forall x | x in r
        ensures exists k :: k in db.jobs && x == ConvertToResponse(db, db.jobs[k])
      {
        var j :| j in rows && x == ConvertToResponse(db, j);
        var k :| k in db.jobs && db.jobs[k] == j;
      }
    }
    r
  }

  /** `searchJobs` before paging: exactly the stored jobs that pass the search filter, converted. */
  function SearchJobs(db: Database, skill: Option<string>, location: Option<string>, status: Option<JobStatus>): (r: seq<JobResponse>)
    reads db
    requires db.Valid()
    ensures forall x :: x in r <==>
      exists k :: k in db.jobs && Repositories.SearchMatches(db.jobs[k], skill, location, status)
        && x == ConvertToResponse(db, db.jobs[k])
    ensures forall i, j :: 0 <= i < j < |r| ==> r[i].id < r[j].id
  {
    var rows := Repositories.SearchJobs(db.JobTable(), skill, location, status);
    var r := ConvertAll(db, rows);
    assert forall x :: x in r <==>
      exists k :: k in db.jobs && Repositories.SearchMatches(db.jobs[k], skill, location, status)
        && x == ConvertToResponse(db, db.jobs[k])
    by {
      forall x | x in r
        ensures exists k :: (k in db.jobs && Repositories.SearchMatches(db.jobs[k], skill, location, status)
          && x == ConvertToResponse(db, db.jobs[k]))
      {
        var j :| j in rows && x == ConvertToResponse(db, j);
        var k :| k in db.jobs && db.jobs[k] == j;
      }
    }
    r
  }

  /** `createJob`: the stored caller must be a recruiter or an admin; the new job
      takes the request's fields, status OPEN and the caller as owner. */
  method CreateJob(db: Database, caller: UserPrincipal, req: JobRequest, now: Timestamp) returns (r: Result<JobResponse>)
    requires db.Valid()
    requires ValidJobRequest(req)
    modifies db
    ensures db.Valid()
    ensures caller.id !in old(db.users) ==> r == Err(ResourceNotFound("User not found")) && unchanged(db)
    ensures caller.id in old(db.users) && !MayPostJobs(old(db.users[caller.id].role)) ==>
      r == Err(UnauthorizedAccess("Only recruiters can post jobs")) && unchanged(db)
    ensures caller.id in old(db.users) && MayPostJobs(old(db.users[caller.id].role)) ==>
      var id := old(db.nextJobId);
      && id !in old(db.jobs)
      && db.jobs == old(db.jobs)[id := JobRow(id, req.title.value, req.description.value, req.location.value,
           req.employmentType.value, req.requiredSkills.value, req.experienceLevel.value, Open, caller.id, now)]
      && db.users == old(db.users) && db.applications == old(db.applications)
      && db.nextJobId == id + 1 && db.nextUserId == old(db.nextUserId)
      && db.nextApplicationId == old(db.nextApplicationId)
      && r == GetJobById(db, id)
  {
    if caller.id !in db.users {
      return Err(ResourceNotFound("User not found"));
    }
    var recruiter := db.users[caller.id];
    if recruiter.role != Recruiter && recruiter.role != Admin {
      return Err(UnauthorizedAccess("Only recruiters can post jobs"));
    }
    var job := new Job();
    job.title := req.title;
    job.description := req.description;
    job.location := req.location;
    job.employmentType := req.employmentType;
    job.requiredSkills := req.requiredSkills.value;
    job.experienceLevel := req.experienceLevel;
    job.status := Open;
    job.postedById := Some(recruiter.id);
    var id := db.SaveNewJob(job, now);
    r := Ok(ConvertToResponse(db, db.jobs[id]));
  }

  /** `updateJob`: no user lookup; the job must exist, then the caller must own it or
      carry the ADMIN role in the token. Only the six descriptive fields change. */
  method UpdateJob(db: Database, caller: UserPrincipal, id: int, req: JobRequest) returns (r: Result<JobResponse>)
    requires db.Valid()
    requires ValidJobRequest(req)
    modifies db
    ensures db.Valid()
    ensures id !in old(db.jobs) ==> r == Err(JobNotFound(id)) && unchanged(db)
    ensures id in old(db.jobs) && !MayChangeJob(caller, old(db.jobs[id])) ==>
      r == Err(UnauthorizedAccess("You can only update your own jobs")) && unchanged(db)
    ensures id in old(db.jobs) && MayChangeJob(caller, old(db.jobs[id])) ==>
      && db.jobs == old(db.jobs)[id := old(db.jobs[id]).(title := req.title.value, description := req.description.value,
           location := req.location.value, employmentType := req.employmentType.value,
           requiredSkills := req.requiredSkills.value, experienceLevel := req.experienceLevel.value)]
      && db.users == old(db.users) && db.applications == old(db.applications)
      && db.nextJobId == old(db.nextJobId) && db.nextUserId == old(db.nextUserId)
      && db.nextApplicationId == old(db.nextApplicationId)
      && r == GetJobById(db, id)
    ensures id in db.jobs ==>
      && db.jobs[id].id == id && db.jobs[id].status == old(db.jobs[id].status)
      && db.jobs[id].postedById == old(db.jobs[id].postedById) && db.jobs[id].createdAt == old(db.jobs[id].createdAt)
  {
    var found := db.FindJob(id);
    if found.None? {
      return Err(JobNotFound(id));
    }
    var job := found.value;
    if job.postedById.value != caller.id && caller.role != Admin {
      return Err(UnauthorizedAccess("You can only update your own jobs"));
    }
    job.title := req.title;
    job.description := req.description;
    job.location := req.location;
    job.employmentType := req.employmentType;
    job.requiredSkills := req.requiredSkills.value;
    job.experienceLevel := req.experienceLevel;
    db.SaveJob(job);
    r := Ok(ConvertToResponse(db, db.jobs[id]));
  }

  /** `deleteJob`: the same gate as update; the job and all its applications go. */
  method DeleteJob(db: Database, caller: UserPrincipal, id: int) returns (r: Result<()>)
    requires db.Valid()
    modifies db
    ensures db.Valid()
    ensures id !in old(db.jobs) ==> r == Err(JobNotFound(id)) && unchanged(db)
    ensures id in old(db.jobs) && !MayChangeJob(caller, old(db.jobs[id])) ==>
      r == Err(UnauthorizedAccess("You can only delete your own jobs")) && unchanged(db)
    ensures id in old(db.jobs) && MayChangeJob(caller, old(db.jobs[id])) ==>
      && r == Ok(())
      && db.jobs == old(db.jobs) - {id}
      && db.applications == WithoutJob(old(db.applications), id)
      && db.users == old(db.users)
      && db.nextJobId == old(db.nextJobId) && db.nextUserId == old(db.nextUserId)
      && db.nextApplicationId == old(db.nextApplicationId)
      && GetJobById(db, id) == Err(JobNotFound(id))
  {
    var found := db.FindJob(id);
    if found.None? {
      return Err(JobNotFound(id));
    }
    var job := found.value;
    if job.postedById.value != caller.id && caller.role != Admin {
      return Err(UnauthorizedAccess("You can only delete your own jobs"));
    }
    db.DeleteJob(id);
    r := Ok(());
  }
}
