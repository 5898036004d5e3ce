/** The persisted entities: users, jobs and applications.
    A table row is a value (`JobRow`, `ApplicationRow`, `User`); the objects
    the services build with setters before saving are the classes `Job` and
    `Application`, with their field defaults and their PrePersist hooks. */
module Entities {
  import opened Common

  /** The account roles; authorization compares them by name. */
  datatype Role = Admin | Recruiter | Candidate

  function RoleName(r: Role): string {
    match r
    case Admin => "ADMIN"
    case Recruiter => "RECRUITER"
    case Candidate => "CANDIDATE"
  }

  /** Only OPEN is named by the core; every other job status stays abstract. */
  datatype JobStatus = Open | OtherJobStatus(name: string)

  /** Only APPLIED is named by the core; every other application status stays abstract. */
  datatype ApplicationStatus = Applied | OtherApplicationStatus(name: string)

  /** The employment-type enumeration is not part of this model: its constants stay abstract. */
  datatype EmploymentType = EmploymentType(name: string)

  /** A row of the users table, with the fields registration sets. */
  datatype User = User(id: int, fullName: string, email: string, password: string, role: Role, isActive: bool)

  /** A row of the jobs table: every column is non-null. */
  datatype JobRow = JobRow(
    id: int,
    title: string,
    description: string,
    location: string,
    employmentType: EmploymentType,
    requiredSkills: seq<string>,
    experienceLevel: string,
    status: JobStatus,
    postedById: int,
    createdAt: Timestamp)

  /** A row of the applications table: every column is non-null. */
  datatype ApplicationRow = ApplicationRow(
    id: int,
    candidateId: int,
    jobId: int,
    status: ApplicationStatus,
    resumeLink: string,
    appliedAt: Timestamp)

  /** Ids strictly increase along the listing, so no row appears twice. */
  predicate JobIdsIncrease(rows: seq<JobRow>) {
    forall i, j :: 0 <= i < j < |rows| ==> rows[i].id < rows[j].id
  }

  predicate ApplicationIdsIncrease(rows: seq<ApplicationRow>) {
    forall i, j :: 0 <= i < j < |rows| ==> rows[i].id < rows[j].id
  }

  /** A job object as the service manipulates it before it is saved. Reference
      columns hold the referenced id; `None` stands for Java's null. */
  class Job {
    var id: Option<int>
    var title: Option<string>
    var description: Option<string>
    var location: Option<string>
    var employmentType: Option<EmploymentType>
    var requiredSkills: seq<string>
    var experienceLevel: Option<string>
    var status: JobStatus
    var postedById: Option<int>
    var createdAt: Option<Timestamp>
    /** The inverse side of Application.job; it is not a column of the jobs table. */
    var applicationIds: seq<int>

    /** `new Job()`: skills and applications start empty, the status starts OPEN,
        everything else starts null. */
    constructor ()
      ensures id == None && title == None && description == None && location == None
      ensures employmentType == None && experienceLevel == None && postedById == None
      ensures requiredSkills == [] && applicationIds == []
      ensures status == Open
      ensures createdAt == None
    {
      id, title, description, location := None, None, None, None;
      employmentType, experienceLevel, postedById := None, None, None;
      requiredSkills, applicationIds := [], [];
      status := Open;
      createdAt := None;
    }

    /** `new Job()` filled from a stored row, as a repository lookup returns it. */
    constructor FromRow(row: JobRow)
      ensures Complete() && Row() == row
      ensures applicationIds == []
    {
      id, title, description, location := Some(row.id), Some(row.title), Some(row.description), Some(row.location);
      employmentType, experienceLevel := Some(row.employmentType), Some(row.experienceLevel);
      requiredSkills, status, postedById := row.requiredSkills, row.status, Some(row.postedById);
      createdAt := Some(row.createdAt);
      applicationIds := [];
    }

    /** The PrePersist hook: the creation time is always (re)assigned. */
    method OnCreate(now: Timestamp)
      modifies this`createdAt
      ensures createdAt == Some(now)
    {
      createdAt := Some(now);
    }

    /** Every non-null column holds a value, so the object can be written as a row. */
    predicate Complete()
      reads this
    {
      id.Some? && title.Some? && description.Some? && location.Some? && employmentType.Some?
      && experienceLevel.Some? && postedById.Some? && createdAt.Some?
    }

    function Row(): JobRow
      reads this
      requires Complete()
    {
      JobRow(id.value, title.value, description.value, location.value, employmentType.value,
             requiredSkills, experienceLevel.value, status, postedById.value, createdAt.value)
    }
  }

  /** An application object as the service manipulates it before it is saved. */
  class Application {
    var id: Option<int>
    var candidateId: Option<int>
    var jobId: Option<int>
    var status: ApplicationStatus
    var resumeLink: Option<string>
    var appliedAt: Option<Timestamp>

    /** `new Application()`: the status starts APPLIED, everything else starts null. */
    constructor ()
      ensures id == None && candidateId == None && jobId == None && resumeLink == None
      ensures status == Applied
      ensures appliedAt == None
    {
      id, candidateId, jobId, resumeLink := None, None, None, None;
      status := Applied;
      appliedAt := None;
    }

    constructor FromRow(row: ApplicationRow)
      ensures Complete() && Row() == row
    {
      id, candidateId, jobId := Some(row.id), Some(row.candidateId), Some(row.jobId);
      status, resumeLink, appliedAt := row.status, Some(row.resumeLink), Some(row.appliedAt);
    }

    /** The PrePersist hook: the application time is assigned only when still null. */
    method OnCreate(now: Timestamp)
      modifies this`appliedAt
      ensures old(appliedAt).None? ==> appliedAt == Some(now)
      ensures old(appliedAt).Some? ==> appliedAt == old(appliedAt)
    {
      if appliedAt.None? {
        appliedAt := Some(now);
      }
    }

    predicate Complete()
      reads this
    {
      id.Some? && candidateId.Some? && jobId.Some? && resumeLink.Some? && appliedAt.Some?
    }

    function Row(): ApplicationRow
      reads this
      requires Complete()
    {
      ApplicationRow(id.value, candidateId.value, jobId.value, status, resumeLink.value, appliedAt.value)
    }
  }
}
