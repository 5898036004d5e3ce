/** The database behind the three repositories: one table per entity, keyed by
    an identity column that starts at 1, plus the referential and uniqueness
    facts the services keep. */
module Store {
  import opened Common
  import opened Entities

  /** Every job's owner is a stored user. */
  ghost predicate JobsReferToUsers(users: map<int, User>, jobs: map<int, JobRow>) {
    forall k :: k in jobs ==> jobs[k].postedById in users
  }

  /** Every application's candidate is a stored user and its job a stored job. */
  ghost predicate ApplicationsReferToJobs(users: map<int, User>, jobs: map<int, JobRow>, apps: map<int, ApplicationRow>) {
    forall k :: k in apps ==> apps[k].candidateId in users && apps[k].jobId in jobs
  }

  /** At most one application per (candidate, job) pair. */
  ghost predicate OneApplicationPerPair(apps: map<int, ApplicationRow>) {
    forall a, b ::
      a in apps && b in apps && apps[a].candidateId == apps[b].candidateId && apps[a].jobId == apps[b].jobId
      ==> a == b
  }

  /** At most one user per email. */
  ghost predicate UniqueEmails(users: map<int, User>) {
    forall a, b :: a in users && b in users && users[a].email == users[b].email ==> a == b
  }

  predicate HasApplied(apps: map<int, ApplicationRow>, candidateId: int, jobId: int) {
    exists k :: k in apps && apps[k].candidateId == candidateId && apps[k].jobId == jobId
  }

  predicate EmailTaken(users: map<int, User>, email: string) {
    exists k :: k in users && users[k].email == email
  }

  /** Inserting an application for a pair that has none keeps the pairs unique;
      afterwards the pair has applied. */
  lemma InsertKeepsOneApplicationPerPair(apps: map<int, ApplicationRow>, id: int, row: ApplicationRow)
    requires OneApplicationPerPair(apps) && id !in apps
    requires !HasApplied(apps, row.candidateId, row.jobId)
    ensures OneApplicationPerPair(apps[id := row])
    ensures HasApplied(apps[id := row], row.candidateId, row.jobId)
  {
    assert apps[id := row][id] == row;
  }

  /** The applications table after the cascade removal of one job's applications. */
  function WithoutJob(apps: map<int, ApplicationRow>, jobId: int): (r: map<int, ApplicationRow>)
    ensures forall k :: k in r <==> k in apps && apps[k].jobId != jobId
    ensures forall k :: k in r ==> r[k] == apps[k]
  {
    map k | k in apps && apps[k].jobId != jobId :: apps[k]
  }

  /** Deleting a job together with its applications keeps every remaining
      application pointing at a stored job, and keeps the pairs unique. */
  lemma CascadeDeleteKeepsReferences(users: map<int, User>, jobs: map<int, JobRow>, apps: map<int, ApplicationRow>, jobId: int)
    requires ApplicationsReferToJobs(users, jobs, apps) && OneApplicationPerPair(apps)
    ensures ApplicationsReferToJobs(users, jobs - {jobId}, WithoutJob(apps, jobId))
    ensures OneApplicationPerPair(WithoutJob(apps, jobId))
  {
  }

  /** The rows of a table whose keys lie in [lo, hi), in key order. */
  function Rows<T>(m: map<int, T>, lo: int, hi: int): (r: seq<T>)
    decreases hi - lo
    ensures forall k :: lo <= k < hi && k in m ==> m[k] in r
    ensures forall x :: x in r ==> exists k :: lo <= k < hi && k in m && m[k] == x
  {
    if lo >= hi then []
    else (if lo in m then [m[lo]] else []) + Rows(m, lo + 1, hi)
  }

  /** When every value carries its own key, the rows come out with strictly
      increasing keys. */
  lemma {:induction false} RowsFollowKeys<T>(m: map<int, T>, lo: int, hi: int, key: T -> int)
    requires forall k :: k in m ==> key(m[k]) == k
    ensures forall i, j :: 0 <= i < j < |Rows(m, lo, hi)| ==> key(Rows(m, lo, hi)[i]) < key(Rows(m, lo, hi)[j])
    decreases hi - lo
  {
    if lo < hi {
      RowsFollowKeys(m, lo + 1, hi, key);
      var r := Rows(m, lo, hi);
      var rest := Rows(m, lo + 1, hi);
      var head := if lo in m then [m[lo]] else [];
      assert r == head + rest;
      forall i, j | 0 <= i < j < |r|
        ensures key(r[i]) < key(r[j])
      {
        if i < |head| {
          assert r[j] == rest[j - |head|] && r[j] in rest;
          var k :| lo + 1 <= k < hi && k in m && m[k] == r[j];
        } else {
          assert r[i] == rest[i - |head|] && r[j] == rest[j - |head|];
        }
      }
    }
  }

  class Database {
    var users: map<int, User>
    var jobs: map<int, JobRow>
    var applications: map<int, ApplicationRow>
    var nextUserId: int
    var nextJobId: int
    var nextApplicationId: int

    ghost predicate Valid()
      reads this
    {
      && 1 <= nextUserId && 1 <= nextJobId && 1 <= nextApplicationId
      && (forall k :: k in users ==> users[k].id == k && k < nextUserId)
      && (forall k :: k in jobs ==> jobs[k].id == k && k < nextJobId)
      && (forall k :: k in applications ==> applications[k].id == k && k < nextApplicationId)
      && (forall k :: k in users ==> 1 <= k)
      && (forall k :: k in jobs ==> 1 <= k)
      && (forall k :: k in applications ==> 1 <= k)
      && JobsReferToUsers(users, jobs)
      && ApplicationsReferToJobs(users, jobs, applications)
      && OneApplicationPerPair(applications)
      && UniqueEmails(users)
    }

    /** An empty database. */
    constructor ()
      ensures Valid()
      ensures users == map[] && jobs == map[] && applications == map[]
    {
      users, jobs, applications := map[], map[], map[];
      nextUserId, nextJobId, nextApplicationId := 1, 1, 1;
    }

    /** Every job row, in id order. */
    function JobTable(): (r: seq<JobRow>)
      reads this
      requires Valid()
      ensures forall j :: j in r <==> j in jobs.Values
      ensures JobIdsIncrease(r)
    {
      RowsFollowKeys(jobs, 1, nextJobId, (j: JobRow) => j.id);
      Rows(jobs, 1, nextJobId)
    }

    /** Every application row, in id order. */
    function ApplicationTable(): (r: seq<ApplicationRow>)
      reads this
      requires Valid()
      ensures forall a :: a in r <==> a in applications.Values
      ensures ApplicationIdsIncrease(r)
    {
      RowsFollowKeys(applications, 1, nextApplicationId, (a: ApplicationRow) => a.id);
      Rows(applications, 1, nextApplicationId)
    }

    /** `userRepository.findByEmail`: scans the users table. */
    method FindByEmail(email: string) returns (found: Option<User>)
      requires Valid()
      ensures found.Some? ==> found.value.id in users && users[found.value.id] == found.value
      ensures found.Some? ==> found.value.email == email
      ensures found.None? <==> !EmailTaken(users, email)
    {
      var k := 1;
      while k < nextUserId
        invariant 1 <= k <= nextUserId
        invariant forall j :: j in users && j < k ==> users[j].email != email
      {
        if k in users && users[k].email == email {
          return Some(users[k]);
        }
        k := k + 1;
      }
      return None;
    }

    /** `userRepository.existsByEmail`. */
    method ExistsByEmail(email: string) returns (b: bool)
      requires Valid()
      ensures b == EmailTaken(users, email)
    {
      var found := FindByEmail(email);
      b := found.Some?;
    }

    /** `userRepository.save` of a new user: the next identity value becomes its id. */
    method SaveNewUser(fullName: string, email: string, password: string, role: Role, isActive: bool) returns (id: int)
      requires Valid()
      requires !EmailTaken(users, email)
      modifies this
      ensures Valid()
      ensures id == old(nextUserId) && id !in old(users)
      ensures users == old(users)[id := User(id, fullName, email, password, role, isActive)]
      ensures jobs == old(jobs) && applications == old(applications)
      ensures nextUserId == id + 1 && nextJobId == old(nextJobId) && nextApplicationId == old(nextApplicationId)
    {
      id := nextUserId;
      users := users[id := User(id, fullName, email, password, role, isActive)];
      nextUserId := nextUserId + 1;
    }

    /** `jobRepository.findById`: the stored row as a fresh job object. */
    method FindJob(id: int) returns (found: Option<Job>)
      requires Valid()
      ensures found.Some? <==> id in jobs
      ensures found.Some? ==> fresh(found.value) && found.value.Complete() && found.value.Row() == jobs[id]
    {
      if id in jobs {
        var job := new Job.FromRow(jobs[id]);
        found := Some(job);
      } else {
        found := None;
      }
    }

    /** `jobRepository.save` of a new job: runs the PrePersist hook, takes the next
        identity value, and inserts the row. */
    method SaveNewJob(job: Job, now: Timestamp) returns (id: int)
      requires Valid()
      requires job.title.Some? && job.description.Some? && job.location.Some? && job.employmentType.Some?
      requires job.experienceLevel.Some? && job.postedById.Some? && job.postedById.value in users
      modifies this, job
      ensures Valid()
      ensures id == old(nextJobId) && id !in old(jobs)
      ensures jobs == old(jobs)[id := JobRow(id, old(job.title.value), old(job.description.value), old(job.location.value),
        old(job.employmentType.value), old(job.requiredSkills), old(job.experienceLevel.value), old(job.status),
        old(job.postedById.value), now)]
      ensures users == old(users) && applications == old(applications)
      ensures nextJobId == id + 1 && nextUserId == old(nextUserId) && nextApplicationId == old(nextApplicationId)
    {
      job.OnCreate(now);
      id := nextJobId;
      job.id := Some(id);
      jobs := jobs[id := job.Row()];
      nextJobId := nextJobId + 1;
    }

    /** `jobRepository.save` of a stored job: an UPDATE writes every column except
        createdAt, which is declared not updatable. */
    method SaveJob(job: Job)
      requires Valid()
      requires job.Complete() && job.id.value in jobs && job.postedById.value in users
      modifies this
      ensures Valid()
      ensures jobs == old(jobs)[job.id.value := job.Row().(createdAt := old(jobs[job.id.value].createdAt))]
      ensures users == old(users) && applications == old(applications)
      ensures nextUserId == old(nextUserId) && nextJobId == old(nextJobId) && nextApplicationId == old(nextApplicationId)
    {
      var id := job.id.value;
      jobs := jobs[id := job.Row().(createdAt := jobs[id].createdAt)];
    }

    /** `jobRepository.delete`: the job goes, and with cascade ALL every application for it. */
    method DeleteJob(id: int)
      requires Valid()
      modifies this
      ensures Valid()
      ensures jobs == old(jobs) - {id}
      ensures applications == WithoutJob(old(applications), id)
      ensures users == old(users)
      ensures nextUserId == old(nextUserId) && nextJobId == old(nextJobId) && nextApplicationId == old(nextApplicationId)
    {
      CascadeDeleteKeepsReferences(users, jobs, applications, id);
      applications := WithoutJob(applications, id);
      jobs := jobs - {id};
    }

    /** `applicationRepository.findById`: the stored row as a fresh application object. */
    method FindApplication(id: int) returns (found: Option<Application>)
      requires Valid()
      ensures found.Some? <==> id in applications
      ensures found.Some? ==> fresh(found.value) && found.value.Complete() && found.value.Row() == applications[id]
    {
      if id in applications {
        var application := new Application.FromRow(applications[id]);
        found := Some(application);
      } else {
        found := None;
      }
    }

    /** `applicationRepository.save` of a new application: runs the PrePersist hook,
        takes the next identity value, and inserts the row. */
    method SaveNewApplication(application: Application, now: Timestamp) returns (id: int)
      requires Valid()
      requires application.candidateId.Some? && application.jobId.Some? && application.resumeLink.Some?
      requires application.candidateId.value in users && application.jobId.value in jobs
      requires !HasApplied(applications, application.candidateId.value, application.jobId.value)
      modifies this, application
      ensures Valid()
      ensures id == old(nextApplicationId) && id !in old(applications)
      ensures applications == old(applications)[id := ApplicationRow(id, old(application.candidateId.value),
        old(application.jobId.value), old(application.status), old(application.resumeLink.value),
        if old(application.appliedAt).Some? then old(application.appliedAt.value) else now)]
      ensures HasApplied(applications, old(application.candidateId.value), old(application.jobId.value))
      ensures users == old(users) && jobs == old(jobs)
      ensures nextApplicationId == id + 1 && nextUserId == old(nextUserId) && nextJobId == old(nextJobId)
    {
      application.OnCreate(now);
      id := nextApplicationId;
      application.id := Some(id);
      InsertKeepsOneApplicationPerPair(applications, id, application.Row());
      applications := applications[id := application.Row()];
      nextApplicationId := nextApplicationId + 1;
    }

    /** `applicationRepository.save` of a stored application: an UPDATE writes every
        column except appliedAt, which is declared not updatable. */
    method SaveApplication(application: Application)
      requires Valid()
      requires application.Complete() && application.id.value in applications
      requires application.candidateId.value == applications[application.id.value].candidateId
      requires application.jobId.value == applications[application.id.value].jobId
      modifies this
      ensures Valid()
      ensures applications == old(applications)[application.id.value :=
        application.Row().(appliedAt := old(applications[application.id.value].appliedAt))]
      ensures users == old(users) && jobs == old(jobs)
      ensures nextUserId == old(nextUserId) && nextJobId == old(nextJobId) && nextApplicationId == old(nextApplicationId)
    {
      var id := application.id.value;
      applications := applications[id := application.Row().(appliedAt := applications[id].appliedAt)];
    }
  }
}
