/** The derived and hand-written repository queries, as filters over the rows
    of a table. */
module Repositories {
  import opened Common
  import opened Entities

  /** The rows of `s` that satisfy `p`, in their original order. */
  function Filter<T(!new)>(s: seq<T>, p: T -> bool): (r: seq<T>)
    ensures |r| <= |s|
    ensures forall x :: x in r <==> x in s && p(x)
  {
    if s == [] then []
    else (if p(s[0]) then [s[0]] else []) + Filter(s[1..], p)
  }

  /** Filtering keeps everything when nothing is rejected. */
  lemma {:induction false} FilterKeepsAll<T(!new)>(s: seq<T>, p: T -> bool)
    requires forall x :: x in s ==> p(x)
    ensures Filter(s, p) == s
  {
    if s != [] {
      FilterKeepsAll(s[1..], p);
    }
  }

  /** Two filters in a row are one filter by the conjunction. */
  lemma {:induction false} FilterTwice<T(!new)>(s: seq<T>, p: T -> bool, q: T -> bool, pq: T -> bool)
    requires forall x :: pq(x) == (p(x) && q(x))
    ensures Filter(Filter(s, p), q) == Filter(s, pq)
  {
    if s != [] {
      FilterTwice(s[1..], p, q, pq);
      var rest := Filter(s[1..], p);
      if p(s[0]) {
        var kept := [s[0]] + rest;
        assert Filter(s, p) == kept;
        assert kept[0] == s[0] && kept[1..] == rest;
        assert Filter(kept, q) == (if q(s[0]) then [s[0]] else []) + Filter(rest, q);
      } else {
        assert Filter(s, p) == [] + rest == rest;
      }
      assert Filter(s, pq) == (if pq(s[0]) then [s[0]] else []) + Filter(s[1..], pq);
    }
  }

  /** Filters by pointwise-equal predicates agree. */
  lemma {:induction false} FilterSamePredicate<T(!new)>(s: seq<T>, p: T -> bool, q: T -> bool)
    requires forall x :: p(x) == q(x)
    ensures Filter(s, p) == Filter(s, q)
  {
    if s != [] {
      FilterSamePredicate(s[1..], p, q);
    }
  }

  /** A filter keeps the order of what it keeps: keys that increase along the
      input increase along the output. */
  lemma {:induction false} FilterKeepsIncreasing<T(!new)>(s: seq<T>, p: T -> bool, key: T -> int)
    ensures (forall i, j :: 0 <= i < j < |s| ==> key(s[i]) < key(s[j])) ==>
      forall i, j :: 0 <= i < j < |Filter(s, p)| ==> key(Filter(s, p)[i]) < key(Filter(s, p)[j])
  {
    if s != [] && forall i, j :: 0 <= i < j < |s| ==> key(s[i]) < key(s[j]) {
      var rest := Filter(s[1..], p);
      FilterKeepsIncreasing(s[1..], p, key);
      var r := Filter(s, p);
      var head := if p(s[0]) then [s[0]] else [];
      assert r == head + rest;
      forall i, j | 0 <= i < j < |r|
        ensures key(r[i]) < key(r[j])
      {
        if i < |head| {
          assert r[j] == rest[j - |head|] && r[j] in rest;
          var k :| 0 <= k < |s[1..]| && s[1..][k] == r[j];
          assert s[1..][k] == s[k + 1];
        } else {
          assert r[i] == rest[i - |head|] && r[j] == rest[j - |head|];
        }
      }
    }
  }

  // ---------------------------------------------------------------- jobs

  predicate SkillMatches(j: JobRow, skill: Option<string>) {
    skill.None? || skill.value in j.requiredSkills
  }

  predicate LocationMatches(j: JobRow, location: Option<string>) {
    location.None? || ContainsSubstring(Lower(j.location), Lower(location.value))
  }

  predicate StatusMatches(j: JobRow, status: Option<JobStatus>) {
    status.None? || j.status == status.value
  }

  /** The WHERE clause of `searchJobs`: each filter applies only when it is given. */
  predicate SearchMatches(j: JobRow, skill: Option<string>, location: Option<string>, status: Option<JobStatus>) {
    SkillMatches(j, skill) && LocationMatches(j, location) && StatusMatches(j, status)
  }

  /** `jobRepository.searchJobs` before paging. */
  function SearchJobs(jobs: seq<JobRow>, skill: Option<string>, location: Option<string>, status: Option<JobStatus>): (r: seq<JobRow>)
    ensures forall j :: j in r <==> j in jobs && SearchMatches(j, skill, location, status)
    ensures JobIdsIncrease(jobs) ==> JobIdsIncrease(r)
  {
    FilterKeepsIncreasing(jobs, (j: JobRow) => SearchMatches(j, skill, location, status), (j: JobRow) => j.id);
    Filter(jobs, (j: JobRow) => SearchMatches(j, skill, location, status))
  }

  /** `jobRepository.findByStatus` before paging. */
  function FindByStatus(jobs: seq<JobRow>, status: JobStatus): (r: seq<JobRow>)
    ensures forall j :: j in r <==> j in jobs && j.status == status
    ensures JobIdsIncrease(jobs) ==> JobIdsIncrease(r)
  {
    FilterKeepsIncreasing(jobs, (j: JobRow) => j.status == status, (j: JobRow) => j.id);
    Filter(jobs, (j: JobRow) => j.status == status)
  }

  /** `jobRepository.findByPostedBy_Id`: the owner's jobs, as many as the rows
      counted one by one, in table order. */
  function FindByPostedById(jobs: seq<JobRow>, recruiterId: int): (r: seq<JobRow>)
    ensures forall j :: j in r <==> j in jobs && j.postedById == recruiterId
    ensures |r| == Count(jobs, (j: JobRow) => j.postedById == recruiterId)
    ensures JobIdsIncrease(jobs) ==> JobIdsIncrease(r)
  {
    FilterLengthIsCount(jobs, (j: JobRow) => j.postedById == recruiterId);
    FilterKeepsIncreasing(jobs, (j: JobRow) => j.postedById == recruiterId, (j: JobRow) => j.id);
    Filter(jobs, (j: JobRow) => j.postedById == recruiterId)
  }

  /** With every filter null the search returns every job, in order. */
  lemma SearchWithoutFiltersReturnsAll(jobs: seq<JobRow>)
    ensures SearchJobs(jobs, None, None, None) == jobs
  {
    FilterKeepsAll(jobs, (j: JobRow) => SearchMatches(j, None, None, None));
  }

  /** The search is the conjunction of three independent filters: skill, then
      location, then status give the same rows as all three at once. */
  lemma SearchIsConjunction(jobs: seq<JobRow>, skill: Option<string>, location: Option<string>, status: Option<JobStatus>)
    ensures SearchJobs(jobs, skill, location, status)
      == SearchJobs(SearchJobs(SearchJobs(jobs, skill, None, None), None, location, None), None, None, status)
  {
    var s := SearchJobs(jobs, skill, None, None);
    var ps := (j: JobRow) => SearchMatches(j, skill, None, None);
    var pl := (j: JobRow) => SearchMatches(j, None, location, None);
    var pt := (j: JobRow) => SearchMatches(j, None, None, status);
    var psl := (j: JobRow) => ps(j) && pl(j);
    var all := (j: JobRow) => SearchMatches(j, skill, location, status);
    FilterTwice(jobs, ps, pl, psl);
    FilterTwice(jobs, psl, pt, all);
  }

  /** `findByStatus` is the search with only the status filter given. */
  lemma FindByStatusIsStatusSearch(jobs: seq<JobRow>, status: JobStatus)
    ensures FindByStatus(jobs, status) == SearchJobs(jobs, None, None, Some(status))
  {
    FilterSamePredicate(jobs, (j: JobRow) => j.status == status, (j: JobRow) => SearchMatches(j, None, None, Some(status)));
  }

  /** The location filter ignores the letter case of the argument. */
  lemma LocationFilterIgnoresCase(j: JobRow, location: string)
    ensures LocationMatches(j, Some(location)) == LocationMatches(j, Some(Lower(location)))
  {
    LowerIsIdempotent(location);
  }

  /** The skill filter is exact: a different letter case does not match, and
      a location given in any case does. */
  lemma SkillIsCaseSensitiveLocationIsNot()
    ensures var j := JobRow(1, "Engineer", "Builds things", "New York", EmploymentType("FULL_TIME"), ["Java"], "Senior", Open, 1, 0);
      && !SkillMatches(j, Some("java")) && SkillMatches(j, Some("Java"))
      && LocationMatches(j, Some("YORK"))
  {
    var j := JobRow(1, "Engineer", "Builds things", "New York", EmploymentType("FULL_TIME"), ["Java"], "Senior", Open, 1, 0);
    assert "java" != "Java" by { assert "java"[0] != "Java"[0]; }
    assert Lower("New York")[4..8] == "york";
    assert Lower("YORK") == "york";
    assert OccursAt(Lower(j.location), Lower("YORK"), 4);
  }

  // -------------------------------------------------------- applications

  /** `applicationRepository.findByCandidate_Id`: the candidate's applications,
      as many as the rows counted one by one, in table order; the candidate has
      applied for a job exactly when one of them is for it. */
  function FindByCandidateId(apps: seq<ApplicationRow>, candidateId: int): (r: seq<ApplicationRow>)
    ensures forall a :: a in r <==> a in apps && a.candidateId == candidateId
    ensures |r| == Count(apps, (a: ApplicationRow) => a.candidateId == candidateId)
    ensures ApplicationIdsIncrease(apps) ==> ApplicationIdsIncrease(r)
    ensures forall jobId :: FindByCandidateIdAndJobId(apps, candidateId, jobId).Some? <==> exists a :: a in r && a.jobId == jobId
  {
    FilterLengthIsCount(apps, (a: ApplicationRow) => a.candidateId == candidateId);
    FilterKeepsIncreasing(apps, (a: ApplicationRow) => a.candidateId == candidateId, (a: ApplicationRow) => a.id);
    Filter(apps, (a: ApplicationRow) => a.candidateId == candidateId)
  }

  /** `applicationRepository.findByJob_Id`: the job's applications, as many as
      the rows counted one by one. */
  function FindByJobId(apps: seq<ApplicationRow>, jobId: int): (r: seq<ApplicationRow>)
    ensures forall a :: a in r <==> a in apps && a.jobId == jobId
    ensures |r| == Count(apps, (a: ApplicationRow) => a.jobId == jobId)
    ensures ApplicationIdsIncrease(apps) ==> ApplicationIdsIncrease(r)
  {
    FilterLengthIsCount(apps, (a: ApplicationRow) => a.jobId == jobId);
    FilterKeepsIncreasing(apps, (a: ApplicationRow) => a.jobId == jobId, (a: ApplicationRow) => a.id);
    Filter(apps, (a: ApplicationRow) => a.jobId == jobId)
  }

  /** `applicationRepository.findByCandidate_IdAndJob_Id`: some row for the pair, if any. */
  function FindByCandidateIdAndJobId(apps: seq<ApplicationRow>, candidateId: int, jobId: int): (r: Option<ApplicationRow>)
    ensures r.Some? <==> exists a :: a in apps && a.candidateId == candidateId && a.jobId == jobId
    ensures r.Some? ==> r.value in apps && r.value.candidateId == candidateId && r.value.jobId == jobId
  {
    var found := Filter(apps, (a: ApplicationRow) => a.candidateId == candidateId && a.jobId == jobId);
    if found == [] then
      assert forall a :: a in apps && a.candidateId == candidateId && a.jobId == jobId ==> a in found;
      None
    else
      assert found[0] in found;
      Some(found[0])
  }

  /** The number of entries of `s` that satisfy `p`, counted one by one. */
  function Count<T>(s: seq<T>, p: T -> bool): nat {
    if s == [] then 0 else (if p(s[0]) then 1 else 0) + Count(s[1..], p)
  }

  /** A filter keeps exactly as many rows as satisfy its predicate. */
  lemma {:induction false} FilterLengthIsCount<T(!new)>(s: seq<T>, p: T -> bool)
    ensures |Filter(s, p)| == Count(s, p)
  {
    if s != [] {
      FilterLengthIsCount(s[1..], p);
    }
  }

  /** `applicationRepository.countByJob_IdAndStatus`. */
  function CountByJobIdAndStatus(apps: seq<ApplicationRow>, jobId: int, status: ApplicationStatus): (n: nat)
    ensures n == Count(apps, (a: ApplicationRow) => a.jobId == jobId && a.status == status)
    ensures n == 0 <==> forall a :: a in apps ==> !(a.jobId == jobId && a.status == status)
    ensures n <= |FindByJobId(apps, jobId)|
  {
    var p := (a: ApplicationRow) => a.jobId == jobId && a.status == status;
    CountNoMoreThanJob(apps, jobId, status);
    FilterLengthIsCount(apps, p);
    var found := Filter(apps, p);
    assert forall a :: a in apps && a.jobId == jobId && a.status == status ==> a in found;
    assert |found| > 0 ==> found[0] in found;
    |found|
  }

  lemma CountNoMoreThanJob(apps: seq<ApplicationRow>, jobId: int, status: ApplicationStatus)
    ensures |Filter(apps, (a: ApplicationRow) => a.jobId == jobId && a.status == status)| <= |FindByJobId(apps, jobId)|
  {
    var pj := (a: ApplicationRow) => a.jobId == jobId;
    var ps := (a: ApplicationRow) => a.status == status;
    var both := (a: ApplicationRow) => a.jobId == jobId && a.status == status;
    FilterTwice(apps, pj, ps, both);
  }
}
