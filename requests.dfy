/** Request bodies with their bean-validation constraints, and the response
    bodies the services return. Nullable request fields are `Option`s. */
module Requests {
  import opened Common
  import opened Entities
  import opened Principal

  datatype JobRequest = JobRequest(
    title: Option<string>,
    description: Option<string>,
    location: Option<string>,
    employmentType: Option<EmploymentType>,
    requiredSkills: Option<seq<string>>,
    experienceLevel: Option<string>)

  /** `@Size(min, max)` on a string: null passes, otherwise the length is in range. */
  predicate SizeBetween(s: Option<string>, min: nat, max: nat) {
    s.None? || min <= |s.value| <= max
  }

  predicate SizeAtLeast(s: Option<string>, min: nat) {
    s.None? || min <= |s.value|
  }

  predicate TitleValid(req: JobRequest) {
    NotBlank(req.title) && SizeBetween(req.title, 3, 200)
  }

  predicate DescriptionValid(req: JobRequest) {
    NotBlank(req.description) && SizeAtLeast(req.description, 10)
  }

  /** `@NotEmpty` on the skills list: non-null with at least one entry; the
      entries themselves are not checked. */
  predicate SkillsValid(req: JobRequest) {
    req.requiredSkills.Some? && |req.requiredSkills.value| > 0
  }

  /** A job request passes validation when all six field constraints hold. */
  predicate ValidJobRequest(req: JobRequest) {
    && TitleValid(req)
    && DescriptionValid(req)
    && NotBlank(req.location)
    && req.employmentType.Some?
    && SkillsValid(req)
    && NotBlank(req.experienceLevel)
  }

  /** The single violation of one constraint, or none when it holds. */
  function Check(holds: bool, field: string, message: string): (r: seq<FieldError>)
    ensures r == [] <==> holds
    ensures forall e :: e in r ==> e == FieldError(field, message)
  {
    if holds then [] else [FieldError(field, message)]
  }

  /** Some reported violation names the field. */
  predicate Reports(errors: seq<FieldError>, field: string) {
    exists e :: e in errors && e.field == field
  }

  /** A concatenation reports a field exactly when one of its parts does. */
  lemma ReportsInParts(a: seq<FieldError>, b: seq<FieldError>, field: string)
    ensures Reports(a + b, field) <==> Reports(a, field) || Reports(b, field)
  {
    if Reports(a, field) {
      var e :| e in a && e.field == field;
      assert e in a + b;
    }
    if Reports(b, field) {
      var e :| e in b && e.field == field;
      assert e in a + b;
    }
  }

  /** One constraint's check reports a field exactly when the constraint fails
      and the field is the one it belongs to. */
  lemma ReportsOfCheck(holds: bool, name: string, message: string, field: string)
    ensures Reports(Check(holds, name, message), field) <==> !holds && name == field
  {
    if !holds {
      assert Check(holds, name, message)[0] == FieldError(name, message);
    }
  }

  /** The violations bean validation reports for a job request, one per failed
      constraint, in declaration order. */
  function JobRequestViolations(req: JobRequest): seq<FieldError> {
    JobRequestChecks(NotBlank(req.title), SizeBetween(req.title, 3, 200), NotBlank(req.description),
                     SizeAtLeast(req.description, 10), NotBlank(req.location), req.employmentType.Some?,
                     SkillsValid(req), NotBlank(req.experienceLevel))
  }

  /** Whether the constraints on one named field of a job request hold; a name
      that is not a field has no constraints. */
  predicate FieldValid(req: JobRequest, field: string) {
    if field == "title" then TitleValid(req)
    else if field == "description" then DescriptionValid(req)
    else if field == "location" then NotBlank(req.location)
    else if field == "employmentType" then req.employmentType.Some?
    else if field == "requiredSkills" then SkillsValid(req)
    else if field == "experienceLevel" then NotBlank(req.experienceLevel)
    else true
  }

  /** The eight checks of a job request, over the outcomes of its constraints. */
  function JobRequestChecks(t1: bool, t2: bool, d1: bool, d2: bool, l: bool, e: bool, k: bool, x: bool): seq<FieldError> {
    Check(t1, "title", "Title is required")
    + Check(t2, "title", "Title must be between 3 and 200 characters")
    + Check(d1, "description", "Description is required")
    + Check(d2, "description", "Description must be at least 10 characters")
    + Check(l, "location", "Location is required")
    + Check(e, "employmentType", "Employment type is required")
    + Check(k, "requiredSkills", "At least one skill is required")
    + Check(x, "experienceLevel", "Experience level is required")
  }

  /** The eight checks report a field exactly when one of its own checks fails. */
  lemma JobRequestChecksReport(t1: bool, t2: bool, d1: bool, d2: bool, l: bool, e: bool, k: bool, x: bool, field: string)
    ensures Reports(JobRequestChecks(t1, t2, d1, d2, l, e, k, x), field) <==>
      || (!(t1 && t2) && field == "title")
      || (!(d1 && d2) && field == "description")
      || (!l && field == "location")
      || (!e && field == "employmentType")
      || (!k && field == "requiredSkills")
      || (!x && field == "experienceLevel")
  {
    var c1 := Check(t1, "title", "Title is required");
    var c2 := Check(t2, "title", "Title must be between 3 and 200 characters");
    var c3 := Check(d1, "description", "Description is required");
    var c4 := Check(d2, "description", "Description must be at least 10 characters");
    var c5 := Check(l, "location", "Location is required");
    var c6 := Check(e, "employmentType", "Employment type is required");
    var c7 := Check(k, "requiredSkills", "At least one skill is required");
    var c8 := Check(x, "experienceLevel", "Experience level is required");
    ReportsInParts(c1, c2, field);
    ReportsInParts(c1 + c2, c3, field);
    ReportsInParts(c1 + c2 + c3, c4, field);
    ReportsInParts(c1 + c2 + c3 + c4, c5, field);
    ReportsInParts(c1 + c2 + c3 + c4 + c5, c6, field);
    ReportsInParts(c1 + c2 + c3 + c4 + c5 + c6, c7, field);
    ReportsInParts(c1 + c2 + c3 + c4 + c5 + c6 + c7, c8, field);
    ReportsOfCheck(t1, "title", "Title is required", field);
    ReportsOfCheck(t2, "title", "Title must be between 3 and 200 characters", field);
    ReportsOfCheck(d1, "description", "Description is required", field);
    ReportsOfCheck(d2, "description", "Description must be at least 10 characters", field);
    ReportsOfCheck(l, "location", "Location is required", field);
    ReportsOfCheck(e, "employmentType", "Employment type is required", field);
    ReportsOfCheck(k, "requiredSkills", "At least one skill is required", field);
    ReportsOfCheck(x, "experienceLevel", "Experience level is required", field);
  }

  /** A field is reported exactly when one of its constraints fails; no other
      name is ever reported. */
  lemma ViolationsNameFailedFields(req: JobRequest, field: string)
    ensures Reports(JobRequestViolations(req), field) <==> !FieldValid(req, field)
  {
    JobRequestChecksReport(NotBlank(req.title), SizeBetween(req.title, 3, 200), NotBlank(req.description),
                           SizeAtLeast(req.description, 10), NotBlank(req.location), req.employmentType.Some?,
                           SkillsValid(req), NotBlank(req.experienceLevel), field);
    assert "employmentType"[0] != "requiredSkills"[0];
  }

  /** A request is rejected exactly when some constraint is violated. */
  lemma ValidIffNoViolations(req: JobRequest)
    ensures ValidJobRequest(req) <==> JobRequestViolations(req) == []
  {
  }

  /** A blank title fails even when its length is in range, and a null title
      fails only the not-blank constraint. */
  lemma BlankTitleIsRejected()
    ensures !TitleValid(JobRequest(Some("   "), None, None, None, None, None))
    ensures JobRequestViolations(JobRequest(None, Some("a long description"), Some("Pune"), Some(EmploymentType("FULL_TIME")), Some(["Java"]), Some("Senior")))
      == [FieldError("title", "Title is required")]
  {
    var t := "   ";
    assert forall i :: 0 <= i < |t| ==> IsTrimmable(t[i]);
    var d := "a long description";
    assert !IsTrimmable(d[0]);
    assert !IsTrimmable("Pune"[0]);
    assert !IsTrimmable("Senior"[0]);
  }

  datatype ApplicationRequest = ApplicationRequest(resumeLink: Option<string>)

  function ApplicationRequestViolations(req: ApplicationRequest): seq<FieldError> {
    if NotBlank(req.resumeLink) then [] else [FieldError("resumeLink", "Resume link is required")]
  }

  datatype UpdateApplicationStatusRequest = UpdateApplicationStatusRequest(status: Option<ApplicationStatus>)

  function UpdateApplicationStatusRequestViolations(req: UpdateApplicationStatusRequest): seq<FieldError> {
    if req.status.Some? then [] else [FieldError("status", "Status is required")]
  }

  /** The registration request is not part of this model beyond the fields the
      registration service reads. */
  datatype RegisterRequest = RegisterRequest(fullName: string, email: string, password: string, role: Role)

  datatype JobResponse = JobResponse(
    id: int,
    title: string,
    description: string,
    location: string,
    employmentType: EmploymentType,
    requiredSkills: seq<string>,
    experienceLevel: string,
    status: JobStatus,
    postedBy: string,
    postedById: int,
    createdAt: Timestamp)

  datatype ApplicationResponse = ApplicationResponse(
    id: int,
    candidateId: int,
    candidateName: string,
    candidateEmail: string,
    jobId: int,
    jobTitle: string,
    status: ApplicationStatus,
    resumeLink: string,
    appliedAt: Timestamp)

  datatype AuthResponse = AuthResponse(token: Token, email: string, role: Role, fullName: string, userId: int)
}
