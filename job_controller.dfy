/** The job endpoints: their routes, the role sets of their method-level
    security annotations, their success statuses and messages, and the paging
    and sorting parameters of the two listing endpoints. */
module JobController {
  import opened Common
  import opened Entities
  import opened Principal
  import opened SecurityConfig
  import opened GlobalExceptionHandler
  import Store
  import Repositories
  import JobService

  datatype Endpoint = CreateJob | UpdateJob(id: int) | DeleteJob(id: int) | GetAllJobs | GetJobById(id: int) | SearchJobs

  function Verb(e: Endpoint): HttpMethod {
    match e
    case CreateJob => Post
    case UpdateJob(_) => Put
    case DeleteJob(_) => Delete
    case _ => Get
  }

  function Route(e: Endpoint): Path {
    match e
    case CreateJob => ["api", "jobs"]
    case GetAllJobs => ["api", "jobs"]
    case SearchJobs => ["api", "jobs", "search"]
    case UpdateJob(id) => ["api", "jobs", IntToString(id)]
    case DeleteJob(id) => ["api", "jobs", IntToString(id)]
    case GetJobById(id) => ["api", "jobs", IntToString(id)]
  }

  /** The roles the method-level annotation admits; None when the handler has none. */
  function RequiredRoles(e: Endpoint): (r: Option<set<Role>>)
    ensures r.None? <==> e.GetAllJobs? || e.GetJobById? || e.SearchJobs?
    ensures r.Some? ==> r.value == {Recruiter, Admin}
  {
    if e.CreateJob? || e.UpdateJob? || e.DeleteJob? then Some({Recruiter, Admin}) else None
  }

  predicate PreAuthorizeAllows(e: Endpoint, p: UserPrincipal) {
    RequiredRoles(e).None? || HasAnyRole(p, RequiredRoles(e).value)
  }

  function SuccessStatus(e: Endpoint): int {
    if e.CreateJob? then CreatedStatus else OkStatus
  }

  function SuccessMessage(e: Endpoint): string {
    match e
    case CreateJob => "Job created successfully"
    case UpdateJob(_) => "Job updated successfully"
    case DeleteJob(_) => "Job deleted successfully"
    case GetAllJobs => "Jobs retrieved successfully"
    case GetJobById(_) => "Job retrieved successfully"
    case SearchJobs => "Jobs retrieved successfully"
  }

  /** The HTTP response for a service outcome: the endpoint's success status and
      message around the value (none for delete), or the handler's answer. */
  function Respond<T>(e: Endpoint, result: Result<T>): (r: HttpResponse<T>)
    ensures r.body.success <==> result.Ok?
    ensures 200 <= r.status < 300 <==> result.Ok?
    ensures r.status == CreatedStatus <==> result.Ok? && e == CreateJob
    ensures result.Ok? ==> r.body.payload == (if e.DeleteJob? then NoData else Data(result.value))
    ensures result.Err? ==> r == Handle(result.failure)
  {
    match result
    case Ok(v) => HttpResponse(SuccessStatus(e), ApiResponse(true, SuccessMessage(e), if e.DeleteJob? then NoData else Data(v)))
    case Err(f) => Handle(f)
  }

  /** Only recruiters and admins pass the annotation of the three writing endpoints;
      everyone, anonymous callers included, reaches the three reading ones. */
  lemma WritesNeedRecruiterOrAdmin(e: Endpoint, u: User)
    ensures PreAuthorizeAllows(e, Create(u)) <==> RequiredRoles(e).None? || u.role == Recruiter || u.role == Admin
    ensures RequiredRoles(e).None? <==> e.GetAllJobs? || e.GetJobById? || e.SearchJobs?
  {
    CreatedPrincipalHoldsExactlyItsRole(u, u.role);
  }

  // ------------------------------------------------------- sorting and paging

  datatype Direction = Ascending | Descending

  /** U+017F LATIN SMALL LETTER LONG S, whose upper case is 'S'. */
  const LongS: char := '\U{017F}'

  /** Java's case-insensitive comparison of one character with an upper-case
      ASCII letter: the letter itself, its lower case, or a character whose upper
      case is the letter (of those, only the long s exists for 'A', 'S' and 'C'). */
  predicate SameIgnoringCase(c: char, upper: char)
    requires 'A' <= upper <= 'Z'
  {
    c == upper || c == LowerChar(upper) || (upper == 'S' && c == LongS)
  }

  /** `sortDir.equalsIgnoreCase("ASC")`. */
  predicate EqualsAscIgnoringCase(s: string) {
    |s| == 3 && SameIgnoringCase(s[0], 'A') && SameIgnoringCase(s[1], 'S') && SameIgnoringCase(s[2], 'C')
  }

  /** "ASC" in any letter case sorts ascending; every other string descending. */
  function SortDirection(sortDir: string): Direction {
    if EqualsAscIgnoringCase(sortDir) then Ascending else Descending
  }

  predicate IsAscii(s: string) {
    forall i :: 0 <= i < |s| ==> s[i] < 128 as char
  }

  /** On ASCII input, ascending is chosen exactly for the spellings of "asc". */
  lemma AscendingExactlyForAsc(s: string)
    requires IsAscii(s)
    ensures SortDirection(s) == Ascending <==> Lower(s) == "asc"
  {
    if Lower(s) == "asc" {
      assert |s| == 3;
      assert LowerChar(s[0]) == 'a' && LowerChar(s[1]) == 's' && LowerChar(s[2]) == 'c';
    }
    if SortDirection(s) == Ascending {
      assert s[1] != LongS;
      assert Lower(s)[0] == 'a' && Lower(s)[1] == 's' && Lower(s)[2] == 'c';
    }
  }

  /** Some spellings and some strings that are not. */
  lemma SortDirectionExamples()
    ensures SortDirection("ASC") == Ascending && SortDirection("asc") == Ascending && SortDirection("aSc") == Ascending
    ensures SortDirection("DESC") == Descending && SortDirection("") == Descending
    ensures SortDirection("ascending") == Descending && SortDirection("AS C") == Descending
    ensures SortDirection("a\U{017F}c") == Ascending
  {
    assert "AS C"[2] == ' ';
  }

  /** Java's `Character.isWhitespace`: the Unicode space, line and paragraph
      separators other than the no-break spaces, and the ASCII controls TAB to
      CR and FS to US. */
  predicate IsJavaWhitespace(c: char) {
    || c == ' ' || c == '\U{1680}' || ('\U{2000}' <= c <= '\U{200A}' && c != '\U{2007}')
    || c == '\U{2028}' || c == '\U{2029}' || c == '\U{205F}' || c == '\U{3000}'
    || ('\t' <= c <= '\r') || ('\U{001C}' <= c <= '\U{001F}')
  }

  /** Spring's `StringUtils.hasText`: some character is not whitespace. */
  predicate HasText(s: string) {
    exists i :: 0 <= i < |s| && !IsJavaWhitespace(s[i])
  }

  /** A request parameter declared with a default value: an absent or empty
      value takes the default. */
  function WithDefault(given: Option<string>, default: string): (r: string)
    ensures given.Some? && given.value != "" ==> r == given.value
    ensures given.None? || given.value == "" ==> r == default
  {
    if given.Some? && given.value != "" then given.value else default
  }

  /** The page request the listing endpoints build. */
  datatype PageRequest = PageRequest(page: int, size: int, sortBy: string, direction: Direction)

  const BlankPropertyMessage := "Property must not be null or empty"
  const NegativePageMessage := "Page index must not be less than zero"
  const SmallSizeMessage := "Page size must not be less than one"

  /** The sort and page request of the two listing endpoints. The integer
      parameters are None when absent or empty, and then take their defaults.
      The sort is built first and refuses a property without text; the page
      request then refuses a negative page and a size below one. */
  function Paging(page: Option<int>, size: Option<int>, sortBy: Option<string>, sortDir: Option<string>): (r: Result<PageRequest>)
    ensures r.Ok? <==>
      && HasText(WithDefault(sortBy, "createdAt"))
      && (page.None? || page.value >= 0)
      && (size.None? || size.value >= 1)
    ensures !HasText(WithDefault(sortBy, "createdAt")) ==> r == Err(Unexpected(BlankPropertyMessage))
    ensures (HasText(WithDefault(sortBy, "createdAt")) && page.Some? && page.value < 0) ==>
      r == Err(Unexpected(NegativePageMessage))
    ensures r.Err? ==> Handle<PageRequest>(r.failure).status == InternalServerErrorStatus
    ensures r.Ok? ==>
      && r.value.page == (if page.Some? then page.value else 0)
      && r.value.size == (if size.Some? then size.value else 10)
      && r.value.sortBy == (if sortBy.Some? && sortBy.value != "" then sortBy.value else "createdAt")
      && r.value.direction == (if sortDir.Some? && sortDir.value != "" then SortDirection(sortDir.value) else Descending)
  {
    var sortProperty := WithDefault(sortBy, "createdAt");
    var direction := SortDirection(WithDefault(sortDir, "DESC"));
    var pageIndex := if page.Some? then page.value else 0;
    var pageSize := if size.Some? then size.value else 10;
    if !HasText(sortProperty) then Err(Unexpected(BlankPropertyMessage))
    else if pageIndex < 0 then Err(Unexpected(NegativePageMessage))
    else if pageSize < 1 then Err(Unexpected(SmallSizeMessage))
    else Ok(PageRequest(pageIndex, pageSize, sortProperty, direction))
  }

  /** With nothing given, or every parameter given empty: the first page of
      ten, newest first. */
  lemma DefaultPagingIsFirstTenNewestFirst()
    ensures Paging(None, None, None, None) == Ok(PageRequest(0, 10, "createdAt", Descending))
    ensures Paging(None, None, Some(""), Some("")) == Ok(PageRequest(0, 10, "createdAt", Descending))
  {
    assert !IsJavaWhitespace("createdAt"[0]);
    assert SortDirection("DESC") == Descending by {
      assert "DESC"[0] == 'D';
    }
  }

  /** A blank sort property, a negative page or an empty page are refused with
      a server error, while "asc" with a given property sorts ascending. */
  lemma PagingExamples()
    ensures Paging(None, None, Some(" "), None).Err?
    ensures Paging(Some(-1), None, None, None).Err?
    ensures Paging(None, Some(0), None, None).Err?
    ensures Paging(Some(2), Some(5), Some("title"), Some("asc")) == Ok(PageRequest(2, 5, "title", Ascending))
  {
    assert !IsJavaWhitespace("createdAt"[0]);
    assert !IsJavaWhitespace("title"[0]);
    assert !HasText(" ") by {
      assert forall i :: 0 <= i < |" "| ==> " "[i] == ' ';
    }
  }

  /** A search with every filter omitted passes three nulls, and lists the same
      jobs, in the same order, as the unfiltered listing. */
  lemma OmittedFiltersListEveryJob(db: Store.Database)
    requires db.Valid()
    ensures JobService.SearchJobs(db, None, None, None) == JobService.GetAllJobs(db)
  {
    Repositories.SearchWithoutFiltersReturnsAll(db.JobTable());
  }
}
