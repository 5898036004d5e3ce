# TalentFlow job board: a verified model of its hiring core

TalentFlow is a Spring Boot job board. Recruiters post jobs. Candidates apply to them with a resume link. The job's owner, or an administrator, moves each application through the hiring pipeline.

This Dafny project models the part of the system that decides who may do what, and what each successful call changes:

- **The database.** `Store.Database` is a class holding the users, jobs and applications tables as maps keyed by identity column, plus the next identity values. Its `Valid()` invariant states:
  - every row's id is its key;
  - every job's owner is a stored user;
  - every application's candidate and job are stored;
  - there is at most one application per (candidate, job) pair;
  - emails are unique.

  Every mutating operation preserves `Valid()`.
- **Entities.**
  - `Entities.Job` and `Entities.Application` are the mutable objects the services fill with setters. They carry their field defaults and their pre-persist hooks.
  - Saving an existing row keeps its non-updatable creation timestamp.
  - Deleting a job cascades to its applications.
- **Services.**
  - `JobService`, `ApplicationService` and `AuthService` take the caller's principal as an explicit argument.
  - Each operation that can fail returns a `Result` whose error carries the exact exception kind and message; the listings that cannot fail return sequences.
  - Their contracts state the order of the checks: stored user, role, entity, OPEN status, duplicate application. They also state the one change a successful call makes, and the columns it leaves alone.
- **Repository queries.** These are filters over the rows of a table: the job search, the derived finders, and the count.
- **Request validation.** `Requests` holds the constraints on a job request, with the messages bean validation reports.
- **Two-layer authorization.**
  - `SecurityConfig` is the filter chain's first-match route table, with a matcher for `*` and a trailing double star.
  - `JobController` and `ApplicationController` hold the method-level role annotations, success statuses, the sort-direction parse and the paging parameters with their defaults and refusals.
  - `RouteAgreement` proves that both layers demand the same roles for every endpoint.
- **Errors.** `GlobalExceptionHandler` maps every failure kind to an HTTP status and an envelope. It also builds the field-to-message map for a rejected body: a loop that is proved equal to a last-write-wins function.

Inputs the program reads from its environment are parameters of the model:

- the current time (`now`);
- the password encoder (`encode`);
- the authentication manager's verdict (`authentication`);
- the caller's principal.

## Model

| member | source | states |
|---|---|---|
| Entities.Job.constructor | src/main/java/com/talentflow/entity/Job.java:41-58 | a new job has no skills and no applications, status OPEN, and every other field null |
| Entities.Job.FromRow | src/main/java/com/talentflow/entity/Job.java:21-58 | a job loaded from a stored row is complete and describes exactly that row |
| Entities.Job.OnCreate | src/main/java/com/talentflow/entity/Job.java:60-63 | the pre-persist hook always sets createdAt to the current time |
| Entities.Application.constructor | src/main/java/com/talentflow/entity/Application.java:30-32 | a new application has status APPLIED and every other field null |
| Entities.Application.FromRow | src/main/java/com/talentflow/entity/Application.java:18-38 | an application loaded from a stored row is complete and describes exactly that row |
| Entities.Application.OnCreate | src/main/java/com/talentflow/entity/Application.java:40-45 | appliedAt is set to the current time only when it is null; an existing value is kept |
| Store.WithoutJob | src/main/java/com/talentflow/entity/Job.java:57 | the cascade keeps exactly the applications of other jobs, unchanged |
| Store.CascadeDeleteKeepsReferences | src/main/java/com/talentflow/entity/Job.java:57 | after a job and its applications are removed, every remaining application still refers to a stored job, and pairs stay unique |
| Store.InsertKeepsOneApplicationPerPair | src/main/java/com/talentflow/service/ApplicationService.java:59-69 | inserting an application for a pair with none keeps at most one application per (candidate, job); afterwards the pair has applied |
| Store.Database.Valid | src/main/java/com/talentflow/entity/Job.java:21-58 | the invariant: keys are ids below the next identity value, jobs name stored owners, applications name stored candidates and jobs, one application per pair, unique emails |
| Store.Database.constructor | src/main/java/com/talentflow/entity/Job.java:21-23 | an empty database satisfies the invariant |
| Store.Database.JobTable | src/main/java/com/talentflow/service/JobService.java:100-102 | the listed job rows are exactly the stored ones, in increasing id order, each once |
| Store.Database.ApplicationTable | src/main/java/com/talentflow/repository/ApplicationRepository.java:13-16 | the listed application rows are exactly the stored ones, in increasing id order, each once |
| Store.RowsFollowKeys | src/main/java/com/talentflow/service/JobService.java:100-102 | when every row is stored under its own id, ids strictly increase along the listed rows |
| Store.Database.FindByEmail | src/main/java/com/talentflow/service/AuthService.java:73-74 | returns the stored user with that email, and nothing exactly when no user has it |
| Store.Database.ExistsByEmail | src/main/java/com/talentflow/service/AuthService.java:42 | true exactly when some stored user has the email |
| Store.Database.SaveNewUser | src/main/java/com/talentflow/service/AuthService.java:46-53 | inserts one user under the next identity value; nothing else changes; the invariant is kept |
| Store.Database.FindJob | src/main/java/com/talentflow/service/JobService.java:64-65 | a fresh, complete job object equal to the stored row, or nothing when the id is absent |
| Store.Database.SaveNewJob | src/main/java/com/talentflow/entity/Job.java:54-63 | runs the hook, then inserts exactly one row under the next id, with createdAt the current time |
| Store.Database.SaveJob | src/main/java/com/talentflow/entity/Job.java:54-55 | overwrites the row from the object but keeps the stored createdAt (not updatable) |
| Store.Database.DeleteJob | src/main/java/com/talentflow/service/JobService.java:96 | removes the job and, by cascade, exactly its applications; the invariant is kept |
| Store.Database.FindApplication | src/main/java/com/talentflow/service/ApplicationService.java:104-105 | a fresh, complete application object equal to the stored row, or nothing |
| Store.Database.SaveNewApplication | src/main/java/com/talentflow/entity/Application.java:37-45 | runs the hook, then inserts exactly one row under the next id; requires that the pair has not applied, and keeps the pair unique |
| Store.Database.SaveApplication | src/main/java/com/talentflow/entity/Application.java:37-38 | overwrites the row from the object but keeps the stored appliedAt (not updatable) |
| Principal.Create | src/main/java/com/talentflow/security/UserPrincipal.java:31-44 | copies id, email, password, role and active flag, and grants the single authority ROLE_ + role name |
| Principal.HasRole | src/main/java/com/talentflow/config/SecurityConfig.java:64-65 | a principal has a role exactly when it holds the authority ROLE_ + role name |
| Principal.HasAnyRole | src/main/java/com/talentflow/config/SecurityConfig.java:61-67 | a principal has one of the roles exactly when it has some role of the set |
| Principal.AuthorityIsInjective | src/main/java/com/talentflow/security/UserPrincipal.java:32-34 | two roles grant the same authority exactly when they are the same role |
| Principal.CreatedPrincipalHoldsExactlyItsRole | src/main/java/com/talentflow/security/UserPrincipal.java:31-87 | a created principal has role r exactly when its user does; the user name is the email; enabled is the active flag; the other three account flags are always true |
| Requests.ValidJobRequest | src/main/java/com/talentflow/dto/request/JobRequest.java:15-33 | a job request is valid when all six field constraints hold |
| Requests.JobRequestViolations | src/main/java/com/talentflow/dto/request/JobRequest.java:15-33 | one violation per failed constraint, with the annotation's field and message |
| Requests.FieldValid | src/main/java/com/talentflow/dto/request/JobRequest.java:15-33 | the constraints on one named field; names that are not fields have none |
| Requests.ViolationsNameFailedFields | src/main/java/com/talentflow/dto/request/JobRequest.java:15-33 | a field is reported exactly when one of its constraints fails, and no other name is ever reported |
| Requests.JobRequestChecksReport | src/main/java/com/talentflow/dto/request/JobRequest.java:15-33 | the eight checks report a field exactly when one of that field's checks fails |
| Requests.ValidIffNoViolations | src/main/java/com/talentflow/dto/request/JobRequest.java:15-33 | a job request is valid exactly when bean validation reports no violation |
| Requests.BlankTitleIsRejected | src/main/java/com/talentflow/dto/request/JobRequest.java:15-17 | a title of spaces fails although its length is in range; a null title fails only the not-blank constraint |
| Requests.ApplicationRequestViolations | src/main/java/com/talentflow/dto/request/ApplicationRequest.java:9-10 | "Resume link is required" exactly when the link is blank; applying requires no violation |
| Requests.UpdateApplicationStatusRequestViolations | src/main/java/com/talentflow/dto/request/UpdateApplicationStatusRequest.java:10-11 | "Status is required" exactly when the status is null; a status update requires no violation |
| Repositories.SearchJobs | src/main/java/com/talentflow/repository/JobRepository.java:18-21 | a job is returned exactly when it is stored and every given filter holds; increasing ids stay increasing |
| Repositories.FilterKeepsIncreasing | src/main/java/com/talentflow/repository/JobRepository.java:18-21 | filtering a listing whose ids increase keeps them increasing |
| Repositories.FindByStatus | src/main/java/com/talentflow/repository/JobRepository.java:16 | exactly the jobs with that status; increasing ids stay increasing |
| Repositories.FindByPostedById | src/main/java/com/talentflow/repository/JobRepository.java:27 | exactly the jobs owned by that user, as many as the rows counted one by one; increasing ids stay increasing |
| Repositories.SearchWithoutFiltersReturnsAll | src/main/java/com/talentflow/repository/JobRepository.java:18-21 | with all three filters null, the search returns every job in order |
| Repositories.SearchIsConjunction | src/main/java/com/talentflow/repository/JobRepository.java:18-21 | searching with all filters equals filtering by skill, then by location, then by status |
| Repositories.FindByStatusIsStatusSearch | src/main/java/com/talentflow/repository/JobRepository.java:16-21 | findByStatus is the search with only the status filter given |
| Repositories.LocationFilterIgnoresCase | src/main/java/com/talentflow/repository/JobRepository.java:20 | the location filter gives the same answer for an argument and its lower-cased form |
| Repositories.SkillIsCaseSensitiveLocationIsNot | src/main/java/com/talentflow/repository/JobRepository.java:19-20 | "java" does not match the skill "Java", while "YORK" matches the location "New York" |
| Repositories.FindByCandidateId | src/main/java/com/talentflow/repository/ApplicationRepository.java:13 | exactly the applications of that candidate, as many as the rows counted one by one, increasing ids staying increasing; the candidate has applied for a job exactly when one of them is for that job |
| Repositories.FindByJobId | src/main/java/com/talentflow/repository/ApplicationRepository.java:14 | exactly the applications for that job, as many as the rows counted one by one; increasing ids stay increasing |
| Repositories.FindByCandidateIdAndJobId | src/main/java/com/talentflow/repository/ApplicationRepository.java:15 | present exactly when some application has the pair, and then it is one of them |
| Repositories.CountByJobIdAndStatus | src/main/java/com/talentflow/repository/ApplicationRepository.java:16 | equals the one-by-one count of applications with that job and status; zero exactly when none; at most the job's applications |
| JobService.ConvertToResponse | src/main/java/com/talentflow/service/JobService.java:114-128 | the response carries every column of the row unchanged, plus the owner's full name |
| JobService.GetJobById | src/main/java/com/talentflow/service/JobService.java:108-112 | succeeds exactly when the job is stored, and then the response carries every column of the stored row and the owner's full name; otherwise "Job not found with id: " + id |
| JobService.ConvertAll | src/main/java/com/talentflow/service/JobService.java:101 | one response per row, in the same order, each the row's conversion and carrying its id |
| JobService.GetAllJobs | src/main/java/com/talentflow/service/JobService.java:100-102 | exactly the converted stored jobs, in increasing id order |
| JobService.SearchJobs | src/main/java/com/talentflow/service/JobService.java:104-106 | exactly the converted stored jobs that pass the search filter, in increasing id order |
| JobService.CreateJob | src/main/java/com/talentflow/service/JobService.java:36-59 | user not found, then the stored role must be RECRUITER or ADMIN; success inserts one OPEN job with the request's six fields, the caller as owner and the current time, under the next job id; the other tables and counters are unchanged |
| JobService.UpdateJob | src/main/java/com/talentflow/service/JobService.java:62-83 | job not found, then owner or token role ADMIN; success overwrites only the six descriptive fields; id, status, owner and createdAt never change, nor do the other tables and the counters |
| JobService.DeleteJob | src/main/java/com/talentflow/service/JobService.java:86-98 | the same gate as update; success removes the job and its applications, after which the job is not found; users and counters are unchanged |
| ApplicationService.ConvertToResponse | src/main/java/com/talentflow/service/ApplicationService.java:119-131 | the response carries every column unchanged, plus the candidate's name and email and the job's title |
| ApplicationService.ApplyForJob | src/main/java/com/talentflow/service/ApplicationService.java:43-74 | errors in order: user not found, role not CANDIDATE, job not found, job not OPEN, already applied; success adds exactly one APPLIED application for (caller, job) with the resume link under the next application id, and the pair stays unique; the other tables and counters are unchanged |
| ApplicationService.ConvertAll | src/main/java/com/talentflow/service/ApplicationService.java:79 | one response per row, in the same order, each the row's conversion and carrying its id |
| ApplicationService.GetMyApplications | src/main/java/com/talentflow/service/ApplicationService.java:76-80 | no role check; exactly the caller's applications, in increasing id order |
| ApplicationService.GetApplicationsByJob | src/main/java/com/talentflow/service/ApplicationService.java:82-96 | user not found, job not found, then owner or stored role ADMIN; success gives exactly that job's applications, in increasing id order |
| ApplicationService.UpdateApplicationStatus | src/main/java/com/talentflow/service/ApplicationService.java:99-117 | user not found, application not found, then owner of its job or stored role ADMIN; success writes any status and keeps candidate, job, resume link and appliedAt; the other tables and the counters are unchanged |
| AuthService.Register | src/main/java/com/talentflow/service/AuthService.java:41-60 | a taken email gives "Email already exists" and no change; otherwise one active user is stored with the encoded password, and the response carries a token for its role name and the stored fields; the new user takes the next user id and the other tables and counters are unchanged |
| AuthService.Login | src/main/java/com/talentflow/service/AuthService.java:63-79 | an authentication failure passes through; the token is issued for the principal's role name; the response describes the stored user with that email, or fails with "User not found" |
| SecurityConfig.SegmentMatches | src/main/java/com/talentflow/config/SecurityConfig.java:67 | a literal matches only itself; * matches any one non-empty segment |
| SecurityConfig.PatternMatches | src/main/java/com/talentflow/config/SecurityConfig.java:58-67 | every pattern segment matches, on a path of the same length, or at least as long with a trailing double star |
| SecurityConfig.RuleMatches | src/main/java/com/talentflow/config/SecurityConfig.java:58-67 | the method agrees, when the rule names one, and one of the rule's patterns matches |
| SecurityConfig.FirstMatch | src/main/java/com/talentflow/config/SecurityConfig.java:57-68 | the chosen rule matches and no earlier one does; nothing is chosen only when no rule matches |
| SecurityConfig.FirstMatchIs | src/main/java/com/talentflow/config/SecurityConfig.java:57-68 | the first rule that matches decides, whatever later rules say |
| SecurityConfig.Rules | src/main/java/com/talentflow/config/SecurityConfig.java:58-67 | the ten rules of the chain, in declaration order |
| SecurityConfig.OnlyTheFirstThreeRulesArePublic | src/main/java/com/talentflow/config/SecurityConfig.java:58-68 | exactly the first three rules are public, every later one demands a role, and none is left to plain authentication |
| SecurityConfig.RequiredAccess | src/main/java/com/talentflow/config/SecurityConfig.java:57-68 | the first matching rule's access, or authentication when none matches |
| SecurityConfig.Authorize | src/main/java/com/talentflow/config/SecurityConfig.java:57-68 | the verdict of the required access for the caller |
| SecurityConfig.Decide | src/main/java/com/talentflow/config/SecurityConfig.java:57-68 | allowed exactly when public, or when a principal is present and the rule needs only authentication or one of its roles is held; anonymous callers are refused as unauthenticated elsewhere |
| SecurityConfig.RoleRuleAdmitsExactlyItsRoles | src/main/java/com/talentflow/config/SecurityConfig.java:61-67 | a principal created from a user passes a role rule exactly when the user's role is listed, and is otherwise forbidden |
| SecurityConfig.AuthRoutesArePublic | src/main/java/com/talentflow/config/SecurityConfig.java:58 | every method on /api/auth and below is public |
| SecurityConfig.ApiPathsSkipDocumentation | src/main/java/com/talentflow/config/SecurityConfig.java:58-59 | no /api path other than /api/auth matches the auth rule or any documentation pattern |
| SecurityConfig.JobReadsArePublic | src/main/java/com/talentflow/config/SecurityConfig.java:60 | GET on /api/jobs, and on every path below it, is public |
| SecurityConfig.PostingJobsNeedsRecruiterOrAdmin | src/main/java/com/talentflow/config/SecurityConfig.java:61 | POST to exactly /api/jobs needs RECRUITER or ADMIN |
| SecurityConfig.PostingBelowJobsNeedsOnlyAuthentication | src/main/java/com/talentflow/config/SecurityConfig.java:61-68 | a POST to a deeper /api/jobs path matches no rule and needs only authentication |
| SecurityConfig.ChangingJobsNeedsRecruiterOrAdmin | src/main/java/com/talentflow/config/SecurityConfig.java:62-63 | PUT and DELETE on /api/jobs and below need RECRUITER or ADMIN |
| SecurityConfig.ApplicationPathsSkipJobRules | src/main/java/com/talentflow/config/SecurityConfig.java:58-63 | no path under /api/applications matches the six rules before the application rules |
| SecurityConfig.ApplyingNeedsCandidate | src/main/java/com/talentflow/config/SecurityConfig.java:64 | any method on /api/applications/apply and below needs CANDIDATE |
| SecurityConfig.OwnApplicationsNeedCandidate | src/main/java/com/talentflow/config/SecurityConfig.java:65 | any method on exactly /api/applications/my needs CANDIDATE |
| SecurityConfig.JobApplicationsNeedRecruiterOrAdmin | src/main/java/com/talentflow/config/SecurityConfig.java:66 | any method on /api/applications/job and below needs RECRUITER or ADMIN |
| SecurityConfig.StatusUpdatesNeedRecruiterOrAdmin | src/main/java/com/talentflow/config/SecurityConfig.java:67 | /api/applications/{x}/status needs RECRUITER or ADMIN for every non-empty x other than "apply" |
| SecurityConfig.StatusRuleMatchesApplyStatus | src/main/java/com/talentflow/config/SecurityConfig.java:67 | the status rule matches /api/applications/apply/status, taking "apply" for the id |
| SecurityConfig.ApplyRuleShadowsStatusRule | src/main/java/com/talentflow/config/SecurityConfig.java:64-67 | /api/applications/apply/status matches the status rule, but the earlier apply rule decides: CANDIDATE |
| SecurityConfig.UnlistedRoutesNeedOnlyAuthentication | src/main/java/com/talentflow/config/SecurityConfig.java:68 | for every method and path no rule matches, only authentication is needed: any principal is allowed, an anonymous request is refused as unauthenticated |
| SecurityConfig.ReadingOneApplicationNeedsOnlyAuthentication | src/main/java/com/talentflow/config/SecurityConfig.java:58-68 | GET /api/applications/5 matches no rule, so a created principal is allowed and an anonymous request refused |
| GlobalExceptionHandler.FieldMessages | src/main/java/com/talentflow/exception/GlobalExceptionHandler.java:61-66 | the map that putting each error in order builds |
| GlobalExceptionHandler.FieldMessagesHaveReportedFields | src/main/java/com/talentflow/exception/GlobalExceptionHandler.java:61-66 | a field is a key of the map exactly when some reported error names it |
| GlobalExceptionHandler.FieldMessagesKeepLastMessage | src/main/java/com/talentflow/exception/GlobalExceptionHandler.java:61-66 | the map's keys are exactly the reported fields, each mapped to the message of its last error |
| GlobalExceptionHandler.CollectFieldMessages | src/main/java/com/talentflow/exception/GlobalExceptionHandler.java:61-66 | the loop builds exactly the last-write-wins field map |
| GlobalExceptionHandler.Handle | src/main/java/com/talentflow/exception/GlobalExceptionHandler.java:23-77 | never a success; 404, 403, 400, 401 and 500 each identify their exception kinds exactly; only a rejected body carries a field map; bad credentials always answer "Invalid email or password", other authentication failures "Authentication failed: " + message, a rejected body "Validation failed", and access-denied and unexpected failures the generic text |
| GlobalExceptionHandler.HandleValidationExceptions | src/main/java/com/talentflow/exception/GlobalExceptionHandler.java:58-70 | 400 with "Validation failed" and the field map, agreeing with the handler table |
| GlobalExceptionHandler.ServiceFailuresKeepTheirMessage | src/main/java/com/talentflow/exception/GlobalExceptionHandler.java:23-42 | not-found, forbidden and validation answers carry the exception's own message |
| GlobalExceptionHandler.FailuresRevealNoCause | src/main/java/com/talentflow/exception/GlobalExceptionHandler.java:44-77 | bad-credentials and generic answers do not depend on the exception's message |
| GlobalExceptionHandler.LaterFieldErrorWins | src/main/java/com/talentflow/exception/GlobalExceptionHandler.java:61-66 | two errors for the title field leave the second message |
| JobController.RequiredRoles | src/main/java/com/talentflow/controller/JobController.java:35-58 | no role annotation exactly on the three reads; create, update and delete admit RECRUITER and ADMIN |
| JobController.Respond | src/main/java/com/talentflow/controller/JobController.java:34-101 | success exactly on a service value, with 201 only for create and 200 otherwise, and no payload for delete; otherwise the handler's answer |
| JobController.WritesNeedRecruiterOrAdmin | src/main/java/com/talentflow/controller/JobController.java:35-58 | create, update and delete admit exactly RECRUITER and ADMIN; the three reads carry no role requirement |
| JobController.EqualsAscIgnoringCase | src/main/java/com/talentflow/controller/JobController.java:74 | three characters, each A, S, C in either case, or the long s for S |
| JobController.SortDirection | src/main/java/com/talentflow/controller/JobController.java:74 | ascending exactly when the direction equals "ASC" ignoring case |
| JobController.HasText | src/main/java/com/talentflow/controller/JobController.java:74 | some character is not Java whitespace |
| JobController.WithDefault | src/main/java/com/talentflow/controller/JobController.java:70-73 | the given value when present and non-empty, otherwise the default |
| JobController.AscendingExactlyForAsc | src/main/java/com/talentflow/controller/JobController.java:74 | on ASCII input, ascending exactly when the lower-cased direction is "asc"; every other string is descending |
| JobController.SortDirectionExamples | src/main/java/com/talentflow/controller/JobController.java:97 | ASC in several letter cases, and with a long s, sorts ascending; DESC, the empty string and longer words sort descending |
| JobController.Paging | src/main/java/com/talentflow/controller/JobController.java:70-75 | an absent or empty parameter takes its default; a sort property without text, a negative page or a size below one fails, and the handler answers 500; otherwise the page request holds the given page, size, property and parsed direction |
| JobController.PagingExamples | src/main/java/com/talentflow/controller/JobController.java:70-75 | a blank property, page -1 and size 0 fail; page 2, size 5, "title", "asc" gives that page sorted ascending |
| JobController.DefaultPagingIsFirstTenNewestFirst | src/main/java/com/talentflow/controller/JobController.java:70-73 | with nothing given, or with property and direction given empty: page 0, size 10, by createdAt, descending |
| JobController.OmittedFiltersListEveryJob | src/main/java/com/talentflow/controller/JobController.java:89-99 | a search with every filter omitted lists the same jobs, in the same order, as the unfiltered listing |
| ApplicationController.RequiredRoles | src/main/java/com/talentflow/controller/ApplicationController.java:33-64 | CANDIDATE exactly for apply and my-applications; the other two admit RECRUITER and ADMIN |
| ApplicationController.Respond | src/main/java/com/talentflow/controller/ApplicationController.java:32-73 | success exactly on a service value, with 201 only for apply and 200 otherwise; otherwise the handler's answer |
| ApplicationController.EachSideHasItsRoles | src/main/java/com/talentflow/controller/ApplicationController.java:33-64 | apply and my-applications admit exactly CANDIDATE; the other two admit exactly RECRUITER and ADMIN; no role passes both sides |
| RouteAgreement.JobRoutesMatchAnnotations | src/main/java/com/talentflow/config/SecurityConfig.java:60-63 | for every job endpoint, the route table demands exactly the roles of the method annotation, or nothing when there is none |
| RouteAgreement.ApplicationRoutesMatchAnnotations | src/main/java/com/talentflow/config/SecurityConfig.java:64-67 | for every application endpoint and every numeric id, the route table demands exactly the roles of the method annotation |
| RouteAgreement.JobLayersAgree | src/main/java/com/talentflow/controller/JobController.java:34-87 | an authenticated caller passes the route table exactly when it passes the annotation; anonymous callers reach exactly the reads |
| RouteAgreement.ApplicationLayersAgree | src/main/java/com/talentflow/controller/ApplicationController.java:32-64 | an authenticated caller passes the route table exactly when it passes the annotation; anonymous callers reach none |

## Left out

- JWT issuing and verification, and the request filter that reads the token: the token is an opaque value carrying the principal and the role name it was requested with.
- Password hashing is the parameter `encode`, and the authentication manager is the input `authentication`. How Spring builds the principal it authenticates is not part of this model.
- The thread-bound security context: the caller's principal is an argument, and login's write of the context is not modelled.
- Logging, Swagger annotations and transactions. A failing call changes nothing in the model, so rollback has nothing to undo.
- Paging and sorting are not applied to results; listings come in increasing id order. A sort property that names no column fails only when the query runs, and that failure is not modelled.
- JobController.Paging: a page or size value that is not a number fails conversion before the handler runs, and this is not modelled: the integer parameters arrive parsed, with None standing for an absent or empty value. The refusal messages are those of Spring Data's page and sort classes, which are not part of this model; every one answers with the generic 500 text.
- Store.Database.FindByEmail and Store.Database.ExistsByEmail compare emails exactly. The source leaves that comparison to the database's collation.
- Concurrency: calls run one at a time. The duplicate check in applying is check-then-insert with no database unique constraint, and it is safe only sequentially.
- The location filter is a literal substring test under ASCII lower-casing: SQL LIKE metacharacters and Unicode case folding are not modelled.
- String lengths in the request constraints count characters, not UTF-16 code units.
- Bean validation reports violations in no fixed order. `Requests.JobRequestViolations` lists them in declaration order, and only the order-independent validity (`Requests.ValidIffNoViolations`) is proved.
- The User entity and user repository are not part of this model. Only the lookups the core makes are modelled: by id, by email, the existence check, and the insert.
- The response envelope class and the response DTOs are not part of this model. The envelope is taken to hold a success flag, a message and a payload.
- The enum classes are not part of this model. Only OPEN, APPLIED, ADMIN, RECRUITER and CANDIDATE are named, and every other constant stays abstract.
- The status and body the filter chain sends for a refused request (its entry point and access-denied handler) are not part of this model. The model stops at the decision.
- Request paths are given as segment lists. Parsing a raw URL, trailing slashes, and path variables that are not numbers are not modelled.
- Java `Long` ids are unbounded integers here, so identity overflow is not modelled.
- Repositories.FindByCandidateIdAndJobId: returns the first match and does not model Spring's exception for more than one result, because the store's invariant allows at most one application per pair.
- Entities.Job.applicationIds: the in-memory inverse side of the job–application relation is not kept up to date. The cascade is modelled on the tables.
- AuthController only forwards to the service and sets statuses, so it is not part of this model.
