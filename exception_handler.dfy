/** The boundary that turns every failure into an HTTP status and a response
    envelope. The envelope class is not part of this model: it is taken to hold
    a success flag, a message and an optional payload. */
module GlobalExceptionHandler {
  import opened Common

  /** What the envelope carries: nothing, a value, or the field-to-message map
      of a rejected request body. */
  datatype Payload<+T> = NoData | Data(value: T) | FieldMap(errors: map<string, string>)

  datatype ApiResponse<+T> = ApiResponse(success: bool, message: string, payload: Payload<T>)

  datatype HttpResponse<+T> = HttpResponse(status: int, body: ApiResponse<T>)

  const OkStatus := 200
  const CreatedStatus := 201
  const BadRequestStatus := 400
  const UnauthorizedStatus := 401
  const ForbiddenStatus := 403
  const NotFoundStatus := 404
  const InternalServerErrorStatus := 500

  const GenericMessage := "An unexpected error occurred. Please try again later."

  /** The field map the validation handler builds: errors are put in order, so
      a later error for a field replaces an earlier one. */
  function FieldMessages(errors: seq<FieldError>): map<string, string>
    decreases |errors|
  {
    if errors == [] then map[]
    else FieldMessages(errors[..|errors| - 1])[errors[|errors| - 1].field := errors[|errors| - 1].message]
  }

  /** The map has exactly the reported fields as keys. */
  lemma {:induction false} FieldMessagesHaveReportedFields(errors: seq<FieldError>)
    ensures forall f :: f in FieldMessages(errors) <==> exists i :: 0 <= i < |errors| && errors[i].field == f
    decreases |errors|
  {
    if errors != [] {
      var n := |errors| - 1;
      var init := errors[..n];
      FieldMessagesHaveReportedFields(init);
      forall f | f in FieldMessages(errors)
        ensures exists i :: 0 <= i < |errors| && errors[i].field == f
      {
        if f != errors[n].field {
          assert f in FieldMessages(init);
          var i :| 0 <= i < |init| && init[i].field == f;
          assert errors[i] == init[i];
        }
      }
      forall f | exists i :: 0 <= i < |errors| && errors[i].field == f
        ensures f in FieldMessages(errors)
      {
        var i :| 0 <= i < |errors| && errors[i].field == f;
        if i < n {
          assert init[i] == errors[i];
        }
      }
    }
  }

  /** The map has exactly the reported fields as keys, and each maps to the
      message of the last error reported for it. */
  lemma {:induction false} FieldMessagesKeepLastMessage(errors: seq<FieldError>)
    ensures forall f :: f in FieldMessages(errors) <==> exists i :: 0 <= i < |errors| && errors[i].field == f
    ensures forall i :: 0 <= i < |errors| && (forall j :: i < j < |errors| ==> errors[j].field != errors[i].field) ==>
      FieldMessages(errors)[errors[i].field] == errors[i].message
    decreases |errors|
  {
    FieldMessagesHaveReportedFields(errors);
    if errors != [] {
      var n := |errors| - 1;
      var init := errors[..n];
      FieldMessagesKeepLastMessage(init);
      forall i | 0 <= i < |errors| && (forall j :: i < j < |errors| ==> errors[j].field != errors[i].field)
        ensures FieldMessages(errors)[errors[i].field] == errors[i].message
      {
        if i < n {
          assert errors[n].field != errors[i].field;
          assert errors[i] == init[i];
          assert forall j :: i < j < |init| ==> init[j] == errors[j];
        }
      }
    }
  }

  /** `handleValidationExceptions`: walks the reported errors, putting each
      field's message into the map. */
  method CollectFieldMessages(errors: seq<FieldError>) returns (m: map<string, string>)
    ensures m == FieldMessages(errors)
  {
    m := map[];
    var i := 0;
    while i < |errors|
      invariant 0 <= i <= |errors|
      invariant m == FieldMessages(errors[..i])
    {
      assert errors[..i + 1][..i] == errors[..i];
      m := m[errors[i].field := errors[i].message];
      i := i + 1;
    }
    assert errors[..i] == errors;
  }

  /** The handler chosen for each failure kind, and the response it builds. A
      refused method-level role check has no handler of its own and falls to the
      generic one. */
  function Handle<T>(f: Failure): (r: HttpResponse<T>)
    ensures !r.body.success
    ensures r.status == NotFoundStatus <==> f.ResourceNotFound?
    ensures r.status == ForbiddenStatus <==> f.UnauthorizedAccess?
    ensures r.status == BadRequestStatus <==> f.Validation? || f.ArgumentNotValid?
    ensures r.status == UnauthorizedStatus <==> f.BadCredentials? || f.AuthenticationFailed?
    ensures r.status == InternalServerErrorStatus <==> f.AccessDenied? || f.Unexpected?
    ensures r.body.payload.FieldMap? <==> f.ArgumentNotValid?
    ensures f.BadCredentials? ==> r.body.message == "Invalid email or password"
    ensures f.AuthenticationFailed? ==> r.body.message == "Authentication failed: " + f.message
    ensures f.ArgumentNotValid? ==> r.body.message == "Validation failed"
    ensures f.AccessDenied? || f.Unexpected? ==> r.body.message == GenericMessage
  {
    match f
    case ResourceNotFound(msg) => HttpResponse(NotFoundStatus, ApiResponse(false, msg, NoData))
    case UnauthorizedAccess(msg) => HttpResponse(ForbiddenStatus, ApiResponse(false, msg, NoData))
    case Validation(msg) => HttpResponse(BadRequestStatus, ApiResponse(false, msg, NoData))
    case BadCredentials(_) => HttpResponse(UnauthorizedStatus, ApiResponse(false, "Invalid email or password", NoData))
    case AuthenticationFailed(msg) =>
      HttpResponse(UnauthorizedStatus, ApiResponse(false, "Authentication failed: " + msg, NoData))
    case ArgumentNotValid(errors) =>
      HttpResponse(BadRequestStatus, ApiResponse(false, "Validation failed", FieldMap(FieldMessages(errors))))
    case AccessDenied(_) => HttpResponse(InternalServerErrorStatus, ApiResponse(false, GenericMessage, NoData))
    case Unexpected(_) => HttpResponse(InternalServerErrorStatus, ApiResponse(false, GenericMessage, NoData))
  }

  /** `handleValidationExceptions` as a whole: the imperative map-building agrees
      with the handler table. */
  method HandleValidationExceptions<T>(errors: seq<FieldError>) returns (r: HttpResponse<T>)
    ensures r == Handle(ArgumentNotValid(errors))
    ensures r.status == BadRequestStatus && r.body.message == "Validation failed"
  {
    var m := CollectFieldMessages(errors);
    r := HttpResponse(BadRequestStatus, ApiResponse(false, "Validation failed", FieldMap(m)));
  }

  /** The service failures keep their own message. */
  lemma ServiceFailuresKeepTheirMessage<T>(f: Failure)
    requires f.ResourceNotFound? || f.UnauthorizedAccess? || f.Validation?
    ensures Handle<T>(f).body.message == f.message
  {
  }

  /** A bad-credentials answer is the same whatever the cause, so it does not
      tell a wrong email from a wrong password; other failures of the generic
      kind likewise reveal nothing of their message. */
  lemma FailuresRevealNoCause<T>(m1: string, m2: string)
    ensures Handle<T>(BadCredentials(m1)) == Handle<T>(BadCredentials(m2))
    ensures Handle<T>(Unexpected(m1)) == Handle<T>(Unexpected(m2))
    ensures Handle<T>(AccessDenied(m1)) == Handle<T>(Unexpected(m2))
  {
  }

  /** Two field errors for the same field: the second message wins. */
  lemma LaterFieldErrorWins()
    ensures FieldMessages([FieldError("title", "Title is required"),
                           FieldError("title", "Title must be between 3 and 200 characters")])
      == map["title" := "Title must be between 3 and 200 characters"]
  {
    var errors := [FieldError("title", "Title is required"), FieldError("title", "Title must be between 3 and 200 characters")];
    assert errors[..1][..0] == [];
    assert errors[..1] == [errors[0]];
  }
}
