/**
 * exception/GlobalExceptionHandler.java: the translation of each exception kind
 * into an error response, and the aggregation of field validation messages.
 */
module ExceptionHandler {
  import opened Constraints
  import opened Exceptions
  import opened Dto

  const OK := 200
  const CREATED := 201
  const NO_CONTENT := 204
  const BAD_REQUEST := 400
  const NOT_FOUND := 404
  const INTERNAL_SERVER_ERROR := 500

  const MULTIPLE_ERRORS_PREFIX := "Multiple validation errors: "
  const MALFORMED_JSON_MESSAGE := "Request body contains invalid JSON or missing required fields"
  const SERVICE_ERROR_MESSAGE := "A service error occurred while processing your request"
  const INTERNAL_ERROR_MESSAGE := "An unexpected error occurred. Please try again later."

  // ---------------------------------------------------------------------------
  // The request path
  // ---------------------------------------------------------------------------

  /** Whether "uri=" occurs in s starting at position i. */
  predicate TagAt(s: string, i: nat)
  {
    i + 4 <= |s| && s[i..i + 4] == "uri="
  }

  /**
   * String.replace("uri=", ""): every occurrence, found left to right without
   * overlapping, is removed.
   */
  function RemoveUriTag(s: string): (r: string)
    ensures |r| <= |s|
  {
    if |s| < 4 then s
    else if s[..4] == "uri=" then RemoveUriTag(s[4..])
    else [s[0]] + RemoveUriTag(s[1..])
  }

  /** A string in which "uri=" does not occur is left as it is. */
  lemma {:induction false} RemoveUriTagKeepsUntagged(s: string)
    requires forall i: nat :: !TagAt(s, i)
    ensures RemoveUriTag(s) == s
  {
    if |s| >= 4 {
      assert !TagAt(s, 0);
      assert s[..4] == s[0..4];
      forall i: nat
        ensures !TagAt(s[1..], i)
      {
        assert !TagAt(s, i + 1);
        if i + 4 <= |s[1..]| {
          assert s[1..][i..i + 4] == s[i + 1..i + 5];
        }
      }
      RemoveUriTagKeepsUntagged(s[1..]);
    }
  }

  /**
   * WebRequest.getDescription(false) is "uri=" followed by the request URI, so
   * the path of every error body is the URI itself when it holds no "uri=".
   */
  lemma PathOfDescription(uri: string)
    requires forall i: nat :: !TagAt(uri, i)
    ensures RemoveUriTag("uri=" + uri) == uri
  {
    assert ("uri=" + uri)[..4] == "uri=";
    assert ("uri=" + uri)[4..] == uri;
    RemoveUriTagKeepsUntagged(uri);
  }

  // ---------------------------------------------------------------------------
  // Validation messages
  // ---------------------------------------------------------------------------

  /**
   * The HashMap the handler fills: one put per field error, in order, so a
   * later error overwrites. It has exactly one key per failed field.
   */
  function FieldErrorMap(errors: seq<Violation>): (r: map<string, string>)
    ensures r.Keys == FailedFields(errors)
  {
    if errors == [] then map[]
    else
      var init, last := errors[..|errors| - 1], errors[|errors| - 1];
      assert errors == init + [last];
      assert FailedFields(errors) == FailedFields(init) + {last.field};
      FieldErrorMap(init)[last.field := last.message]
  }

  /** The forEach loop that fills the map. */
  method CollectFieldErrors(errors: seq<Violation>) returns (m: map<string, string>)
    ensures m == FieldErrorMap(errors)
  {
    m := map[];
    var i := 0;
    while i < |errors|
      invariant 0 <= i <= |errors|
      invariant m == FieldErrorMap(errors[..i])
    {
      assert errors[..i + 1][..i] == errors[..i];
      m := m[errors[i].field := errors[i].message];
      i := i + 1;
    }
    assert errors[..i] == errors;
  }

  /** Each field keeps the message of its last error. */
  lemma {:induction false} FieldErrorMapLastWins(errors: seq<Violation>, i: nat)
    requires i < |errors|
    requires forall j :: i < j < |errors| ==> errors[j].field != errors[i].field
    ensures errors[i].field in FieldErrorMap(errors)
    ensures FieldErrorMap(errors)[errors[i].field] == errors[i].message
  {
    if i < |errors| - 1 {
      var init := errors[..|errors| - 1];
      FieldErrorMapLastWins(init, i);
    }
  }

  /**
   * The response message of a validation failure: with one failed field its
   * message (then every error is about that field, so it is the last error's);
   * otherwise the prefix followed by the map's text, whose entry order is the
   * HashMap's and is passed in.
   */
  function ValidationMessage(errors: seq<Violation>, mapText: string): (r: string)
    ensures |FailedFields(errors)| != 1 ==> r == MULTIPLE_ERRORS_PREFIX + mapText
  {
    if |FieldErrorMap(errors)| == 1 && errors != [] then errors[|errors| - 1].message
    else MULTIPLE_ERRORS_PREFIX + mapText
  }

  /** With exactly one failed field the message is that field's value in the map. */
  lemma SingleFieldMessage(errors: seq<Violation>, mapText: string)
    requires |FieldErrorMap(errors)| == 1
    ensures errors != []
    ensures forall k :: k in FieldErrorMap(errors) ==> ValidationMessage(errors, mapText) == FieldErrorMap(errors)[k]
  {
    var last := errors[|errors| - 1];
    FieldErrorMapLastWins(errors, |errors| - 1);
    forall k | k in FieldErrorMap(errors)
      ensures k == last.field
    {
      var keys := FieldErrorMap(errors).Keys;
      assert last.field in keys && k in keys;
      if k != last.field {
        assert {k, last.field} <= keys;
        assert |{k, last.field}| == 2;
        SubsetCard({k, last.field}, keys);
      }
    }
  }

  lemma SubsetCard<T>(a: set<T>, b: set<T>)
    requires a <= b
    ensures |a| <= |b|
  {
    assert b == a + (b - a);
  }

  // ---------------------------------------------------------------------------
  // The handlers
  // ---------------------------------------------------------------------------

  /** A ResponseEntity carrying an ErrorResponse with the same status. */
  function ErrorReply(status: int, error: string, message: string, description: string): HttpResponse
  {
    HttpResponse(status, ErrorBody(ErrorResponse(status, error, message, RemoveUriTag(description))))
  }

  /**
   * The handler Spring picks for an exception (the most specific declared
   * class), applied to the request's description. ConstraintViolation and the
   * other runtime exceptions have no handler of their own and reach the
   * RuntimeException one; a missing query parameter is a checked exception and
   * reaches the Exception one.
   */
  function Handle(e: Exception, description: string, mapText: string): (r: HttpResponse)
    ensures r.body.ErrorBody? && r.body.error.status == r.status
    ensures r.body.error.path == RemoveUriTag(description)
  {
    match e
    case AccountNotFound(message) => ErrorReply(NOT_FOUND, "Account Not Found", message, description)
    case MethodArgumentNotValid(errors) =>
      ErrorReply(BAD_REQUEST, "Validation Failed", ValidationMessage(errors, mapText), description)
    case ArgumentTypeMismatch(name, value, requiredType) =>
      ErrorReply(BAD_REQUEST, "Invalid Parameter",
                 "Invalid value '" + value + "' for parameter '" + name + "'. Expected type: " + requiredType,
                 description)
    case MessageNotReadable => ErrorReply(BAD_REQUEST, "Malformed JSON", MALFORMED_JSON_MESSAGE, description)
    case IllegalArgument(message) => ErrorReply(BAD_REQUEST, "Invalid Request", message, description)
    case ConstraintViolation(_) => ErrorReply(INTERNAL_SERVER_ERROR, "Service Error", SERVICE_ERROR_MESSAGE, description)
    case Runtime(_) => ErrorReply(INTERNAL_SERVER_ERROR, "Service Error", SERVICE_ERROR_MESSAGE, description)
    case MissingRequestParameter(_) =>
      ErrorReply(INTERNAL_SERVER_ERROR, "Internal Server Error", INTERNAL_ERROR_MESSAGE, description)
    case Checked(_) => ErrorReply(INTERNAL_SERVER_ERROR, "Internal Server Error", INTERNAL_ERROR_MESSAGE, description)
  }

  /** The client's faults: the kinds answered with 400. */
  predicate IsClientError(e: Exception)
  {
    e.MethodArgumentNotValid? || e.ArgumentTypeMismatch? || e.MessageNotReadable? || e.IllegalArgument?
  }

  /** 404 for not-found, 400 for the client's faults, 500 for everything else. */
  lemma StatusByKind(e: Exception, description: string, mapText: string)
    ensures Handle(e, description, mapText).status == NOT_FOUND <==> e.AccountNotFound?
    ensures Handle(e, description, mapText).status == BAD_REQUEST <==> IsClientError(e)
    ensures Handle(e, description, mapText).status == INTERNAL_SERVER_ERROR
        <==> !e.AccountNotFound? && !IsClientError(e)
  {
  }

  /** Each label of a 404 or 400 reply names exactly one kind of exception. */
  lemma LabelByKind(e: Exception, description: string, mapText: string)
    ensures var name := Handle(e, description, mapText).body.error.error;
      && (name == "Account Not Found" <==> e.AccountNotFound?)
      && (name == "Validation Failed" <==> e.MethodArgumentNotValid?)
      && (name == "Invalid Parameter" <==> e.ArgumentTypeMismatch?)
      && (name == "Malformed JSON" <==> e.MessageNotReadable?)
      && (name == "Invalid Request" <==> e.IllegalArgument?)
  {
  }

  /** Unreadable JSON is answered with one fixed message, whatever the parser reported. */
  lemma MalformedJsonMessage(description: string, mapText: string)
    ensures Handle(MessageNotReadable, description, mapText).body.error
         == ErrorResponse(BAD_REQUEST, "Malformed JSON", MALFORMED_JSON_MESSAGE, RemoveUriTag(description))
  {
  }

  /** The label of the 500 replies tells unchecked from checked failures. */
  lemma ServerErrorLabel(e: Exception, description: string, mapText: string)
    requires !e.AccountNotFound? && !IsClientError(e)
    ensures Handle(e, description, mapText).body.error.error
         == if IsRuntime(e) then "Service Error" else "Internal Server Error"
  {
  }

  /** Not-found and illegal-argument replies pass the exception's message through. */
  lemma MessagePassedThrough(e: Exception, description: string, mapText: string)
    requires e.AccountNotFound? || e.IllegalArgument?
    ensures Handle(e, description, mapText).body.error.message == e.message
  {
  }

  /** A server error reply does not depend on the exception's own text. */
  lemma ServerErrorsHideDetails(e1: Exception, e2: Exception, description: string, mapText: string)
    requires !e1.AccountNotFound? && !IsClientError(e1)
    requires !e2.AccountNotFound? && !IsClientError(e2)
    requires IsRuntime(e1) == IsRuntime(e2)
    ensures Handle(e1, description, mapText) == Handle(e2, description, mapText)
  {
  }

  /** handleValidationExceptions: fill the map, pick the message, build the reply. */
  method HandleValidationExceptions(errors: seq<Violation>, description: string, mapText: string)
    returns (r: HttpResponse)
    ensures r == Handle(MethodArgumentNotValid(errors), description, mapText)
    ensures r.status == BAD_REQUEST
  {
    var fieldErrors := CollectFieldErrors(errors);
    var message;
    if |fieldErrors| == 1 {
      SingleFieldMessage(errors, mapText);
      message := errors[|errors| - 1].message;
    } else {
      message := MULTIPLE_ERRORS_PREFIX + mapText;
    }
    r := ErrorReply(BAD_REQUEST, "Validation Failed", message, description);
  }
}
