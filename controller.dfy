/**
 * controller/AccountController.java: the six routes under /api/accounts. Each
 * route is a try/catch around one service call: what it returns on success,
 * which exceptions it passes on to the global handler unchanged, and which it
 * wraps into a generic RuntimeException. Before a route runs, Spring binds its
 * arguments: the path variable is converted to a UUID, the JSON body is read
 * and checked (@Valid), and the required userId query parameter is looked up.
 */
module Controller {
  import opened Wrappers
  import opened Domain
  import opened Exceptions
  import opened Dto
  import opened ExceptionHandler
  import CreateRequest
  import UpdateRequest

  /** What a route method does: return a ResponseEntity or throw. */
  datatype Outcome = Returned(response: HttpResponse) | Threw(exception: Exception)

  /** What reaches the client: a returned entity as it is, a thrown exception through the global handler. */
  function Respond(o: Outcome, description: string, mapText: string): (r: HttpResponse)
    ensures o.Returned? ==> r == o.response
    ensures o.Threw? ==> r.body.ErrorBody? && r.body.error.status == r.status
    ensures o.Threw? ==> r.status == BAD_REQUEST || r.status == NOT_FOUND || r.status == INTERNAL_SERVER_ERROR
  {
    match o
    case Returned(response) => response
    case Threw(e) => Handle(e, description, mapText)
  }

  // ---------------------------------------------------------------------------
  // The routes' dispatch from the service's outcome
  // ---------------------------------------------------------------------------

  /** createAccount: 201 with the created account; IllegalArgumentException passes, the rest is wrapped. */
  function CreateOutcome(served: Result<AccountResponse, Exception>): (o: Outcome)
    ensures o.Returned? <==> served.Success?
    ensures o.Returned? ==> o.response.status == CREATED && o.response.body == AccountBody(served.value)
    ensures o.Threw? ==> IsRuntime(o.exception)
    ensures o.Threw? && served.error.IllegalArgument? ==> o.exception == served.error
    ensures o.Threw? && !served.error.IllegalArgument? ==> o.exception.Runtime?
  {
    match served
    case Success(response) => Returned(HttpResponse(CREATED, AccountBody(response)))
    case Failure(e) => if e.IllegalArgument? then Threw(e) else Threw(Runtime("Failed to create account"))
  }

  /** deleteAccount: 204 without a body; AccountNotFoundException passes, the rest is wrapped. */
  function DeleteOutcome(served: Result<(), Exception>): (o: Outcome)
    ensures o.Returned? <==> served.Success?
    ensures o.Returned? ==> o.response == HttpResponse(NO_CONTENT, NoBody)
    ensures o.Threw? && served.error.AccountNotFound? ==> o.exception == served.error
    ensures o.Threw? && !served.error.AccountNotFound? ==> o.exception.Runtime?
  {
    match served
    case Success(_) => Returned(HttpResponse(NO_CONTENT, NoBody))
    case Failure(e) => if e.AccountNotFound? then Threw(e) else Threw(Runtime("Failed to delete account"))
  }

  /** getAccountsByClientId: 200 with the list, empty or not; IllegalArgumentException passes, the rest is wrapped. */
  function ClientAccountsOutcome(served: Result<seq<AccountResponse>, Exception>): (o: Outcome)
    ensures o.Returned? <==> served.Success?
    ensures o.Returned? ==> o.response == HttpResponse(OK, AccountListBody(served.value))
    ensures o.Threw? && served.error.IllegalArgument? ==> o.exception == served.error
    ensures o.Threw? && !served.error.IllegalArgument? ==> o.exception.Runtime?
  {
    match served
    case Success(accounts) => Returned(HttpResponse(OK, AccountListBody(accounts)))
    case Failure(e) =>
      if e.IllegalArgument? then Threw(e) else Threw(Runtime("Failed to retrieve accounts for client"))
  }

  /** getAllAccounts: 200 with the list; every failure is wrapped. */
  function AllAccountsOutcome(served: Result<seq<AccountResponse>, Exception>): (o: Outcome)
    ensures o.Returned? <==> served.Success?
    ensures o.Returned? ==> o.response == HttpResponse(OK, AccountListBody(served.value))
    ensures o.Threw? ==> o.exception.Runtime?
  {
    match served
    case Success(accounts) => Returned(HttpResponse(OK, AccountListBody(accounts)))
    case Failure(_) => Threw(Runtime("Failed to retrieve accounts"))
  }

  /**
   * getAccountById: 200 with the account when present, 404 without a body when
   * absent (returned, not thrown); IllegalArgumentException passes, the rest is wrapped.
   */
  function AccountByIdOutcome(served: Result<Option<AccountResponse>, Exception>): (o: Outcome)
    ensures o.Returned? <==> served.Success?
    ensures o.Returned? && served.value.Some? ==> o.response == HttpResponse(OK, AccountBody(served.value.value))
    ensures o.Returned? && served.value.None? ==> o.response == HttpResponse(NOT_FOUND, NoBody)
    ensures o.Threw? && served.error.IllegalArgument? ==> o.exception == served.error
    ensures o.Threw? && !served.error.IllegalArgument? ==> o.exception.Runtime?
  {
    match served
    case Success(found) =>
      if found.Some? then Returned(HttpResponse(OK, AccountBody(found.value)))
      else Returned(HttpResponse(NOT_FOUND, NoBody))
    case Failure(e) => if e.IllegalArgument? then Threw(e) else Threw(Runtime("Failed to retrieve account"))
  }

  /** updateAccount: 200 with the updated account; not-found and IllegalArgumentException pass, the rest is wrapped. */
  function UpdateOutcome(served: Result<AccountResponse, Exception>): (o: Outcome)
    ensures o.Returned? <==> served.Success?
    ensures o.Returned? ==> o.response == HttpResponse(OK, AccountBody(served.value))
    ensures o.Threw? && (served.error.AccountNotFound? || served.error.IllegalArgument?) ==> o.exception == served.error
    ensures o.Threw? && !(served.error.AccountNotFound? || served.error.IllegalArgument?) ==> o.exception.Runtime?
  {
    match served
    case Success(response) => Returned(HttpResponse(OK, AccountBody(response)))
    case Failure(e) =>
      if e.AccountNotFound? || e.IllegalArgument? then Threw(e) else Threw(Runtime("Failed to update account"))
  }

  // ---------------------------------------------------------------------------
  // Status codes per route, whatever the service does
  // ---------------------------------------------------------------------------

  /** Create: 201 on success, 400 for an IllegalArgumentException, 500 for anything else. */
  lemma CreateStatus(served: Result<AccountResponse, Exception>, description: string, mapText: string)
    ensures var status := Respond(CreateOutcome(served), description, mapText).status;
      && (status == CREATED <==> served.Success?)
      && (status == BAD_REQUEST <==> served.Failure? && served.error.IllegalArgument?)
      && (status == INTERNAL_SERVER_ERROR <==> served.Failure? && !served.error.IllegalArgument?)
  {
    var o := CreateOutcome(served);
    if o.Threw? {
      StatusByKind(o.exception, description, mapText);
    }
  }

  /** Delete: 204 on success, 404 for not-found, 500 for anything else, IllegalArgumentException included. */
  lemma DeleteStatus(served: Result<(), Exception>, description: string, mapText: string)
    ensures var status := Respond(DeleteOutcome(served), description, mapText).status;
      && (status == NO_CONTENT <==> served.Success?)
      && (status == NOT_FOUND <==> served.Failure? && served.error.AccountNotFound?)
      && (status == INTERNAL_SERVER_ERROR <==> served.Failure? && !served.error.AccountNotFound?)
  {
    var o := DeleteOutcome(served);
    if o.Threw? {
      StatusByKind(o.exception, description, mapText);
    }
  }

  /** Accounts of a client: 200 for any list, the empty one included; 400 or 500 on failure. */
  lemma ClientAccountsStatus(served: Result<seq<AccountResponse>, Exception>, description: string, mapText: string)
    ensures var status := Respond(ClientAccountsOutcome(served), description, mapText).status;
      && (status == OK <==> served.Success?)
      && (status == BAD_REQUEST <==> served.Failure? && served.error.IllegalArgument?)
      && (status == INTERNAL_SERVER_ERROR <==> served.Failure? && !served.error.IllegalArgument?)
  {
    var o := ClientAccountsOutcome(served);
    if o.Threw? {
      StatusByKind(o.exception, description, mapText);
    }
  }

  /** All accounts: 200 on success and 500 on every failure, with the generic service error label. */
  lemma AllAccountsStatus(served: Result<seq<AccountResponse>, Exception>, description: string, mapText: string)
    ensures var r := Respond(AllAccountsOutcome(served), description, mapText);
      && (r.status == OK <==> served.Success?)
      && (served.Failure? ==> r.status == INTERNAL_SERVER_ERROR && r.body.error.error == "Service Error")
  {
  }

  /** Account by id: 200 with a body when present, 404 without one when absent, 400 or 500 on failure. */
  lemma AccountByIdStatus(served: Result<Option<AccountResponse>, Exception>, description: string, mapText: string)
    ensures var r := Respond(AccountByIdOutcome(served), description, mapText);
      && (r.status == OK <==> served.Success? && served.value.Some?)
      && (r.status == NOT_FOUND <==> served.Success? && served.value.None?)
      && (served.Success? ==> (r.body.NoBody? <==> served.value.None?))
      && (r.status == BAD_REQUEST <==> served.Failure? && served.error.IllegalArgument?)
      && (r.status == INTERNAL_SERVER_ERROR <==> served.Failure? && !served.error.IllegalArgument?)
  {
    var o := AccountByIdOutcome(served);
    if o.Threw? {
      StatusByKind(o.exception, description, mapText);
    }
  }

  /** Update: 200 on success, 404 for not-found, 400 for an IllegalArgumentException, 500 for anything else. */
  lemma UpdateStatus(served: Result<AccountResponse, Exception>, description: string, mapText: string)
    ensures var status := Respond(UpdateOutcome(served), description, mapText).status;
      && (status == OK <==> served.Success?)
      && (status == NOT_FOUND <==> served.Failure? && served.error.AccountNotFound?)
      && (status == BAD_REQUEST <==> served.Failure? && served.error.IllegalArgument?)
      && (status == INTERNAL_SERVER_ERROR
          <==> served.Failure? && !served.error.AccountNotFound? && !served.error.IllegalArgument?)
  {
    var o := UpdateOutcome(served);
    if o.Threw? {
      StatusByKind(o.exception, description, mapText);
    }
  }

  // ---------------------------------------------------------------------------
  // Argument binding
  // ---------------------------------------------------------------------------

  /** A path variable as sent, and the UUID Spring's converter made of it, if any. */
  datatype PathValue = PathValue(text: string, converted: Option<Uuid>)

  /** A request body: not readable as the target type, or the object read from it. */
  datatype Payload<T> = Unreadable | Readable(value: T)

  /** A @PathVariable UUID: a text the converter refuses is a type mismatch on that parameter. */
  function BindPath(name: string, p: PathValue): (r: Result<Uuid, Exception>)
    ensures r.Success? <==> p.converted.Some?
    ensures r.Success? ==> r.value == p.converted.value
    ensures r.Failure? ==> IsClientError(r.error) && r.error.ArgumentTypeMismatch? && r.error.value == p.text
  {
    if p.converted.Some? then Success(p.converted.value) else Failure(ArgumentTypeMismatch(name, p.text, "UUID"))
  }

  /** A required @RequestParam: absent is a missing-parameter failure. */
  function BindParam(name: string, value: Option<string>): (r: Result<string, Exception>)
    ensures r.Success? <==> value.Some?
    ensures r.Success? ==> r.value == value.value
    ensures r.Failure? ==> !IsClientError(r.error) && !IsRuntime(r.error)
  {
    if value.Some? then Success(value.value) else Failure(MissingRequestParameter(name))
  }

  /** The @Valid @RequestBody of create: unreadable, or every broken rule at once. */
  function BindCreateBody(body: Payload<CreateRequest.CreateAccountRequest>): (r: Result<CreateRequest.CreateAccountRequest, Exception>)
    ensures r.Success? <==> body.Readable? && CreateRequest.Valid(body.value)
    ensures r.Success? ==> r.value == body.value
    ensures r.Failure? ==> IsClientError(r.error)
  {
    if body.Unreadable? then Failure(MessageNotReadable)
    else if CreateRequest.Violations(body.value) != [] then Failure(MethodArgumentNotValid(CreateRequest.Violations(body.value)))
    else Success(body.value)
  }

  /** The @Valid @RequestBody of update: unreadable, or every broken rule at once. */
  function BindUpdateBody(body: Payload<UpdateRequest.UpdateAccountRequest>): (r: Result<UpdateRequest.UpdateAccountRequest, Exception>)
    ensures r.Success? <==> body.Readable? && UpdateRequest.Valid(body.value)
    ensures r.Success? ==> r.value == body.value
    ensures r.Failure? ==> IsClientError(r.error)
  {
    if body.Unreadable? then Failure(MessageNotReadable)
    else if UpdateRequest.Violations(body.value) != [] then Failure(MethodArgumentNotValid(UpdateRequest.Violations(body.value)))
    else Success(body.value)
  }

  /** A body that breaks the create rules is answered 400 "Validation Failed" before the route runs. */
  lemma InvalidCreateBodyIsRejected(req: CreateRequest.CreateAccountRequest, description: string, mapText: string)
    requires !CreateRequest.Valid(req)
    ensures BindCreateBody(Readable(req)).Failure?
    ensures var r := Handle(BindCreateBody(Readable(req)).error, description, mapText);
      r.status == BAD_REQUEST && r.body.error.error == "Validation Failed"
  {
  }

  /** A missing userId is a checked exception without a handler of its own: 500, not 400. */
  lemma MissingUserIdIsServerError(description: string, mapText: string)
    ensures var r := Handle(BindParam("userId", None).error, description, mapText);
      r.status == INTERNAL_SERVER_ERROR && r.body.error.error == "Internal Server Error"
  {
  }

  /** A path id that is not a UUID is answered 400 and quoted back in the message. */
  lemma MalformedIdIsRejected(name: string, text: string, description: string, mapText: string)
    ensures var r := Handle(BindPath(name, PathValue(text, None)).error, description, mapText);
      && r.status == BAD_REQUEST
      && r.body.error.message == "Invalid value '" + text + "' for parameter '" + name + "'. Expected type: UUID"
  {
  }
}
