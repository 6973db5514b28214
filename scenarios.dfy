/**
 * Request sequences from AccountServiceIT.java, replayed against a fresh
 * controller, service and table. Unlike those tests, every request here
 * carries the required userId parameter.
 */
module Scenarios {
  import opened Wrappers
  import opened Domain
  import opened Dto
  import opened Exceptions
  import opened ExceptionHandler
  import opened Controller
  import CreateRequest
  import UpdateRequest
  import Entity
  import Service
  import Repository
  import Routes

  const USER := Some("user-1")
  const NO_MAP_TEXT := ""

  /** A sequence holding two different values has at least two elements. */
  lemma TwoDistinctMembers<T>(s: seq<T>, a: T, b: T)
    requires a in s && b in s && a != b
    ensures |s| >= 2
  {
  }

  /** With two rows of one client stored, that client's lookup finds exactly two. */
  lemma TwoRowsOfOneClient(repository: Repository.AccountRepository, clientId: Uuid, first: Uuid, second: Uuid,
                            listed: seq<AccountResponse>)
    requires repository.Valid() && repository.order == [first, second]
    requires repository.rows[first].clientId == Some(clientId) && repository.rows[second].clientId == Some(clientId)
    requires listed == Service.ConvertAll(repository.FindByClientId(clientId))
    ensures |listed| == 2
  {
    var accounts := repository.FindByClientId(clientId);
    assert repository.rows[first] in repository.rows.Values && repository.rows[second] in repository.rows.Values;
    assert repository.rows[first].id != repository.rows[second].id;
    TwoDistinctMembers(accounts, repository.rows[first], repository.rows[second]);
  }

  /** A create the rules and the column accept: 201, and the row appended. */
  method CreateAccepted(controller: Routes.AccountController, request: CreateRequest.CreateAccountRequest, id: Uuid)
    returns (status: int, ghost row: Entity.AccountState)
    requires controller.Valid() && id !in controller.service.repository.rows
    requires CreateRequest.Violations(request) == [] && FitsColumn(request.initialDeposit.value)
    modifies controller.service, controller.service.repository
    ensures controller.Valid() && status == CREATED
    ensures row == Entity.Stored(Entity.FromCreateRequest(request, 0).(id := Some(id))) && row.clientId == request.clientId
    ensures controller.service.repository.rows == old(controller.service.repository.rows)[id := row]
    ensures controller.service.repository.order == old(controller.service.repository.order) + [id]
  {
    assert BindCreateBody(Readable(request)).Success?;
    var r := controller.CreateAccount(Readable(request), USER, "uri=/api/accounts", NO_MAP_TEXT, 0, id);
    status := r.status;
    row := controller.service.repository.rows[id];
  }

  /** The scenario's two requests, a SAVINGS and a CHECKING account for one client, pass the rules and fit the column. */
  lemma SavingsAndCheckingAreBound(clientId: Uuid, savings: CreateRequest.CreateAccountRequest,
                                   checking: CreateRequest.CreateAccountRequest)
    requires savings == CreateRequest.Reference(clientId) && checking == savings.(accType := Some(CHECKING))
    ensures CreateRequest.Violations(savings) == [] && CreateRequest.Violations(checking) == []
    ensures savings.initialDeposit.Some? && FitsColumn(savings.initialDeposit.value)
    ensures checking.initialDeposit.Some? && FitsColumn(checking.initialDeposit.value)
    ensures savings.clientId == Some(clientId) && checking.clientId == Some(clientId)
  {
    CreateRequest.ReferenceIsValid(clientId);
    assert CreateRequest.Violations(checking) == [];
    ColumnExamples();
  }

  /** Two accepted creates for one client on an empty table: 201 twice, both rows stored in that order. */
  method CreateTwo(controller: Routes.AccountController, a: CreateRequest.CreateAccountRequest,
                   b: CreateRequest.CreateAccountRequest, clientId: Uuid, first: Uuid, second: Uuid)
    returns (created: seq<int>)
    requires controller.Valid() && controller.service.repository.rows == map[] && controller.service.repository.order == []
    requires first != second
    requires CreateRequest.Violations(a) == [] && FitsColumn(a.initialDeposit.value) && a.clientId == Some(clientId)
    requires CreateRequest.Violations(b) == [] && FitsColumn(b.initialDeposit.value) && b.clientId == Some(clientId)
    modifies controller.service, controller.service.repository
    ensures controller.Valid() && created == [CREATED, CREATED]
    ensures controller.service.repository.order == [first, second]
    ensures controller.service.repository.rows[first].clientId == Some(clientId)
    ensures controller.service.repository.rows[second].clientId == Some(clientId)
  {
    var s1, s2;
    ghost var firstRow, secondRow;
    s1, firstRow := CreateAccepted(controller, a, first);
    s2, secondRow := CreateAccepted(controller, b, second);
    created := [s1, s2];
  }

  /** The two creates of the scenario below: a SAVINGS and a CHECKING account for one client. */
  method CreateSavingsAndChecking(controller: Routes.AccountController, clientId: Uuid, first: Uuid, second: Uuid)
    returns (created: seq<int>)
    requires controller.Valid() && controller.service.repository.rows == map[] && controller.service.repository.order == []
    requires first != second
    modifies controller.service, controller.service.repository
    ensures controller.Valid() && created == [CREATED, CREATED]
    ensures controller.service.repository.order == [first, second]
    ensures controller.service.repository.rows[first].clientId == Some(clientId)
    ensures controller.service.repository.rows[second].clientId == Some(clientId)
  {
    var savings := CreateRequest.Reference(clientId);
    var checking := savings.(accType := Some(CHECKING));
    SavingsAndCheckingAreBound(clientId, savings, checking);
    created := CreateTwo(controller, savings, checking, clientId, first, second);
  }

  /** The client lookup once the client's two accounts are stored: 200 with both. */
  method ListTwoAccounts(controller: Routes.AccountController, clientId: Uuid, first: Uuid, second: Uuid)
    returns (r: HttpResponse)
    requires controller.Valid() && controller.service.repository.order == [first, second]
    requires controller.service.repository.rows[first].clientId == Some(clientId)
    requires controller.service.repository.rows[second].clientId == Some(clientId)
    modifies controller.service
    ensures r.status == OK && r.body.AccountListBody? && |r.body.accounts| == 2
  {
    r := controller.GetAccountsByClientId(PathValue("", Some(clientId)), USER, "uri=/api/accounts/client", NO_MAP_TEXT);
    TwoRowsOfOneClient(controller.service.repository, clientId, first, second, r.body.accounts);
  }

  /** Two accounts created for one client are both listed for that client. */
  method TwoAccountsForOneClient(clientId: Uuid, first: Uuid, second: Uuid) returns (statuses: seq<int>, listed: nat)
    requires first != second
    ensures statuses == [CREATED, CREATED, OK]
    ensures listed == 2
  {
    var controller := Routes.NewController();
    var created := CreateSavingsAndChecking(controller, clientId, first, second);
    var r := ListTwoAccounts(controller, clientId, first, second);
    statuses := created + [r.status];
    listed := |r.body.accounts|;
  }

  /** A deleted account is answered 204, and afterwards looked up in vain: 404 without a body. */
  method DeleteThenGet(clientId: Uuid, id: Uuid) returns (deleted: HttpResponse, lookedUp: HttpResponse)
    ensures deleted == HttpResponse(NO_CONTENT, NoBody)
    ensures lookedUp == HttpResponse(NOT_FOUND, NoBody)
  {
    var controller := Routes.NewController();
    CreateRequest.ReferenceIsValid(clientId);
    assert BindCreateBody(Readable(CreateRequest.Reference(clientId))).Success?;
    var created := controller.CreateAccount(Readable(CreateRequest.Reference(clientId)), USER,
                                            "uri=/api/accounts", NO_MAP_TEXT, 0, id);
    deleted := controller.DeleteAccount(PathValue("", Some(id)), USER, "uri=/api/accounts", NO_MAP_TEXT);
    lookedUp := controller.GetAccountById(PathValue("", Some(id)), USER, "uri=/api/accounts", NO_MAP_TEXT);
  }

  /** Two lookups of one account, with no update between them, answer the same. */
  method GetByIdTwice(clientId: Uuid, id: Uuid) returns (first: HttpResponse, second: HttpResponse)
    ensures first.status == OK && first.body.AccountBody? && first.body.account.id == Some(id)
    ensures second == first
  {
    var controller := Routes.NewController();
    CreateRequest.ReferenceIsValid(clientId);
    assert BindCreateBody(Readable(CreateRequest.Reference(clientId))).Success?;
    var created := controller.CreateAccount(Readable(CreateRequest.Reference(clientId)), USER,
                                            "uri=/api/accounts", NO_MAP_TEXT, 0, id);
    first := controller.GetAccountById(PathValue("", Some(id)), USER, "uri=/api/accounts", NO_MAP_TEXT);
    second := controller.GetAccountById(PathValue("", Some(id)), USER, "uri=/api/accounts", NO_MAP_TEXT);
  }

  /** An update that sets only the type changes only the type. */
  method UpdateOnlyType(clientId: Uuid, id: Uuid) returns (before: AccountResponse, after: HttpResponse)
    ensures after.status == OK && after.body.AccountBody?
    ensures after.body.account == before.(accType := Some(CHECKING))
  {
    var controller := Routes.NewController();
    CreateRequest.ReferenceIsValid(clientId);
    assert BindCreateBody(Readable(CreateRequest.Reference(clientId))).Success?;
    var created := controller.CreateAccount(Readable(CreateRequest.Reference(clientId)), USER,
                                            "uri=/api/accounts", NO_MAP_TEXT, 0, id);
    before := created.body.account;
    var request := UpdateRequest.Empty.(accType := Some(CHECKING));
    ghost var stored := controller.service.repository.rows[id];
    Service.TypeOnlyUpdate(stored, CHECKING);
    assert BindUpdateBody(Readable(request)).Success?;
    ghost var rows := controller.service.repository.rows;
    assert id in rows && rows[id] == stored;
    after := controller.UpdateAccount(PathValue("", Some(id)), Readable(request), USER, "uri=/api/accounts", NO_MAP_TEXT);
    Routes.AcceptedUpdateIsOk(id, request, "uri=/api/accounts", NO_MAP_TEXT, after, rows,
                              controller.service.repository.rows);
  }

  /**
   * Three spaces pass the update body's rules but not the entity's @NotBlank:
   * the save is refused and the client sees a 500 service error.
   */
  method BlankCurrencyUpdate(clientId: Uuid, id: Uuid) returns (r: HttpResponse)
    ensures r.status == INTERNAL_SERVER_ERROR && r.body.ErrorBody? && r.body.error.error == "Service Error"
  {
    var controller := Routes.NewController();
    CreateRequest.ReferenceIsValid(clientId);
    assert BindCreateBody(Readable(CreateRequest.Reference(clientId))).Success?;
    var created := controller.CreateAccount(Readable(CreateRequest.Reference(clientId)), USER,
                                            "uri=/api/accounts", NO_MAP_TEXT, 0, id);
    var request := UpdateRequest.Empty.(currency := Some("   "));
    ghost var stored := controller.service.repository.rows[id];
    Service.BlankCurrencyUpdateIsRefusedAtSave(stored);
    assert BindUpdateBody(Readable(request)).Success? && !Entity.Accepted(Service.Apply(stored, request), stored);
    ghost var rows := controller.service.repository.rows;
    assert id in rows && rows[id] == stored;
    r := controller.UpdateAccount(PathValue("", Some(id)), Readable(request), USER, "uri=/api/accounts", NO_MAP_TEXT);
    Routes.RefusedUpdateIsServiceError(id, request, "uri=/api/accounts", NO_MAP_TEXT, r, rows,
                                       controller.service.repository.rows);
  }

  /** The reference account, created through the service on an empty table. */
  method CreateReference(service: Service.AccountService, clientId: Uuid, id: Uuid)
    requires service.Valid() && service.repository.rows == map[] && service.audit == []
    modifies service, service.repository
    ensures service.Valid()
    ensures service.repository.rows == map[id := Entity.FromCreateRequest(CreateRequest.Reference(clientId), 0).(id := Some(id))]
    ensures |service.audit| == 1
  {
    CreateRequest.ReferenceIsValid(clientId);
    ColumnExamples();
    var created := service.CreateAccount(CreateRequest.Reference(clientId), "user-1", 0, id);
  }

  /**
   * Setting the reference account's deposit to 1000: a change against the
   * stored row, which the table accepts and stores back as the same row, so
   * the repeat meets that row again.
   */
  lemma DepositUpdateOfReference(clientId: Uuid, row: Entity.AccountState, request: UpdateRequest.UpdateAccountRequest)
    requires row.id.Some? && row == Entity.FromCreateRequest(CreateRequest.Reference(clientId), 0).(id := row.id)
    requires request == UpdateRequest.Empty.(initialDeposit := Some(Decimal(1000, 0)))
    ensures Entity.IsRow(row) && Entity.Storable(Service.Apply(row, request))
    ensures Service.Changes(row, request) != []
    ensures Entity.Stored(Service.Apply(row, request)) == row
    ensures Service.Apply(row, request).initialDeposit == Some(Decimal(1000, 0))
  {
    CreateRequest.ReferenceIsValid(clientId);
    Entity.CreateRulesAreEntityRules(CreateRequest.Reference(clientId), 0);
    ColumnExamples();
    assert Service.Apply(row, request) == row.(initialDeposit := Some(Decimal(1000, 0)));
    Service.RescaledDepositIsAlwaysRecorded(row, request);
  }

  /** One update the table accepts and the service announces: one more event, the row replaced. */
  method AnnouncedUpdate(service: Service.AccountService, id: Uuid, request: UpdateRequest.UpdateAccountRequest)
    returns (r: Result<AccountResponse, Exception>)
    requires service.Valid() && id in service.repository.rows
    requires Entity.Storable(Service.Apply(service.repository.rows[id], request))
    requires Service.Changes(service.repository.rows[id], request) != []
    modifies service, service.repository
    ensures service.Valid()
    ensures r == Success(Service.ConvertToResponse(Service.Apply(old(service.repository.rows[id]), request)))
    ensures service.repository.rows == old(service.repository.rows)[id := Entity.Stored(Service.Apply(old(service.repository.rows[id]), request))]
    ensures |service.audit| == |old(service.audit)| + 1
  {
    r := service.UpdateAccount(id, request, "user-1");
  }

  /**
   * The same deposit update sent twice to the service: 1000 is stored as
   * 1000.00, so the repeat differs from the row again and is announced again,
   * after the create event and the first update event. Both answers are the
   * same account, holding 1000.
   */
  method RepeatedDepositUpdate(clientId: Uuid, id: Uuid)
    returns (first: Result<AccountResponse, Exception>, second: Result<AccountResponse, Exception>, ghost events: nat)
    ensures first.Success? && first.value.initialDeposit == Some(Decimal(1000, 0)) && second == first
    ensures events == 3
  {
    var repository := new Repository.AccountRepository();
    var service := new Service.AccountService(repository);
    CreateReference(service, clientId, id);
    var request := UpdateRequest.Empty.(initialDeposit := Some(Decimal(1000, 0)));
    ghost var row := service.repository.rows[id];
    DepositUpdateOfReference(clientId, row, request);
    first := AnnouncedUpdate(service, id, request);
    assert service.repository.rows[id] == row;
    second := AnnouncedUpdate(service, id, request);
    events := |service.audit|;
  }

  /** The reference request with a deposit of 10^8: it passes the request's rules, but not the column. */
  lemma OversizedDepositIsBound(clientId: Uuid, request: CreateRequest.CreateAccountRequest)
    requires request == CreateRequest.Reference(clientId).(initialDeposit := Some(Decimal(100_000_000, 0)))
    ensures BindCreateBody(Readable(request)) == Success(request)
    ensures request.initialDeposit.Some? && !FitsColumn(request.initialDeposit.value)
  {
    CreateRequest.ReferenceIsValid(clientId);
    assert CreateRequest.Violations(request) == CreateRequest.Violations(CreateRequest.Reference(clientId));
    ColumnExamples();
  }

  /** A create the rules accept but the column does not: a wrapped service error, and nothing stored. */
  method CreateOverflowing(controller: Routes.AccountController, request: CreateRequest.CreateAccountRequest, id: Uuid)
    returns (r: HttpResponse)
    requires controller.Valid() && id !in controller.service.repository.rows
    requires BindCreateBody(Readable(request)).Success?
    requires request.initialDeposit.Some? && !FitsColumn(request.initialDeposit.value)
    modifies controller.service, controller.service.repository
    ensures r == Handle(Runtime("Failed to create account"), "uri=/api/accounts", NO_MAP_TEXT)
    ensures r.status == INTERNAL_SERVER_ERROR && r.body.ErrorBody? && r.body.error.error == "Service Error"
    ensures controller.service.repository.rows == old(controller.service.repository.rows)
  {
    r := controller.CreateAccount(Readable(request), USER, "uri=/api/accounts", NO_MAP_TEXT, 0, id);
    ServerErrorLabel(Runtime("Failed to create account"), "uri=/api/accounts", NO_MAP_TEXT);
  }

  /** A deposit of 10^8 passes the request's rules but overflows the column: 500, and nothing is stored. */
  method OversizedDepositCreate(clientId: Uuid, id: Uuid) returns (r: HttpResponse, stored: nat)
    ensures r.status == INTERNAL_SERVER_ERROR && r.body.ErrorBody? && r.body.error.error == "Service Error"
    ensures stored == 0
  {
    var controller := Routes.NewController();
    var request := CreateRequest.Reference(clientId).(initialDeposit := Some(Decimal(100_000_000, 0)));
    OversizedDepositIsBound(clientId, request);
    r := CreateOverflowing(controller, request, id);
    stored := controller.service.repository.Count();
  }

  /** The reference request with a deposit of 0.001: it passes the request's rules and fits the column. */
  lemma SubCentDepositIsBound(clientId: Uuid, request: CreateRequest.CreateAccountRequest)
    requires request == CreateRequest.Reference(clientId).(initialDeposit := Some(Decimal(1, 3)))
    ensures CreateRequest.Violations(request) == []
    ensures request.initialDeposit.Some? && FitsColumn(request.initialDeposit.value)
    ensures RoundToCents(request.initialDeposit.value) == Decimal(0, 2)
  {
    CreateRequest.ReferenceIsValid(clientId);
    ColumnExamples();
    assert CreateRequest.Violations(request) == CreateRequest.Violations(CreateRequest.Reference(clientId));
  }

  /** An update with an empty body changes no field of a row, so it records nothing. */
  lemma EmptyUpdateChangesNothing(row: Entity.AccountState)
    requires Service.Complete(row)
    ensures Service.Apply(row, UpdateRequest.Empty) == row
    ensures Service.Changes(row, UpdateRequest.Empty) == []
    ensures BindUpdateBody(Readable(UpdateRequest.Empty)) == Success(UpdateRequest.Empty)
  {
    UpdateRequest.EmptyRequestIsValid();
  }

  /** An empty update of a stored account: 200 with the stored account, the table unchanged. */
  method EmptyUpdate(controller: Routes.AccountController, id: Uuid) returns (r: HttpResponse)
    requires controller.Valid() && id in controller.service.repository.rows
    modifies controller.service, controller.service.repository
    ensures r == HttpResponse(OK, AccountBody(Service.ConvertToResponse(old(controller.service.repository.rows[id]))))
    ensures controller.service.repository.rows == old(controller.service.repository.rows)
  {
    ghost var rows := controller.service.repository.rows;
    EmptyUpdateChangesNothing(rows[id]);
    r := controller.UpdateAccount(PathValue("", Some(id)), Readable(UpdateRequest.Empty), USER, "uri=/api/accounts", NO_MAP_TEXT);
    Routes.UnchangedUpdateIsOk(id, UpdateRequest.Empty, "uri=/api/accounts", NO_MAP_TEXT, r, rows,
                               controller.service.repository.rows);
  }

  /**
   * A deposit of 0.001 is created (201) and stored as 0.00, a row the entity's
   * rules would refuse. An update with an empty body still answers 200 with
   * that row: nothing changed, so nothing is written or checked.
   */
  method SubCentDepositThenEmptyUpdate(clientId: Uuid, id: Uuid) returns (created: int, r: HttpResponse)
    ensures created == CREATED
    ensures r.status == OK && r.body.AccountBody? && r.body.account.initialDeposit == Some(Decimal(0, 2))
  {
    var controller := Routes.NewController();
    var request := CreateRequest.Reference(clientId).(initialDeposit := Some(Decimal(1, 3)));
    SubCentDepositIsBound(clientId, request);
    ghost var row;
    created, row := CreateAccepted(controller, request, id);
    r := EmptyUpdate(controller, id);
  }

  /** A create body without a client id is answered 400 and stores nothing. */
  method NullClientIdNeverStored(clientId: Uuid, id: Uuid) returns (r: HttpResponse, stored: nat)
    ensures r.status == BAD_REQUEST && r.body.ErrorBody?
    ensures r.body.error.message == "Client ID is required"
    ensures stored == 0
  {
    var controller := Routes.NewController();
    var request := CreateRequest.Reference(clientId).(clientId := None);
    CreateRequest.NullClientIdRejected(clientId);
    r := controller.CreateAccount(Readable(request), USER, "uri=/api/accounts", NO_MAP_TEXT, 0, id);
    stored := controller.service.repository.Count();
  }
}
