/**
 * The AccountController object wired to its AccountService: each route binds
 * its arguments in declaration order, calls the service only when every
 * argument is bound, and answers through the route's dispatch and the global
 * handler.
 */
module Routes {
  import opened Wrappers
  import opened Domain
  import opened Exceptions
  import opened Dto
  import opened ExceptionHandler
  import opened Controller
  import CreateRequest
  import UpdateRequest
  import Entity
  import Repository
  import Service

  class AccountController {
    const service: Service.AccountService

    ghost predicate Valid()
      reads this, service, service.repository
    {
      service.Valid()
    }

    constructor (service: Service.AccountService)
      requires service.Valid()
      ensures Valid() && this.service == service
    {
      this.service := service;
    }

    /** POST /api/accounts?userId=… with a JSON body. */
    method CreateAccount(body: Payload<CreateRequest.CreateAccountRequest>, userId: Option<string>,
                         description: string, mapText: string, now: Timestamp, generatedId: Uuid)
      returns (r: HttpResponse)
      requires Valid()
      requires generatedId !in service.repository.rows
      modifies service, service.repository
      ensures Valid()
      ensures BindCreateBody(body).Failure? ==>
        && r == Handle(BindCreateBody(body).error, description, mapText)
        && r.status == BAD_REQUEST
        && unchanged(service, service.repository)
      ensures BindCreateBody(body).Success? && userId.None? ==>
        && r == Handle(MissingRequestParameter("userId"), description, mapText)
        && r.status == INTERNAL_SERVER_ERROR
        && unchanged(service, service.repository)
      ensures BindCreateBody(body).Success? && userId.Some? && FitsColumn(body.value.initialDeposit.value) ==>
        var saved := Entity.FromCreateRequest(body.value, now).(id := Some(generatedId));
        && r == HttpResponse(CREATED, AccountBody(Service.ConvertToResponse(saved)))
        && service.repository.rows == old(service.repository.rows)[generatedId := Entity.Stored(saved)]
        && service.repository.order == old(service.repository.order) + [generatedId]
      ensures BindCreateBody(body).Success? && userId.Some? && !FitsColumn(body.value.initialDeposit.value) ==>
        && r == Handle(Runtime("Failed to create account"), description, mapText)
        && r.status == INTERNAL_SERVER_ERROR
        && service.repository.rows == old(service.repository.rows)
        && service.repository.order == old(service.repository.order)
    {
      var request := BindCreateBody(body);
      if request.Failure? {
        return Handle(request.error, description, mapText);
      }
      var user := BindParam("userId", userId);
      if user.Failure? {
        return Handle(user.error, description, mapText);
      }
      var served := service.CreateAccount(request.value, user.value, now, generatedId);
      r := Respond(CreateOutcome(served), description, mapText);
      if FitsColumn(request.value.initialDeposit.value) {
        assert served.Success?;
      } else {
        assert served == Failure(Runtime(Repository.NUMERIC_FIELD_OVERFLOW));
      }
    }

    /** DELETE /api/accounts/{accountId}?userId=… */
    method DeleteAccount(accountId: PathValue, userId: Option<string>, description: string, mapText: string)
      returns (r: HttpResponse)
      requires Valid()
      modifies service, service.repository
      ensures Valid()
      ensures accountId.converted.None? ==>
        && r == Handle(ArgumentTypeMismatch("accountId", accountId.text, "UUID"), description, mapText)
        && unchanged(service, service.repository)
      ensures accountId.converted.Some? && userId.None? ==>
        && r == Handle(MissingRequestParameter("userId"), description, mapText)
        && unchanged(service, service.repository)
      ensures accountId.converted.Some? && userId.Some? ==>
        var id := accountId.converted.value;
        && (id in old(service.repository.rows) ==>
              && r == HttpResponse(NO_CONTENT, NoBody)
              && service.repository.rows == old(service.repository.rows) - {id})
        && (id !in old(service.repository.rows) ==>
              && r == Handle(AccountNotFound(Service.NotFoundMessage(id)), description, mapText)
              && r.status == NOT_FOUND
              && service.repository.rows == old(service.repository.rows))
    {
      var id := BindPath("accountId", accountId);
      if id.Failure? {
        return Handle(id.error, description, mapText);
      }
      var user := BindParam("userId", userId);
      if user.Failure? {
        return Handle(user.error, description, mapText);
      }
      var served := service.DeleteAccount(id.value, user.value);
      r := Respond(DeleteOutcome(served), description, mapText);
    }

    /** GET /api/accounts/client/{clientId}?userId=… */
    method GetAccountsByClientId(clientId: PathValue, userId: Option<string>, description: string, mapText: string)
      returns (r: HttpResponse)
      requires Valid()
      modifies service
      ensures Valid()
      ensures unchanged(service.repository)
      ensures clientId.converted.None? ==>
        && r == Handle(ArgumentTypeMismatch("clientId", clientId.text, "UUID"), description, mapText)
        && unchanged(service)
      ensures clientId.converted.Some? && userId.None? ==>
        && r == Handle(MissingRequestParameter("userId"), description, mapText)
        && unchanged(service)
      ensures clientId.converted.Some? && userId.Some? ==>
        && r.status == OK && r.body.AccountListBody?
        && r.body.accounts == Service.ConvertAll(service.repository.FindByClientId(clientId.converted.value))
    {
      var id := BindPath("clientId", clientId);
      if id.Failure? {
        return Handle(id.error, description, mapText);
      }
      var user := BindParam("userId", userId);
      if user.Failure? {
        return Handle(user.error, description, mapText);
      }
      var accounts := service.GetAccountsByClientId(id.value, user.value);
      r := Respond(ClientAccountsOutcome(Success(accounts)), description, mapText);
    }

    /** GET /api/accounts (no userId parameter). */
    method GetAllAccounts(description: string, mapText: string) returns (r: HttpResponse)
      requires Valid()
      ensures r == HttpResponse(OK, AccountListBody(Service.ConvertAll(service.repository.FindAll())))
      ensures |r.body.accounts| == service.repository.Count()
      ensures forall x :: x in r.body.accounts <==>
                exists a :: a in service.repository.rows.Values && x == Service.ConvertToResponse(a)
    {
      var accounts := service.GetAllAccounts();
      assert service.repository.Count() == |service.repository.order| by {
        Repository.CountIsOrderLength(service.repository);
      }
      r := Respond(AllAccountsOutcome(Success(accounts)), description, mapText);
    }

    /** GET /api/accounts/{accountId}?userId=… */
    method GetAccountById(accountId: PathValue, userId: Option<string>, description: string, mapText: string)
      returns (r: HttpResponse)
      requires Valid()
      modifies service
      ensures Valid()
      ensures unchanged(service.repository)
      ensures accountId.converted.None? ==>
        && r == Handle(ArgumentTypeMismatch("accountId", accountId.text, "UUID"), description, mapText)
        && unchanged(service)
      ensures accountId.converted.Some? && userId.None? ==>
        && r == Handle(MissingRequestParameter("userId"), description, mapText)
        && unchanged(service)
      ensures accountId.converted.Some? && userId.Some? ==>
        var id := accountId.converted.value;
        && (id in service.repository.rows ==>
              r == HttpResponse(OK, AccountBody(Service.ConvertToResponse(service.repository.rows[id]))))
        && (id !in service.repository.rows ==> r == HttpResponse(NOT_FOUND, NoBody))
    {
      var id := BindPath("accountId", accountId);
      if id.Failure? {
        return Handle(id.error, description, mapText);
      }
      var user := BindParam("userId", userId);
      if user.Failure? {
        return Handle(user.error, description, mapText);
      }
      var found := service.GetAccountById(id.value, user.value);
      r := Respond(AccountByIdOutcome(Success(found)), description, mapText);
    }

    /** PUT /api/accounts/{accountId}?userId=… with a JSON body. */
    method UpdateAccount(accountId: PathValue, body: Payload<UpdateRequest.UpdateAccountRequest>, userId: Option<string>,
                         description: string, mapText: string)
      returns (r: HttpResponse)
      requires Valid()
      modifies service, service.repository
      ensures Valid()
      ensures service.repository.order == old(service.repository.order)
      ensures accountId.converted.None? ==>
        && r == Handle(ArgumentTypeMismatch("accountId", accountId.text, "UUID"), description, mapText)
        && unchanged(service, service.repository)
      ensures accountId.converted.Some? && BindUpdateBody(body).Failure? ==>
        && r == Handle(BindUpdateBody(body).error, description, mapText)
        && r.status == BAD_REQUEST
        && unchanged(service, service.repository)
      ensures accountId.converted.Some? && BindUpdateBody(body).Success? && userId.None? ==>
        && r == Handle(MissingRequestParameter("userId"), description, mapText)
        && unchanged(service, service.repository)
      ensures accountId.converted.Some? && BindUpdateBody(body).Success? && userId.Some? ==>
        UpdateAnswered(accountId.converted.value, body.value, description, mapText, r,
                       old(service.repository.rows), service.repository.rows)
    {
      var id := BindPath("accountId", accountId);
      if id.Failure? {
        return Handle(id.error, description, mapText);
      }
      var request := BindUpdateBody(body);
      if request.Failure? {
        return Handle(request.error, description, mapText);
      }
      var user := BindParam("userId", userId);
      if user.Failure? {
        return Handle(user.error, description, mapText);
      }
      r := ServeUpdate(id.value, request.value, user.value, description, mapText);
    }

    /** The update route once its arguments are bound: the service call and the route's dispatch. */
    method ServeUpdate(id: Uuid, request: UpdateRequest.UpdateAccountRequest, userId: string,
                       description: string, mapText: string)
      returns (r: HttpResponse)
      requires Valid()
      modifies service, service.repository
      ensures Valid()
      ensures service.repository.order == old(service.repository.order)
      ensures UpdateAnswered(id, request, description, mapText, r, old(service.repository.rows), service.repository.rows)
    {
      ghost var before := service.repository.rows;
      var served := service.UpdateAccount(id, request, userId);
      r := Respond(UpdateOutcome(served), description, mapText);
      if id !in before {
        assert served == Failure(AccountNotFound(Service.NotFoundMessage(id)));
      } else {
        ghost var updated := Service.Apply(before[id], request);
        if Entity.Accepted(updated, before[id]) {
          assert served == Success(Service.ConvertToResponse(updated));
        } else {
          assert served.Failure? && (served.error.ConstraintViolation? || served.error.Runtime?);
        }
      }
    }
  }

  /**
   * The answer to an update of a bound request: 404 when the account is absent;
   * 200 with the updated account when no column changed or the table accepts
   * it (the row then holds the deposit rounded to cents); and a 500 service
   * error (the save refused, the table as it was) when a changed row breaks
   * the entity's rules or overflows the deposit column.
   */
  ghost predicate UpdateAnswered(id: Uuid, request: UpdateRequest.UpdateAccountRequest, description: string,
                                 mapText: string, r: HttpResponse,
                                 before: map<Uuid, Entity.AccountState>, after: map<Uuid, Entity.AccountState>)
  {
    && (id !in before ==>
          && r == Handle(AccountNotFound(Service.NotFoundMessage(id)), description, mapText)
          && after == before)
    && (id in before ==>
          var updated := Service.Apply(before[id], request);
          && (Entity.Accepted(updated, before[id]) ==>
                && r == HttpResponse(OK, AccountBody(Service.ConvertToResponse(updated)))
                && after == before[id := Entity.Stored(updated)])
          && (!Entity.Accepted(updated, before[id]) ==>
                && r == Handle(Runtime("Failed to update account"), description, mapText)
                && after == before))
  }

  /** A fresh controller over an empty table. */
  method NewController() returns (c: AccountController)
    ensures fresh(c) && fresh(c.service) && fresh(c.service.repository)
    ensures c.Valid() && c.service.repository.rows == map[] && c.service.repository.order == [] && c.service.audit == []
  {
    var repository := new Repository.AccountRepository();
    var service := new Service.AccountService(repository);
    c := new AccountController(service);
  }

  /** An update of a stored account that changes a column the table then refuses is answered with a 500 service error. */
  lemma RefusedUpdateIsServiceError(id: Uuid, request: UpdateRequest.UpdateAccountRequest, description: string,
                                    mapText: string, r: HttpResponse,
                                    before: map<Uuid, Entity.AccountState>, after: map<Uuid, Entity.AccountState>)
    requires UpdateAnswered(id, request, description, mapText, r, before, after)
    requires id in before && !Entity.Accepted(Service.Apply(before[id], request), before[id])
    ensures r.status == INTERNAL_SERVER_ERROR && r.body.ErrorBody? && r.body.error.error == "Service Error"
    ensures after == before
  {
  }

  /** An update of a stored account that changes nothing or that the table accepts is answered 200 with the updated account. */
  lemma AcceptedUpdateIsOk(id: Uuid, request: UpdateRequest.UpdateAccountRequest, description: string,
                           mapText: string, r: HttpResponse,
                           before: map<Uuid, Entity.AccountState>, after: map<Uuid, Entity.AccountState>)
    requires UpdateAnswered(id, request, description, mapText, r, before, after)
    requires id in before && Entity.Accepted(Service.Apply(before[id], request), before[id])
    ensures r == HttpResponse(OK, AccountBody(Service.ConvertToResponse(Service.Apply(before[id], request))))
    ensures after == before[id := Entity.Stored(Service.Apply(before[id], request))]
  {
  }

  /**
   * An update that records no change is answered 200 with the stored account
   * and leaves the table as it was, whatever the row holds: even a row the
   * entity's rules would now refuse, such as a deposit rounded down to 0.00.
   */
  lemma UnchangedUpdateIsOk(id: Uuid, request: UpdateRequest.UpdateAccountRequest, description: string,
                            mapText: string, r: HttpResponse,
                            before: map<Uuid, Entity.AccountState>, after: map<Uuid, Entity.AccountState>)
    requires UpdateAnswered(id, request, description, mapText, r, before, after)
    requires id in before && Entity.IsRow(before[id]) && Service.Changes(before[id], request) == []
    ensures r == HttpResponse(OK, AccountBody(Service.ConvertToResponse(before[id])))
    ensures after == before
  {
    var row := before[id];
    Service.NoChangesIffUnchanged(row, request);
    assert Entity.Clean(Service.Apply(row, request), row);
    Entity.CleanIsStoredAsRow(row, row);
    assert before[id := row] == before;
  }
}
