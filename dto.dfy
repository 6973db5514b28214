/**
 * dto/AccountResponse.java and dto/ErrorResponse.java, and the ResponseEntity
 * (status code and body) a route or handler returns.
 */
module Dto {
  import opened Wrappers
  import opened Domain

  /** The account as the API returns it: a field-for-field copy of the entity. */
  datatype AccountResponse = AccountResponse(
    id: Option<Uuid>,
    clientId: Option<Uuid>,
    accType: Option<AccountType>,
    accStatus: Option<AccountStatus>,
    openingDate: Option<Timestamp>,
    initialDeposit: Option<Decimal>,
    currency: Option<string>,
    branchId: Option<Int32>)

  /** The uniform error body; its timestamp is the clock's and is not modelled. */
  datatype ErrorResponse = ErrorResponse(status: int, error: string, message: string, path: string)

  datatype Body =
    | NoBody
    | AccountBody(account: AccountResponse)
    | AccountListBody(accounts: seq<AccountResponse>)
    | ErrorBody(error: ErrorResponse)

  /** A ResponseEntity: the HTTP status code and the body. */
  datatype HttpResponse = HttpResponse(status: int, body: Body)
}
