/** dto/UpdateAccountRequest.java: the body of PUT /api/accounts/{id}, every field optional. */
module UpdateRequest {
  import opened Wrappers
  import opened Domain
  import opened Constraints
  import CreateRequest

  /** None means the field was omitted (null): it leaves the stored value alone. */
  datatype UpdateAccountRequest = UpdateAccountRequest(
    accType: Option<AccountType>,
    accStatus: Option<AccountStatus>,
    initialDeposit: Option<Decimal>,
    currency: Option<string>,
    branchId: Option<Int32>)

  /**
   * The rules on the fields that are present. The type and status carry no rule
   * beyond their enum type, and the currency has only the size rule: there is no
   * @NotBlank here.
   */
  predicate Valid(req: UpdateAccountRequest)
  {
    && (req.initialDeposit.Some? ==> IsPositive(req.initialDeposit.value))
    && (req.currency.Some? ==> Utf16Length(req.currency.value) == 3)
    && (req.branchId.Some? ==> req.branchId.value > 0)
  }

  function Violations(req: UpdateAccountRequest): (r: seq<Violation>)
    ensures r == [] <==> Valid(req)
    ensures FailedFields(r) <= {"initialDeposit", "currency", "branchId"}
    ensures Violation("initialDeposit", "Initial deposit must be positive") in r
        <==> req.initialDeposit.Some? && !IsPositive(req.initialDeposit.value)
    ensures Violation("currency", "Currency must be 3 characters") in r
        <==> req.currency.Some? && Utf16Length(req.currency.value) != 3
    ensures Violation("branchId", "Branch ID must be positive") in r
        <==> req.branchId.Some? && req.branchId.value <= 0
  {
    DecimalMinExclusiveZero("initialDeposit", req.initialDeposit, "Initial deposit must be positive")
    + Size("currency", req.currency, 3, 3, "Currency must be 3 characters")
    + Positive("branchId", req.branchId, "Branch ID must be positive")
  }

  const Empty := UpdateAccountRequest(None, None, None, None, None)

  /** A request that omits every field is valid. */
  lemma EmptyRequestIsValid()
    ensures Violations(Empty) == []
  {
  }

  /** Three spaces pass as a currency: blankness is not checked on update. */
  lemma BlankCurrencyPasses()
    ensures Violations(Empty.(currency := Some("   "))) == []
    ensures IsBlank("   ")
  {
    BlankIffAllControlOrSpace("   ");
  }

  /** Deposits of -50.00 and -500.00 are rejected. */
  lemma NegativeDepositRejected()
    ensures Violations(Empty.(initialDeposit := Some(Decimal(-5000, 2))))
         == [Violation("initialDeposit", "Initial deposit must be positive")]
    ensures Violations(Empty.(initialDeposit := Some(Decimal(-50000, 2))))
         == [Violation("initialDeposit", "Initial deposit must be positive")]
  {
  }

  /** The five mutable fields of a create request, read as an update request. */
  function FromCreate(c: CreateRequest.CreateAccountRequest): UpdateAccountRequest
  {
    UpdateAccountRequest(c.accType, c.accStatus, c.initialDeposit, c.currency, c.branchId)
  }

  /** Update rules are no stricter than create rules on the shared fields. */
  lemma CreateValidIsUpdateValid(c: CreateRequest.CreateAccountRequest)
    requires CreateRequest.Violations(c) == []
    ensures Violations(FromCreate(c)) == []
  {
  }
}
