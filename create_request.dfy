/** dto/CreateAccountRequest.java: the body of POST /api/accounts, every field required. */
module CreateRequest {
  import opened Wrappers
  import opened Domain
  import opened Constraints

  /** Every field is a boxed Java reference, so each may be null (None). */
  datatype CreateAccountRequest = CreateAccountRequest(
    clientId: Option<Uuid>,
    accType: Option<AccountType>,
    accStatus: Option<AccountStatus>,
    initialDeposit: Option<Decimal>,
    currency: Option<string>,
    branchId: Option<Int32>)

  /** The validation rules as one plain predicate: what a request must satisfy. */
  predicate Valid(req: CreateAccountRequest)
  {
    && req.clientId.Some?
    && req.accType.Some?
    && req.accStatus.Some?
    && req.initialDeposit.Some? && IsPositive(req.initialDeposit.value)
    && req.currency.Some? && !IsBlank(req.currency.value) && Utf16Length(req.currency.value) == 3
    && req.branchId.Some? && req.branchId.value > 0
  }

  /**
   * Every constraint the annotations raise, field by field in declaration order.
   * A request is accepted exactly when there are none, and each message appears
   * exactly when its own rule is broken.
   */
  function Violations(req: CreateAccountRequest): (r: seq<Violation>)
    ensures r == [] <==> Valid(req)
  {
    NotNull("clientId", req.clientId, "Client ID is required")
    + NotNull("accType", req.accType, "Account type is required")
    + NotNull("accStatus", req.accStatus, "Account status is required")
    + NotNull("initialDeposit", req.initialDeposit, "Initial deposit is required")
    + DecimalMinExclusiveZero("initialDeposit", req.initialDeposit, "Initial deposit must be positive")
    + NotBlank("currency", req.currency, "Currency is required")
    + Size("currency", req.currency, 3, 3, "Currency must be 3 characters")
    + NotNull("branchId", req.branchId, "Branch ID is required")
    + Positive("branchId", req.branchId, "Branch ID must be positive")
  }

  /** The three fields with only a required rule are reported exactly when null. */
  lemma RequiredFieldMessages(req: CreateAccountRequest)
    ensures Violation("clientId", "Client ID is required") in Violations(req) <==> req.clientId.None?
    ensures Violation("accType", "Account type is required") in Violations(req) <==> req.accType.None?
    ensures Violation("accStatus", "Account status is required") in Violations(req) <==> req.accStatus.None?
  {
  }

  /** The deposit is reported as missing when null and as not positive when zero or below. */
  lemma DepositMessages(req: CreateAccountRequest)
    ensures Violation("initialDeposit", "Initial deposit is required") in Violations(req) <==> req.initialDeposit.None?
    ensures Violation("initialDeposit", "Initial deposit must be positive") in Violations(req) <==> req.initialDeposit.Some? && !IsPositive(req.initialDeposit.value)
  {
  }

  /** The currency is reported as missing when null or blank. */
  lemma CurrencyRequiredMessage(req: CreateAccountRequest)
    ensures Violation("currency", "Currency is required") in Violations(req) <==> req.currency.None? || IsBlank(req.currency.value)
  {
    assert Violation("currency", "Currency is required") !in NotNull("clientId", req.clientId, "Client ID is required") by { assert |"Currency is required"| != |"Client ID is required"|; }
    assert Violation("currency", "Currency is required") !in NotNull("accType", req.accType, "Account type is required") by { assert |"Currency is required"| != |"Account type is required"|; }
    assert Violation("currency", "Currency is required") !in NotNull("accStatus", req.accStatus, "Account status is required") by { assert |"Currency is required"| != |"Account status is required"|; }
    assert Violation("currency", "Currency is required") !in NotNull("initialDeposit", req.initialDeposit, "Initial deposit is required") by { assert |"Currency is required"| != |"Initial deposit is required"|; }
    assert Violation("currency", "Currency is required") !in DecimalMinExclusiveZero("initialDeposit", req.initialDeposit, "Initial deposit must be positive") by { assert |"Currency is required"| != |"Initial deposit must be positive"|; }
    assert Violation("currency", "Currency is required") !in Size("currency", req.currency, 3, 3, "Currency must be 3 characters") by { assert |"Currency is required"| != |"Currency must be 3 characters"|; }
    assert Violation("currency", "Currency is required") !in NotNull("branchId", req.branchId, "Branch ID is required") by { assert |"Currency is required"| != |"Branch ID is required"|; }
    assert Violation("currency", "Currency is required") !in Positive("branchId", req.branchId, "Branch ID must be positive") by { assert |"Currency is required"| != |"Branch ID must be positive"|; }
  }

  /** The currency is reported as mis-sized when present with a length other than 3. */
  lemma CurrencySizeMessage(req: CreateAccountRequest)
    ensures Violation("currency", "Currency must be 3 characters") in Violations(req) <==> req.currency.Some? && Utf16Length(req.currency.value) != 3
  {
    assert Violation("currency", "Currency must be 3 characters") !in NotNull("clientId", req.clientId, "Client ID is required") by { assert |"Currency must be 3 characters"| != |"Client ID is required"|; }
    assert Violation("currency", "Currency must be 3 characters") !in NotNull("accType", req.accType, "Account type is required") by { assert |"Currency must be 3 characters"| != |"Account type is required"|; }
    assert Violation("currency", "Currency must be 3 characters") !in NotNull("accStatus", req.accStatus, "Account status is required") by { assert |"Currency must be 3 characters"| != |"Account status is required"|; }
    assert Violation("currency", "Currency must be 3 characters") !in NotNull("initialDeposit", req.initialDeposit, "Initial deposit is required") by { assert |"Currency must be 3 characters"| != |"Initial deposit is required"|; }
    assert Violation("currency", "Currency must be 3 characters") !in DecimalMinExclusiveZero("initialDeposit", req.initialDeposit, "Initial deposit must be positive") by { assert |"Currency must be 3 characters"| != |"Initial deposit must be positive"|; }
    assert Violation("currency", "Currency must be 3 characters") !in NotBlank("currency", req.currency, "Currency is required") by { assert |"Currency must be 3 characters"| != |"Currency is required"|; }
    assert Violation("currency", "Currency must be 3 characters") !in NotNull("branchId", req.branchId, "Branch ID is required") by { assert |"Currency must be 3 characters"| != |"Branch ID is required"|; }
    assert Violation("currency", "Currency must be 3 characters") !in Positive("branchId", req.branchId, "Branch ID must be positive") by { assert |"Currency must be 3 characters"| != |"Branch ID must be positive"|; }
  }

  /** The branch is reported as missing when null and as not positive when zero or below. */
  lemma BranchMessages(req: CreateAccountRequest)
    ensures Violation("branchId", "Branch ID is required") in Violations(req) <==> req.branchId.None?
    ensures Violation("branchId", "Branch ID must be positive") in Violations(req) <==> req.branchId.Some? && req.branchId.value <= 0
  {
  }


  /** The request the integration tests treat as valid: SAVINGS, ACTIVE, 1000.00, "USD", branch 1. */
  function Reference(clientId: Uuid): CreateAccountRequest
  {
    CreateAccountRequest(Some(clientId), Some(SAVINGS), Some(ACTIVE), Some(Decimal(100000, 2)), Some("USD"), Some(1))
  }

  lemma ReferenceIsValid(clientId: Uuid)
    ensures Violations(Reference(clientId)) == []
  {
    assert !IsBlank("USD") by { BlankIffAllControlOrSpace("USD"); assert "USD"[0] > ' '; }
  }

  /** A null client id is rejected with exactly one message. */
  lemma NullClientIdRejected(clientId: Uuid)
    ensures Violations(Reference(clientId).(clientId := None)) == [Violation("clientId", "Client ID is required")]
  {
    ReferenceIsValid(clientId);
  }

  /** Deposits of 0 and -100.00 are rejected as not positive. */
  lemma NonPositiveDepositRejected(clientId: Uuid)
    ensures Violations(Reference(clientId).(initialDeposit := Some(Decimal(0, 0))))
         == [Violation("initialDeposit", "Initial deposit must be positive")]
    ensures Violations(Reference(clientId).(initialDeposit := Some(Decimal(-10000, 2))))
         == [Violation("initialDeposit", "Initial deposit must be positive")]
  {
    ReferenceIsValid(clientId);
  }

  /** "US" is too short: only the size rule fires, it is not blank. */
  lemma TwoLetterCurrencyRejected(clientId: Uuid)
    ensures Violations(Reference(clientId).(currency := Some("US")))
         == [Violation("currency", "Currency must be 3 characters")]
  {
    ReferenceIsValid(clientId);
    assert !IsBlank("US") by { BlankIffAllControlOrSpace("US"); assert "US"[0] > ' '; }
  }

  /** An empty currency breaks both currency rules. */
  lemma EmptyCurrencyBreaksBothRules(clientId: Uuid)
    ensures Violations(Reference(clientId).(currency := Some("")))
         == [Violation("currency", "Currency is required"), Violation("currency", "Currency must be 3 characters")]
  {
    ReferenceIsValid(clientId);
  }

  /** Branch -1 is rejected as not positive. */
  lemma NegativeBranchRejected(clientId: Uuid)
    ensures Violations(Reference(clientId).(branchId := Some(-1)))
         == [Violation("branchId", "Branch ID must be positive")]
  {
    ReferenceIsValid(clientId);
  }
}
