/**
 * model/Account.java: the persisted account entity. Its fields are boxed Java
 * references, so each may be null until the entity is validated; Lombok's @Data
 * gives it the setters the partial update calls one field at a time.
 */
module Entity {
  import opened Wrappers
  import opened Domain
  import opened Constraints
  import CreateRequest

  /** The values of an entity's eight fields at one moment. */
  datatype AccountState = AccountState(
    id: Option<Uuid>,
    clientId: Option<Uuid>,
    accType: Option<AccountType>,
    accStatus: Option<AccountStatus>,
    openingDate: Option<Timestamp>,
    initialDeposit: Option<Decimal>,
    currency: Option<string>,
    branchId: Option<Int32>)

  /**
   * The entity invariant its annotations state: every field but the generated id
   * is present, the deposit is positive, the currency is non-blank and three
   * characters long, and the branch is positive.
   */
  predicate Valid(s: AccountState)
  {
    && s.clientId.Some?
    && s.accType.Some?
    && s.accStatus.Some?
    && s.openingDate.Some?
    && s.initialDeposit.Some? && IsPositive(s.initialDeposit.value)
    && s.currency.Some? && !IsBlank(s.currency.value) && Utf16Length(s.currency.value) == 3
    && s.branchId.Some? && s.branchId.value > 0
  }

  /** The violations bean validation reports for an entity, in declaration order. */
  function Violations(s: AccountState): (r: seq<Violation>)
    ensures r == [] <==> Valid(s)
  {
    NotNull("clientId", s.clientId, "Client ID is required")
    + NotNull("accType", s.accType, "Account type is required")
    + NotNull("accStatus", s.accStatus, "Account status is required")
    + NotNull("openingDate", s.openingDate, "Opening date is required")
    + NotNull("initialDeposit", s.initialDeposit, "Initial deposit is required")
    + DecimalMinExclusiveZero("initialDeposit", s.initialDeposit, "Initial deposit must be positive")
    + NotBlank("currency", s.currency, "Currency is required")
    + Size("currency", s.currency, 3, 3, "Currency must be 3 characters")
    + NotNull("branchId", s.branchId, "Branch ID is required")
    + Positive("branchId", s.branchId, "Branch ID must be positive")
  }

  /** The entity the service builds from a create request: no id yet, opened now. */
  function FromCreateRequest(req: CreateRequest.CreateAccountRequest, now: Timestamp): (s: AccountState)
    ensures s.id.None? && s.openingDate == Some(now)
    ensures s.clientId == req.clientId && s.accType == req.accType && s.accStatus == req.accStatus
    ensures s.initialDeposit == req.initialDeposit && s.currency == req.currency && s.branchId == req.branchId
  {
    AccountState(None, req.clientId, req.accType, req.accStatus, Some(now),
                 req.initialDeposit, req.currency, req.branchId)
  }

  /**
   * The entity repeats the request's constraints with the same messages, and its
   * only extra field, the opening date, is always set: an entity built from a
   * request breaks exactly the rules the request breaks.
   */
  lemma CreateRulesAreEntityRules(req: CreateRequest.CreateAccountRequest, now: Timestamp)
    ensures Violations(FromCreateRequest(req, now)) == CreateRequest.Violations(req)
    ensures Valid(FromCreateRequest(req, now)) <==> CreateRequest.Valid(req)
  {
  }

  /**
   * What the table accepts: the entity's rules hold and the deposit fits the
   * numeric(10, 2) column.
   */
  predicate Storable(s: AccountState)
  {
    Valid(s) && FitsColumn(s.initialDeposit.value)
  }

  /** The row the table holds for an entity: the same fields, the deposit as the column keeps it. */
  function Stored(s: AccountState): (t: AccountState)
    ensures t == s.(initialDeposit := t.initialDeposit)
    ensures s.initialDeposit.Some? <==> t.initialDeposit.Some?
    ensures s.initialDeposit.Some? ==> t.initialDeposit.value == RoundToCents(s.initialDeposit.value)
    ensures s.initialDeposit.Some? && s.initialDeposit.value.scale == 2 ==> t == s
  {
    if s.initialDeposit.Some? then s.(initialDeposit := Some(RoundToCents(s.initialDeposit.value))) else s
  }

  /** A row read back and written again is stored as it is. */
  lemma StoringTwiceChangesNothing(s: AccountState)
    ensures Stored(Stored(s)) == Stored(s)
  {
  }

  /** An entity the table accepts is stored as a row. */
  lemma StoredIsRow(s: AccountState)
    requires Storable(s)
    ensures IsRow(Stored(s))
  {
    var d := s.initialDeposit.value;
    assert RoundToCents(d).unscaled >= 0;
  }

  /**
   * What every stored row satisfies: the fields are present and the text and
   * branch rules hold as they did when it was saved; the deposit has two
   * decimals and fits the column, but rounding may have left it at zero.
   */
  predicate IsRow(s: AccountState)
  {
    && s.clientId.Some?
    && s.accType.Some?
    && s.accStatus.Some?
    && s.openingDate.Some?
    && s.initialDeposit.Some? && s.initialDeposit.value.scale == 2 && s.initialDeposit.value.unscaled >= 0
    && Abs(s.initialDeposit.value.unscaled) < CENTS_BOUND
    && s.currency.Some? && !IsBlank(s.currency.value) && Utf16Length(s.currency.value) == 3
    && s.branchId.Some? && s.branchId.value > 0
  }

  /**
   * A deposit of 0.001 passes the entity's rules and is stored, but the row
   * holds 0.00 and no longer passes them.
   */
  lemma SubCentDepositIsLost(s: AccountState)
    requires Valid(s) && s.initialDeposit == Some(Decimal(1, 3))
    ensures Storable(s) && IsRow(Stored(s))
    ensures Stored(s).initialDeposit == Some(Decimal(0, 2)) && !Valid(Stored(s))
  {
    ColumnExamples();
  }

  /**
   * Hibernate's dirty check of an entity loaded from a row: no column differs
   * from the row's, the deposit compared by value (BigDecimal.compareTo). Such
   * an entity is not written at flush, so its validation does not run either.
   */
  predicate Clean(s: AccountState, row: AccountState)
  {
    && s.(initialDeposit := row.initialDeposit) == row
    && (s.initialDeposit.Some? <==> row.initialDeposit.Some?)
    && (s.initialDeposit.Some? ==> SameValue(s.initialDeposit.value, row.initialDeposit.value))
  }

  /** Whether saving an entity loaded from the row succeeds: nothing to write, or the table takes it. */
  predicate Accepted(s: AccountState, row: AccountState)
  {
    Clean(s, row) || Storable(s)
  }

  /** A clean entity is what its row already holds: the column would store the row itself. */
  lemma CleanIsStoredAsRow(s: AccountState, row: AccountState)
    requires IsRow(row) && Clean(s, row)
    ensures Stored(s) == row
  {
    RoundingKeepsCents(s.initialDeposit.value, row.initialDeposit.value);
  }

  /** The mutable entity object. */
  class Account {
    var id: Option<Uuid>
    var clientId: Option<Uuid>
    var accType: Option<AccountType>
    var accStatus: Option<AccountStatus>
    var openingDate: Option<Timestamp>
    var initialDeposit: Option<Decimal>
    var currency: Option<string>
    var branchId: Option<Int32>

    function State(): AccountState
      reads this
    {
      AccountState(id, clientId, accType, accStatus, openingDate, initialDeposit, currency, branchId)
    }

    /** The constructor the service calls: every field but the id. */
    constructor (clientId: Option<Uuid>, accType: Option<AccountType>, accStatus: Option<AccountStatus>,
                 openingDate: Option<Timestamp>, initialDeposit: Option<Decimal>,
                 currency: Option<string>, branchId: Option<Int32>)
      ensures State() == AccountState(None, clientId, accType, accStatus, openingDate,
                                      initialDeposit, currency, branchId)
    {
      this.id := None;
      this.clientId := clientId;
      this.accType := accType;
      this.accStatus := accStatus;
      this.openingDate := openingDate;
      this.initialDeposit := initialDeposit;
      this.currency := currency;
      this.branchId := branchId;
    }

    /** An entity object holding a stored row, as the repository's lookups hand it out. */
    constructor Load(s: AccountState)
      ensures State() == s
    {
      id, clientId, accType, accStatus := s.id, s.clientId, s.accType, s.accStatus;
      openingDate, initialDeposit, currency, branchId := s.openingDate, s.initialDeposit, s.currency, s.branchId;
    }

    method SetId(v: Uuid)
      modifies this
      ensures State() == old(State()).(id := Some(v))
    {
      id := Some(v);
    }

    method SetAccType(v: AccountType)
      modifies this
      ensures State() == old(State()).(accType := Some(v))
    {
      accType := Some(v);
    }

    method SetAccStatus(v: AccountStatus)
      modifies this
      ensures State() == old(State()).(accStatus := Some(v))
    {
      accStatus := Some(v);
    }

    method SetInitialDeposit(v: Decimal)
      modifies this
      ensures State() == old(State()).(initialDeposit := Some(v))
    {
      initialDeposit := Some(v);
    }

    method SetCurrency(v: string)
      modifies this
      ensures State() == old(State()).(currency := Some(v))
    {
      currency := Some(v);
    }

    method SetBranchId(v: Int32)
      modifies this
      ensures State() == old(State()).(branchId := Some(v))
    {
      branchId := Some(v);
    }
  }
}
