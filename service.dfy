/**
 * service/AccountService.java: create, delete, the three reads and the partial
 * update, over the repository. Calls to the audit logging service are recorded
 * in a ghost log of events; their free-text remarks are not modelled.
 */
module Service {
  import opened Wrappers
  import opened Domain
  import opened Constraints
  import opened Exceptions
  import opened Dto
  import Entity
  import CreateRequest
  import UpdateRequest
  import Repository

  // ---------------------------------------------------------------------------
  // Entity to response
  // ---------------------------------------------------------------------------

  /** convertToResponse: copies the eight fields. */
  function ConvertToResponse(s: Entity.AccountState): (r: AccountResponse)
    ensures r.id == s.id && r.clientId == s.clientId && r.openingDate == s.openingDate
    ensures r.accType == s.accType && r.accStatus == s.accStatus
    ensures r.initialDeposit == s.initialDeposit && r.currency == s.currency && r.branchId == s.branchId
  {
    AccountResponse(s.id, s.clientId, s.accType, s.accStatus, s.openingDate,
                    s.initialDeposit, s.currency, s.branchId)
  }

  /** The copy loses nothing: distinct accounts give distinct responses. */
  lemma ConvertToResponseIsOneToOne(a: Entity.AccountState, b: Entity.AccountState)
    ensures ConvertToResponse(a) == ConvertToResponse(b) <==> a == b
  {
  }

  /** The stream map of the list reads: one response per account, in order. */
  function ConvertAll(accounts: seq<Entity.AccountState>): (r: seq<AccountResponse>)
    ensures |r| == |accounts|
    ensures forall i :: 0 <= i < |accounts| ==> r[i] == ConvertToResponse(accounts[i])
  {
    if accounts == [] then [] else [ConvertToResponse(accounts[0])] + ConvertAll(accounts[1..])
  }

  /** A response is in the converted list exactly when it is the response of a listed account. */
  lemma ConvertAllMembers(accounts: seq<Entity.AccountState>)
    ensures forall x :: x in ConvertAll(accounts) <==> exists a :: a in accounts && x == ConvertToResponse(a)
  {
    var rs := ConvertAll(accounts);
    forall x | x in rs
      ensures exists a :: a in accounts && x == ConvertToResponse(a)
    {
      var i :| 0 <= i < |rs| && rs[i] == x;
      assert accounts[i] in accounts;
    }
    forall a | a in accounts
      ensures ConvertToResponse(a) in rs
    {
      var i :| 0 <= i < |accounts| && accounts[i] == a;
      assert rs[i] == ConvertToResponse(a);
    }
  }

  // ---------------------------------------------------------------------------
  // The partial update, as a specification
  // ---------------------------------------------------------------------------

  /** The five fields an update may change, in the order updateAccount checks them. */
  datatype Field = AccTypeField | AccStatusField | InitialDepositField | CurrencyField | BranchIdField

  const FIELD_ORDER: seq<Field> := [AccTypeField, AccStatusField, InitialDepositField, CurrencyField, BranchIdField]

  /** The attribute name the audit log shows for a field. */
  function DisplayName(f: Field): string
  {
    match f
    case AccTypeField => "Account Type"
    case AccStatusField => "Account Status"
    case InitialDepositField => "Initial Deposit"
    case CurrencyField => "Currency"
    case BranchIdField => "Branch ID"
  }

  /** Distinct fields are logged under distinct names. */
  lemma DisplayNameIsInjective(f: Field, g: Field)
    ensures DisplayName(f) == DisplayName(g) <==> f == g
  {
    if f != g {
      assert |DisplayName(f)| != |DisplayName(g)|;
    }
  }

  /** The position of a field in FIELD_ORDER. */
  function Rank(f: Field): (k: nat)
    ensures k < |FIELD_ORDER| && FIELD_ORDER[k] == f
  {
    match f
    case AccTypeField => 0
    case AccStatusField => 1
    case InitialDepositField => 2
    case CurrencyField => 3
    case BranchIdField => 4
  }

  /** A field value as the update records it before and after a change. */
  datatype FieldValue =
    | TypeValue(accType: AccountType)
    | StatusValue(accStatus: AccountStatus)
    | DepositValue(deposit: Decimal)
    | CurrencyValue(currency: string)
    | BranchValue(branchId: Int32)

  /** One recorded change: the field and its old and new value. */
  datatype Change = Change(field: Field, before: FieldValue, after: FieldValue)

  /** The five mutable fields are set (true of every stored account). */
  predicate Complete(s: Entity.AccountState)
  {
    s.accType.Some? && s.accStatus.Some? && s.initialDeposit.Some? && s.currency.Some? && s.branchId.Some?
  }

  /** The current value of a field. */
  function FieldOf(s: Entity.AccountState, f: Field): FieldValue
    requires Complete(s)
  {
    match f
    case AccTypeField => TypeValue(s.accType.value)
    case AccStatusField => StatusValue(s.accStatus.value)
    case InitialDepositField => DepositValue(s.initialDeposit.value)
    case CurrencyField => CurrencyValue(s.currency.value)
    case BranchIdField => BranchValue(s.branchId.value)
  }

  /** The value the request gives for a field; None when it leaves the field out. */
  function Given(req: UpdateRequest.UpdateAccountRequest, f: Field): Option<FieldValue>
  {
    match f
    case AccTypeField => if req.accType.Some? then Some(TypeValue(req.accType.value)) else None
    case AccStatusField => if req.accStatus.Some? then Some(StatusValue(req.accStatus.value)) else None
    case InitialDepositField =>
      if req.initialDeposit.Some? then Some(DepositValue(req.initialDeposit.value)) else None
    case CurrencyField => if req.currency.Some? then Some(CurrencyValue(req.currency.value)) else None
    case BranchIdField => if req.branchId.Some? then Some(BranchValue(req.branchId.value)) else None
  }

  /** One field check of the update: the field takes the request's value when one is given. */
  function ApplyField(s: Entity.AccountState, req: UpdateRequest.UpdateAccountRequest, f: Field): Entity.AccountState
  {
    match f
    case AccTypeField => s.(accType := if req.accType.Some? then req.accType else s.accType)
    case AccStatusField => s.(accStatus := if req.accStatus.Some? then req.accStatus else s.accStatus)
    case InitialDepositField =>
      s.(initialDeposit := if req.initialDeposit.Some? then req.initialDeposit else s.initialDeposit)
    case CurrencyField => s.(currency := if req.currency.Some? then req.currency else s.currency)
    case BranchIdField => s.(branchId := if req.branchId.Some? then req.branchId else s.branchId)
  }

  /** What an update makes of a stored account: the five field checks in order. */
  function Apply(s: Entity.AccountState, req: UpdateRequest.UpdateAccountRequest): (t: Entity.AccountState)
    ensures t.id == s.id && t.clientId == s.clientId && t.openingDate == s.openingDate
  {
    var s1 := ApplyField(s, req, AccTypeField);
    var s2 := ApplyField(s1, req, AccStatusField);
    var s3 := ApplyField(s2, req, InitialDepositField);
    var s4 := ApplyField(s3, req, CurrencyField);
    ApplyField(s4, req, BranchIdField)
  }

  /**
   * The change one field check records: one entry when the request gives a
   * value unequal to the current one (equals() in the source, so a deposit
   * with a different scale counts as a change), none otherwise.
   */
  function ChangeOf(s: Entity.AccountState, req: UpdateRequest.UpdateAccountRequest, f: Field): seq<Change>
    requires Complete(s)
  {
    if Given(req, f).Some? && Given(req, f).value != FieldOf(s, f)
    then [Change(f, FieldOf(s, f), Given(req, f).value)] else []
  }

  /** The changes an update records, judged against the stored account. */
  function Changes(s: Entity.AccountState, req: UpdateRequest.UpdateAccountRequest): seq<Change>
    requires Complete(s)
  {
    ChangeOf(s, req, AccTypeField) + ChangeOf(s, req, AccStatusField) + ChangeOf(s, req, InitialDepositField)
    + ChangeOf(s, req, CurrencyField) + ChangeOf(s, req, BranchIdField)
  }

  /** The three parallel lists the update fills. */
  function Attributes(cs: seq<Change>): (r: seq<string>)
    ensures |r| == |cs|
  {
    if cs == [] then [] else [DisplayName(cs[0].field)] + Attributes(cs[1..])
  }

  function Befores(cs: seq<Change>): (r: seq<FieldValue>)
    ensures |r| == |cs|
  {
    if cs == [] then [] else [cs[0].before] + Befores(cs[1..])
  }

  function Afters(cs: seq<Change>): (r: seq<FieldValue>)
    ensures |r| == |cs|
  {
    if cs == [] then [] else [cs[0].after] + Afters(cs[1..])
  }

  lemma ListsOfOne(c: Change)
    ensures Attributes([c]) == [DisplayName(c.field)] && Befores([c]) == [c.before] && Afters([c]) == [c.after]
  {
    assert [c][1..] == [];
  }

  /** The three lists distribute over concatenation. */
  lemma {:induction false} ListsAppend(cs: seq<Change>, ds: seq<Change>)
    ensures Attributes(cs + ds) == Attributes(cs) + Attributes(ds)
    ensures Befores(cs + ds) == Befores(cs) + Befores(ds)
    ensures Afters(cs + ds) == Afters(cs) + Afters(ds)
  {
    if cs != [] {
      assert (cs + ds)[0] == cs[0];
      assert (cs + ds)[1..] == cs[1..] + ds;
      ListsAppend(cs[1..], ds);
      assert Attributes(cs + ds) == [DisplayName(cs[0].field)] + (Attributes(cs[1..]) + Attributes(ds));
      assert Befores(cs + ds) == [cs[0].before] + (Befores(cs[1..]) + Befores(ds));
      assert Afters(cs + ds) == [cs[0].after] + (Afters(cs[1..]) + Afters(ds));
    } else {
      assert cs + ds == ds;
    }
  }

  /** The lists of an update are the concatenations of the five per-field ones. */
  lemma ListsOfChanges(s: Entity.AccountState, req: UpdateRequest.UpdateAccountRequest)
    requires Complete(s)
    ensures var t, u, d, c, b := ChangeOf(s, req, AccTypeField), ChangeOf(s, req, AccStatusField),
                                 ChangeOf(s, req, InitialDepositField), ChangeOf(s, req, CurrencyField),
                                 ChangeOf(s, req, BranchIdField);
      && Attributes(Changes(s, req)) == Attributes(t) + Attributes(u) + Attributes(d) + Attributes(c) + Attributes(b)
      && Befores(Changes(s, req)) == Befores(t) + Befores(u) + Befores(d) + Befores(c) + Befores(b)
      && Afters(Changes(s, req)) == Afters(t) + Afters(u) + Afters(d) + Afters(c) + Afters(b)
  {
    var t, u, d, c, b := ChangeOf(s, req, AccTypeField), ChangeOf(s, req, AccStatusField),
                         ChangeOf(s, req, InitialDepositField), ChangeOf(s, req, CurrencyField),
                         ChangeOf(s, req, BranchIdField);
    ListsAppend(t, u);
    ListsAppend(t + u, d);
    ListsAppend(t + u + d, c);
    ListsAppend(t + u + d + c, b);
  }

  /** A field check reads and writes its own field only. */
  lemma ApplyFieldOf(s: Entity.AccountState, req: UpdateRequest.UpdateAccountRequest, f: Field, g: Field)
    requires Complete(s)
    ensures Complete(ApplyField(s, req, f))
    ensures FieldOf(ApplyField(s, req, f), g)
         == if f == g && Given(req, f).Some? then Given(req, f).value else FieldOf(s, g)
    ensures ApplyField(s, req, f) == s <==> Given(req, f).None? || Given(req, f).value == FieldOf(s, f)
  {
  }

  /**
   * Each field check compares against the account as the earlier checks left
   * it; since those touched other fields, it sees the stored value of its own.
   */
  lemma StepsSeeStoredValues(s: Entity.AccountState, req: UpdateRequest.UpdateAccountRequest)
    requires Complete(s)
    ensures var s1 := ApplyField(s, req, AccTypeField);
      Complete(s1) && ChangeOf(s1, req, AccStatusField) == ChangeOf(s, req, AccStatusField)
    ensures var s2 := ApplyField(ApplyField(s, req, AccTypeField), req, AccStatusField);
      Complete(s2) && ChangeOf(s2, req, InitialDepositField) == ChangeOf(s, req, InitialDepositField)
    ensures var s3 := ApplyField(ApplyField(ApplyField(s, req, AccTypeField), req, AccStatusField), req, InitialDepositField);
      Complete(s3) && ChangeOf(s3, req, CurrencyField) == ChangeOf(s, req, CurrencyField)
    ensures var s4 := ApplyField(ApplyField(ApplyField(ApplyField(s, req, AccTypeField), req, AccStatusField),
                                            req, InitialDepositField), req, CurrencyField);
      Complete(s4) && ChangeOf(s4, req, BranchIdField) == ChangeOf(s, req, BranchIdField)
  {
    var s1 := ApplyField(s, req, AccTypeField);
    var s2 := ApplyField(s1, req, AccStatusField);
    var s3 := ApplyField(s2, req, InitialDepositField);
    ApplyFieldOf(s, req, AccTypeField, AccStatusField);
    ApplyFieldOf(s, req, AccTypeField, InitialDepositField);
    ApplyFieldOf(s, req, AccTypeField, CurrencyField);
    ApplyFieldOf(s, req, AccTypeField, BranchIdField);
    ApplyFieldOf(s1, req, AccStatusField, InitialDepositField);
    ApplyFieldOf(s1, req, AccStatusField, CurrencyField);
    ApplyFieldOf(s1, req, AccStatusField, BranchIdField);
    ApplyFieldOf(s2, req, InitialDepositField, CurrencyField);
    ApplyFieldOf(s2, req, InitialDepositField, BranchIdField);
    ApplyFieldOf(s3, req, CurrencyField, BranchIdField);
  }

  /** After the update a field holds the request's value when one is given, else its stored value. */
  lemma ApplyTakesGivenValues(s: Entity.AccountState, req: UpdateRequest.UpdateAccountRequest, f: Field)
    requires Complete(s)
    ensures Complete(Apply(s, req))
    ensures FieldOf(Apply(s, req), f) == if Given(req, f).Some? then Given(req, f).value else FieldOf(s, f)
  {
    var s1 := ApplyField(s, req, AccTypeField);
    var s2 := ApplyField(s1, req, AccStatusField);
    var s3 := ApplyField(s2, req, InitialDepositField);
    var s4 := ApplyField(s3, req, CurrencyField);
    ApplyFieldOf(s, req, AccTypeField, f);
    ApplyFieldOf(s1, req, AccStatusField, f);
    ApplyFieldOf(s2, req, InitialDepositField, f);
    ApplyFieldOf(s3, req, CurrencyField, f);
    ApplyFieldOf(s4, req, BranchIdField, f);
  }

  /** One field's piece of the change list names field f exactly when it is f's piece and holds a change. */
  lemma NamedInPieceIff(s: Entity.AccountState, req: UpdateRequest.UpdateAccountRequest, f: Field, g: Field)
    requires Complete(s)
    ensures DisplayName(f) in Attributes(ChangeOf(s, req, g)) <==> f == g && ChangeOf(s, req, g) != []
  {
    if ChangeOf(s, req, g) != [] {
      ListsOfOne(ChangeOf(s, req, g)[0]);
    }
    DisplayNameIsInjective(f, g);
  }

  /** A field's display name is logged exactly when the request gives it a different value. */
  lemma ChangeRecordedIff(s: Entity.AccountState, req: UpdateRequest.UpdateAccountRequest, f: Field)
    requires Complete(s)
    ensures DisplayName(f) in Attributes(Changes(s, req))
        <==> Given(req, f).Some? && Given(req, f).value != FieldOf(s, f)
  {
    ListsOfChanges(s, req);
    NamedInPieceIff(s, req, f, AccTypeField);
    NamedInPieceIff(s, req, f, AccStatusField);
    NamedInPieceIff(s, req, f, InitialDepositField);
    NamedInPieceIff(s, req, f, CurrencyField);
    NamedInPieceIff(s, req, f, BranchIdField);
  }

  /** Recorded changes follow FIELD_ORDER, each field at most once. */
  lemma ChangesFollowFieldOrder(s: Entity.AccountState, req: UpdateRequest.UpdateAccountRequest)
    requires Complete(s)
    ensures forall i, j :: 0 <= i < j < |Changes(s, req)| ==>
      Rank(Changes(s, req)[i].field) < Rank(Changes(s, req)[j].field)
  {
  }

  /** Each recorded change holds the field's value before the update and after it, and they differ. */
  lemma ChangesDescribeApply(s: Entity.AccountState, req: UpdateRequest.UpdateAccountRequest)
    requires Complete(s)
    ensures Complete(Apply(s, req))
    ensures forall c :: c in Changes(s, req) ==>
      && c.before == FieldOf(s, c.field)
      && c.after == FieldOf(Apply(s, req), c.field)
      && c.before != c.after
  {
    forall c | c in Changes(s, req)
      ensures c.before == FieldOf(s, c.field) && c.after == FieldOf(Apply(s, req), c.field) && c.before != c.after
    {
      assert c in ChangeOf(s, req, c.field);
      ApplyTakesGivenValues(s, req, c.field);
    }
    ApplyTakesGivenValues(s, req, AccTypeField);
  }

  /** Nothing is recorded exactly when the update leaves the account as it was. */
  lemma NoChangesIffUnchanged(s: Entity.AccountState, req: UpdateRequest.UpdateAccountRequest)
    requires Complete(s)
    ensures Changes(s, req) == [] <==> Apply(s, req) == s
  {
  }

  /** Repeating an update changes nothing more and records nothing. */
  lemma UpdateIsIdempotent(s: Entity.AccountState, req: UpdateRequest.UpdateAccountRequest)
    requires Complete(s)
    ensures Apply(Apply(s, req), req) == Apply(s, req)
    ensures Complete(Apply(s, req)) && Changes(Apply(s, req), req) == []
  {
  }

  /**
   * The same update sent again is judged against the row the first one stored.
   * When the request's deposit, if any, already has two decimals, that row is
   * the updated account itself, and the repeat records nothing.
   */
  lemma RepeatedUpdateRecordsNothing(s: Entity.AccountState, req: UpdateRequest.UpdateAccountRequest)
    requires Entity.IsRow(s) && Entity.Storable(Apply(s, req))
    requires req.initialDeposit.Some? ==> req.initialDeposit.value.scale == 2
    ensures Entity.Stored(Apply(s, req)) == Apply(s, req)
    ensures Complete(Apply(s, req)) && Changes(Entity.Stored(Apply(s, req)), req) == []
  {
    UpdateIsIdempotent(s, req);
  }

  /**
   * A deposit given with other than two decimals never equals a stored row's
   * deposit, so every time the request is sent it is recorded as a change,
   * the repeat as well as the first.
   */
  lemma RescaledDepositIsAlwaysRecorded(s: Entity.AccountState, req: UpdateRequest.UpdateAccountRequest)
    requires Entity.IsRow(s) && Entity.Storable(Apply(s, req))
    requires req.initialDeposit.Some? && req.initialDeposit.value.scale != 2
    ensures DisplayName(InitialDepositField) in Attributes(Changes(s, req))
    ensures Entity.IsRow(Entity.Stored(Apply(s, req)))
    ensures DisplayName(InitialDepositField) in Attributes(Changes(Entity.Stored(Apply(s, req)), req))
  {
    Entity.StoredIsRow(Apply(s, req));
    ChangeRecordedIff(s, req, InitialDepositField);
    ChangeRecordedIff(Entity.Stored(Apply(s, req)), req, InitialDepositField);
  }

  /**
   * A valid update whose currency, if given, is not blank keeps a valid account
   * valid, so saving it cannot be refused.
   */
  lemma UpdateKeepsEntityValid(s: Entity.AccountState, req: UpdateRequest.UpdateAccountRequest)
    requires Entity.Valid(s) && UpdateRequest.Violations(req) == []
    requires req.currency.Some? ==> !IsBlank(req.currency.value)
    ensures Entity.Valid(Apply(s, req))
  {
  }

  /** An update that gives only the type leaves every other field as stored, and the entity valid. */
  lemma TypeOnlyUpdate(s: Entity.AccountState, t: AccountType)
    requires Entity.Valid(s)
    ensures var req := UpdateRequest.Empty.(accType := Some(t));
      && UpdateRequest.Violations(req) == []
      && Apply(s, req) == s.(accType := Some(t))
      && Entity.Valid(Apply(s, req))
  {
    UpdateRequest.EmptyRequestIsValid();
  }

  /**
   * Three spaces pass the update request's rules, yet the account they produce
   * breaks the entity's @NotBlank rule, so saving it is refused.
   */
  lemma BlankCurrencyUpdateIsRefusedAtSave(s: Entity.AccountState)
    requires Entity.Valid(s)
    ensures var req := UpdateRequest.Empty.(currency := Some("   "));
      && UpdateRequest.Violations(req) == []
      && Entity.Violations(Apply(s, req)) == [Violation("currency", "Currency is required")]
      && !Entity.Accepted(Apply(s, req), s)
  {
    UpdateRequest.BlankCurrencyPasses();
    var req := UpdateRequest.Empty.(currency := Some("   "));
    var t := s.(currency := Some("   "));
    assert Apply(s, req) == t;
    assert Utf16Length("   ") == 3;
    assert NotBlank("currency", t.currency, "Currency is required") == [Violation("currency", "Currency is required")];
    assert IsBlank("   ") && s.currency != t.currency;
    assert !Entity.Clean(t, s) && !Entity.Valid(t);
  }

  // ---------------------------------------------------------------------------
  // The service
  // ---------------------------------------------------------------------------

  /** A call to the external logging service; the subject is the account's client id. */
  datatype AuditEvent =
    | CreateLog(userId: string, subject: Uuid)
    | DeleteLog(userId: string, subject: Uuid)
    | ReadLog(userId: string, subject: Uuid)
    | UpdateLog(userId: string, subject: Uuid, attributes: seq<string>,
                before: seq<FieldValue>, after: seq<FieldValue>)

  /**
   * The NullPointerException of `request.getClientId().toString()` when the
   * create request has no client id; the text is the JVM's helpful message.
   */
  const NULL_CLIENT_ID := "Cannot invoke \"java.util.UUID.toString()\" because the return value of "
                          + "\"com.bank.crm.account_service.dto.CreateAccountRequest.getClientId()\" is null"

  /** The message of the AccountNotFoundException thrown by delete and update. */
  function NotFoundMessage(id: Uuid): (m: string)
    ensures |m| == 27 + 36
    ensures m[..27] == "Account not found with ID: " && m[27..] == UuidString(id)
  {
    "Account not found with ID: " + UuidString(id)
  }

  /** The message names the id: different ids give different messages. */
  lemma NotFoundMessageNamesId(a: Uuid, b: Uuid)
    ensures NotFoundMessage(a) == NotFoundMessage(b) <==> a == b
  {
    if NotFoundMessage(a) == NotFoundMessage(b) {
      assert UuidString(a) == NotFoundMessage(a)[27..];
      UuidStringInjective(a, b);
    }
  }

  /** The account type check of updateAccount: set and record it when the request gives a different value. */
  method UpdateAccType(account: Entity.Account, request: UpdateRequest.UpdateAccountRequest,
                   attributeNames: seq<string>, beforeValues: seq<FieldValue>, afterValues: seq<FieldValue>)
    returns (attributeNames': seq<string>, beforeValues': seq<FieldValue>, afterValues': seq<FieldValue>)
    requires Complete(account.State())
    modifies account
    ensures account.State() == ApplyField(old(account.State()), request, AccTypeField)
    ensures attributeNames' == attributeNames + Attributes(ChangeOf(old(account.State()), request, AccTypeField))
    ensures beforeValues' == beforeValues + Befores(ChangeOf(old(account.State()), request, AccTypeField))
    ensures afterValues' == afterValues + Afters(ChangeOf(old(account.State()), request, AccTypeField))
  {
    attributeNames', beforeValues', afterValues' := attributeNames, beforeValues, afterValues;
    if request.accType.Some? && request.accType != account.accType {
      var beforeValue := TypeValue(account.accType.value);
      var afterValue := TypeValue(request.accType.value);
      ListsOfOne(Change(AccTypeField, beforeValue, afterValue));
      account.SetAccType(request.accType.value);
      attributeNames' := attributeNames' + [DisplayName(AccTypeField)];
      beforeValues' := beforeValues' + [beforeValue];
      afterValues' := afterValues' + [afterValue];
    }
  }

  /** The account status check of updateAccount: set and record it when the request gives a different value. */
  method UpdateAccStatus(account: Entity.Account, request: UpdateRequest.UpdateAccountRequest,
                   attributeNames: seq<string>, beforeValues: seq<FieldValue>, afterValues: seq<FieldValue>)
    returns (attributeNames': seq<string>, beforeValues': seq<FieldValue>, afterValues': seq<FieldValue>)
    requires Complete(account.State())
    modifies account
    ensures account.State() == ApplyField(old(account.State()), request, AccStatusField)
    ensures attributeNames' == attributeNames + Attributes(ChangeOf(old(account.State()), request, AccStatusField))
    ensures beforeValues' == beforeValues + Befores(ChangeOf(old(account.State()), request, AccStatusField))
    ensures afterValues' == afterValues + Afters(ChangeOf(old(account.State()), request, AccStatusField))
  {
    attributeNames', beforeValues', afterValues' := attributeNames, beforeValues, afterValues;
    if request.accStatus.Some? && request.accStatus != account.accStatus {
      var beforeValue := StatusValue(account.accStatus.value);
      var afterValue := StatusValue(request.accStatus.value);
      ListsOfOne(Change(AccStatusField, beforeValue, afterValue));
      account.SetAccStatus(request.accStatus.value);
      attributeNames' := attributeNames' + [DisplayName(AccStatusField)];
      beforeValues' := beforeValues' + [beforeValue];
      afterValues' := afterValues' + [afterValue];
    }
  }

  /** The initial deposit check of updateAccount: set and record it when the request gives a different value. */
  method UpdateInitialDeposit(account: Entity.Account, request: UpdateRequest.UpdateAccountRequest,
                   attributeNames: seq<string>, beforeValues: seq<FieldValue>, afterValues: seq<FieldValue>)
    returns (attributeNames': seq<string>, beforeValues': seq<FieldValue>, afterValues': seq<FieldValue>)
    requires Complete(account.State())
    modifies account
    ensures account.State() == ApplyField(old(account.State()), request, InitialDepositField)
    ensures attributeNames' == attributeNames + Attributes(ChangeOf(old(account.State()), request, InitialDepositField))
    ensures beforeValues' == beforeValues + Befores(ChangeOf(old(account.State()), request, InitialDepositField))
    ensures afterValues' == afterValues + Afters(ChangeOf(old(account.State()), request, InitialDepositField))
  {
    attributeNames', beforeValues', afterValues' := attributeNames, beforeValues, afterValues;
    if request.initialDeposit.Some? && request.initialDeposit != account.initialDeposit {
      var beforeValue := DepositValue(account.initialDeposit.value);
      var afterValue := DepositValue(request.initialDeposit.value);
      ListsOfOne(Change(InitialDepositField, beforeValue, afterValue));
      account.SetInitialDeposit(request.initialDeposit.value);
      attributeNames' := attributeNames' + [DisplayName(InitialDepositField)];
      beforeValues' := beforeValues' + [beforeValue];
      afterValues' := afterValues' + [afterValue];
    }
  }

  /** The currency check of updateAccount: set and record it when the request gives a different value. */
  method UpdateCurrency(account: Entity.Account, request: UpdateRequest.UpdateAccountRequest,
                   attributeNames: seq<string>, beforeValues: seq<FieldValue>, afterValues: seq<FieldValue>)
    returns (attributeNames': seq<string>, beforeValues': seq<FieldValue>, afterValues': seq<FieldValue>)
    requires Complete(account.State())
    modifies account
    ensures account.State() == ApplyField(old(account.State()), request, CurrencyField)
    ensures attributeNames' == attributeNames + Attributes(ChangeOf(old(account.State()), request, CurrencyField))
    ensures beforeValues' == beforeValues + Befores(ChangeOf(old(account.State()), request, CurrencyField))
    ensures afterValues' == afterValues + Afters(ChangeOf(old(account.State()), request, CurrencyField))
  {
    attributeNames', beforeValues', afterValues' := attributeNames, beforeValues, afterValues;
    if request.currency.Some? && request.currency != account.currency {
      var beforeValue := CurrencyValue(account.currency.value);
      var afterValue := CurrencyValue(request.currency.value);
      ListsOfOne(Change(CurrencyField, beforeValue, afterValue));
      account.SetCurrency(request.currency.value);
      attributeNames' := attributeNames' + [DisplayName(CurrencyField)];
      beforeValues' := beforeValues' + [beforeValue];
      afterValues' := afterValues' + [afterValue];
    }
  }

  /** The branch id check of updateAccount: set and record it when the request gives a different value. */
  method UpdateBranchId(account: Entity.Account, request: UpdateRequest.UpdateAccountRequest,
                   attributeNames: seq<string>, beforeValues: seq<FieldValue>, afterValues: seq<FieldValue>)
    returns (attributeNames': seq<string>, beforeValues': seq<FieldValue>, afterValues': seq<FieldValue>)
    requires Complete(account.State())
    modifies account
    ensures account.State() == ApplyField(old(account.State()), request, BranchIdField)
    ensures attributeNames' == attributeNames + Attributes(ChangeOf(old(account.State()), request, BranchIdField))
    ensures beforeValues' == beforeValues + Befores(ChangeOf(old(account.State()), request, BranchIdField))
    ensures afterValues' == afterValues + Afters(ChangeOf(old(account.State()), request, BranchIdField))
  {
    attributeNames', beforeValues', afterValues' := attributeNames, beforeValues, afterValues;
    if request.branchId.Some? && request.branchId != account.branchId {
      var beforeValue := BranchValue(account.branchId.value);
      var afterValue := BranchValue(request.branchId.value);
      ListsOfOne(Change(BranchIdField, beforeValue, afterValue));
      account.SetBranchId(request.branchId.value);
      attributeNames' := attributeNames' + [DisplayName(BranchIdField)];
      beforeValues' := beforeValues' + [beforeValue];
      afterValues' := afterValues' + [afterValue];
    }
  }

  /**
   * The five field checks of updateAccount, in order: each field the request
   * gives with a different value is set on the account and recorded in three
   * aligned lists.
   */
  method ApplyUpdate(account: Entity.Account, request: UpdateRequest.UpdateAccountRequest)
    returns (attributeNames: seq<string>, beforeValues: seq<FieldValue>, afterValues: seq<FieldValue>)
    requires Complete(account.State())
    modifies account
    ensures account.State() == Apply(old(account.State()), request)
    ensures attributeNames == Attributes(Changes(old(account.State()), request))
    ensures beforeValues == Befores(Changes(old(account.State()), request))
    ensures afterValues == Afters(Changes(old(account.State()), request))
  {
    ghost var stored := account.State();
    StepsSeeStoredValues(stored, request);
    ListsOfChanges(stored, request);
    ghost var first := ChangeOf(stored, request, AccTypeField);
    attributeNames, beforeValues, afterValues := UpdateAccType(account, request, [], [], []);
    assert [] + Attributes(first) == Attributes(first) && [] + Befores(first) == Befores(first)
        && [] + Afters(first) == Afters(first);
    attributeNames, beforeValues, afterValues := UpdateAccStatus(account, request, attributeNames, beforeValues, afterValues);
    attributeNames, beforeValues, afterValues := UpdateInitialDeposit(account, request, attributeNames, beforeValues, afterValues);
    attributeNames, beforeValues, afterValues := UpdateCurrency(account, request, attributeNames, beforeValues, afterValues);
    attributeNames, beforeValues, afterValues := UpdateBranchId(account, request, attributeNames, beforeValues, afterValues);
  }

  class AccountService {
    const repository: Repository.AccountRepository
    ghost var audit: seq<AuditEvent>

    ghost predicate Valid()
      reads this, repository
    {
      repository.Valid()
    }

    constructor (repository: Repository.AccountRepository)
      requires repository.Valid()
      ensures Valid() && this.repository == repository && audit == []
    {
      this.repository := repository;
      audit := [];
    }

    /**
     * createAccount. The id is generated in memory, so the insert, and with it
     * the entity's validation and the column's check, waits for the commit that
     * ends this transactional method: the create event is sent first, and a
     * refused account is still announced. A request without a client id fails
     * earlier, when the event's subject is taken from it.
     */
    method CreateAccount(request: CreateRequest.CreateAccountRequest, userId: string, now: Timestamp, generatedId: Uuid)
      returns (r: Result<AccountResponse, Exception>)
      requires Valid()
      requires generatedId !in repository.rows
      modifies this, repository
      ensures Valid()
      ensures r.Success? <==> CreateRequest.Valid(request) && FitsColumn(request.initialDeposit.value)
      ensures r.Success? ==>
        var saved := Entity.FromCreateRequest(request, now).(id := Some(generatedId));
        && repository.rows == old(repository.rows)[generatedId := Entity.Stored(saved)]
        && repository.order == old(repository.order) + [generatedId]
        && |repository.rows| == |old(repository.rows)| + 1
        && r.value == ConvertToResponse(saved)
      ensures r.Failure? ==> repository.rows == old(repository.rows) && repository.order == old(repository.order)
      ensures request.clientId.None? ==> r == Failure(Runtime(NULL_CLIENT_ID)) && audit == old(audit)
      ensures request.clientId.Some? ==> audit == old(audit) + [CreateLog(userId, request.clientId.value)]
      ensures request.clientId.Some? && !CreateRequest.Valid(request) ==>
        r == Failure(ConstraintViolation(CreateRequest.Violations(request)))
      ensures CreateRequest.Valid(request) && !FitsColumn(request.initialDeposit.value) ==>
        r == Failure(Runtime(Repository.NUMERIC_FIELD_OVERFLOW))
    {
      Entity.CreateRulesAreEntityRules(request, now);
      var account := new Entity.Account(request.clientId, request.accType, request.accStatus, Some(now),
                                        request.initialDeposit, request.currency, request.branchId);
      if request.clientId.None? {
        return Failure(Runtime(NULL_CLIENT_ID));
      }
      audit := audit + [CreateLog(userId, request.clientId.value)];
      var saved := repository.Save(account, generatedId);
      if saved.Failure? {
        return Failure(saved.error);
      }
      r := Success(ConvertToResponse(saved.value));
    }

    /** deleteAccount: not-found when absent (nothing touched), else removes exactly that account. */
    method DeleteAccount(accountId: Uuid, userId: string) returns (r: Result<(), Exception>)
      requires Valid()
      modifies this, repository
      ensures Valid()
      ensures accountId !in old(repository.rows) ==>
        && r == Failure(AccountNotFound(NotFoundMessage(accountId)))
        && repository.rows == old(repository.rows) && repository.order == old(repository.order)
        && audit == old(audit)
      ensures accountId in old(repository.rows) ==>
        && r == Success(())
        && repository.rows == old(repository.rows) - {accountId}
        && repository.order == Repository.Without(old(repository.order), accountId)
        && !repository.ExistsById(accountId)
        && audit == old(audit) + [DeleteLog(userId, old(repository.rows)[accountId].clientId.value)]
    {
      var found := repository.FindById(accountId);
      if found.None? {
        return Failure(AccountNotFound(NotFoundMessage(accountId)));
      }
      var clientId := found.value.clientId.value;
      repository.DeleteById(accountId);
      audit := audit + [DeleteLog(userId, clientId)];
      r := Success(());
    }

    /** getAccountsByClientId: one response per account of the client; one read event. */
    method GetAccountsByClientId(clientId: Uuid, userId: string) returns (rs: seq<AccountResponse>)
      requires Valid()
      modifies this
      ensures Valid()
      ensures rs == ConvertAll(repository.FindByClientId(clientId))
      ensures forall x :: x in rs ==> x.clientId == Some(clientId)
      ensures audit == old(audit) + [ReadLog(userId, clientId)]
    {
      var accounts := repository.FindByClientId(clientId);
      audit := audit + [ReadLog(userId, clientId)];
      rs := ConvertAll(accounts);
    }

    /** getAllAccounts: one response per stored account; no event. */
    method GetAllAccounts() returns (rs: seq<AccountResponse>)
      requires Valid()
      ensures rs == ConvertAll(repository.FindAll())
      ensures |rs| == |repository.order|
      ensures forall x :: x in rs <==> exists a :: a in repository.rows.Values && x == ConvertToResponse(a)
    {
      var accounts := repository.FindAll();
      rs := ConvertAll(accounts);
      ConvertAllMembers(accounts);
      assert forall a :: a in accounts <==> a in repository.rows.Values;
    }

    /** getAccountById: empty exactly when absent; a read event only when found. */
    method GetAccountById(accountId: Uuid, userId: string) returns (r: Option<AccountResponse>)
      requires Valid()
      modifies this
      ensures Valid()
      ensures r.None? <==> accountId !in repository.rows
      ensures r.Some? ==>
        && r.value == ConvertToResponse(repository.rows[accountId])
        && r.value.id == Some(accountId)
        && audit == old(audit) + [ReadLog(userId, repository.rows[accountId].clientId.value)]
      ensures r.None? ==> audit == old(audit)
    {
      var found := repository.FindById(accountId);
      if found.Some? {
        audit := audit + [ReadLog(userId, found.value.clientId.value)];
        return Some(ConvertToResponse(found.value));
      }
      return None;
    }

    /**
     * updateAccount: not-found when absent (nothing saved, no event). Otherwise
     * applies the request field by field, recording each real change in three
     * aligned lists, emits one update event when any change was recorded, and
     * saves even when nothing changed. A save that changes no column writes
     * and checks nothing. Otherwise it is refused, and the table left as it
     * was, when the result breaks the entity's rules or the deposit overflows
     * its column, and else the row keeps the deposit rounded to cents. The
     * response shows the entity as the update left it.
     */
    method UpdateAccount(accountId: Uuid, request: UpdateRequest.UpdateAccountRequest, userId: string)
      returns (r: Result<AccountResponse, Exception>)
      requires Valid()
      modifies this, repository
      ensures Valid()
      ensures repository.order == old(repository.order)
      ensures accountId !in old(repository.rows) ==>
        && r == Failure(AccountNotFound(NotFoundMessage(accountId)))
        && repository.rows == old(repository.rows)
        && audit == old(audit)
      ensures accountId in old(repository.rows) ==>
        var stored := old(repository.rows)[accountId];
        var updated := Apply(stored, request);
        var cs := Changes(stored, request);
        && audit == old(audit) + (if cs == [] then [] else
             [UpdateLog(userId, stored.clientId.value, Attributes(cs), Befores(cs), Afters(cs))])
        && (Entity.Accepted(updated, stored) ==>
              && r == Success(ConvertToResponse(updated))
              && repository.rows == old(repository.rows)[accountId := Entity.Stored(updated)])
        && (Entity.Clean(updated, stored) ==> repository.rows == old(repository.rows))
        && (!Entity.Clean(updated, stored) && !Entity.Valid(updated) ==>
              && r == Failure(ConstraintViolation(Entity.Violations(updated)))
              && repository.rows == old(repository.rows))
        && (!Entity.Clean(updated, stored) && Entity.Valid(updated) && !Entity.Storable(updated) ==>
              && r == Failure(Runtime(Repository.NUMERIC_FIELD_OVERFLOW))
              && repository.rows == old(repository.rows))
    {
      var found := repository.FindById(accountId);
      if found.None? {
        return Failure(AccountNotFound(NotFoundMessage(accountId)));
      }
      ghost var stored := found.value;
      var account := new Entity.Account.Load(found.value);
      var clientId := account.clientId.value;

      var attributeNames, beforeValues, afterValues := ApplyUpdate(account, request);
      assert attributeNames == [] <==> Changes(stored, request) == [];
      ghost var updated := Apply(stored, request);
      assert account.State() == updated && updated.id == Some(accountId);
      assert updated.(id := Some(accountId)) == updated;

      if attributeNames != [] {
        audit := audit + [UpdateLog(userId, clientId, attributeNames, beforeValues, afterValues)];
      }

      r := SaveUpdate(account, accountId, stored);
    }

    /** The save that ends an update, of the entity loaded from the stored row and then changed. */
    method SaveUpdate(account: Entity.Account, accountId: Uuid, ghost stored: Entity.AccountState)
      returns (r: Result<AccountResponse, Exception>)
      requires Valid() && accountId in repository.rows && stored == repository.rows[accountId]
      requires account.State().id == Some(accountId)
      modifies repository, account
      ensures Valid() && repository.order == old(repository.order)
      ensures var updated := old(account.State());
        && (Entity.Accepted(updated, stored) ==>
              && r == Success(ConvertToResponse(updated))
              && repository.rows == old(repository.rows)[accountId := Entity.Stored(updated)])
        && (Entity.Clean(updated, stored) ==> repository.rows == old(repository.rows))
        && (!Entity.Clean(updated, stored) && !Entity.Valid(updated) ==>
              && r == Failure(ConstraintViolation(Entity.Violations(updated)))
              && repository.rows == old(repository.rows))
        && (!Entity.Clean(updated, stored) && Entity.Valid(updated) && !Entity.Storable(updated) ==>
              && r == Failure(Runtime(Repository.NUMERIC_FIELD_OVERFLOW))
              && repository.rows == old(repository.rows))
    {
      ghost var updated := account.State();
      assert repository.NothingToFlush(updated) <==> Entity.Clean(updated, stored);
      if Entity.Clean(updated, stored) {
        Entity.CleanIsStoredAsRow(updated, stored);
      }
      var saved := repository.Save(account, accountId);
      if saved.Failure? {
        return Failure(saved.error);
      }
      r := Success(ConvertToResponse(saved.value));
    }
  }
}
