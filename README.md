# account-service in Dafny

A model of the account-service, a Spring Boot REST service that keeps the bank
accounts of a CRM. It creates, lists, looks up, updates and deletes accounts
under `/api/accounts`, and validates request bodies with Bean Validation. It
turns every failure into a JSON error reply through one global exception
handler. It sends an audit event to a logging service in these cases:

- a create with a client id. The event goes out before the transaction
  commits, so a create that the commit then refuses is announced too;
- a delete of an existing account;
- a lookup by client;
- a lookup by id that found the account;
- an update that changed at least one field.

Listing all accounts sends nothing.

The model follows the program's layers, one module each:

- `Domain`, `Wrappers`: values the rest builds on. `Domain` holds the account
  enums, BigDecimal as unscaled value and scale, the Java notion of a blank
  string, the UTF-16 length and the printed form of a UUID.
- `Constraints`, `CreateRequest`, `UpdateRequest`: the Bean Validation rules.
  Each annotation is a function returning its violations. Each request body's
  rules give the list of its field errors.
- `Entity`: the JPA entity `Account`. It is a class with nullable fields and the
  setters the service calls. `AccountState` is its value, and the entity's own
  validation rules apply to that value.
- `Repository`: the JPA repository, a class over a table of rows keyed by id
  with the insertion order, which is the order the model lists rows in.
  `Save` stands for the save together with the flush that writes it. An
  entity loaded from its row and left with every column as it was is not
  written and not checked. Otherwise `Save` refuses an entity that breaks the
  entity's validation with a constraint violation. It refuses a deposit too wide for
  the `numeric(10, 2)` column with the database's overflow error. Otherwise it
  stores the deposit rounded to two decimals, as the column does.
- `Service`: `AccountService` as a class over the repository. Its audit sink is
  a ghost list of events. The field-by-field update is an imperative method,
  specified by the function `Apply` and the change list `Changes`.
- `Exceptions`, `Dto`, `ExceptionHandler`: the exception kinds, the response
  bodies and `GlobalExceptionHandler`. The handler maps each kind to a status,
  a label and a message, and builds the validation message from a
  field-to-message map.
- `Controller`, `Routes`: `AccountController`.
  - `Controller` holds what each route does with the service's outcome:
    return, rethrow or wrap. It also holds how Spring binds the path variable,
    the body and the required `userId` parameter.
  - `Routes` is the controller object. Each route method binds its arguments,
    calls the service and answers through the handler.
- `Scenarios`: request sequences from the integration tests, replayed against
  a fresh controller.

Four points where the code differs from what its own tests and data types
suggest. The model follows the code in each:

- A blank update currency. `CreateAccountRequest` guards the currency with
  `@NotBlank` and `@Size`, but `UpdateAccountRequest` carries only `@Size`.
  So `"   "` passes the update body's validation, and the entity's own
  `@NotBlank` refuses the save. The service throws, the controller wraps the
  failure, and the client gets a 500 "Service Error"
  (`Scenarios.BlankCurrencyUpdate`).
- The `userId` parameter. Every route but the list-all route declares it as
  a plain `@RequestParam`, which Spring treats as required. A request without
  it fails before the route runs, with a checked missing-parameter exception.
  The generic handler answers that with 500 "Internal Server Error"
  (`Controller.MissingUserIdIsServerError`). The integration tests in
  `AccountServiceIT.java` call the routes without `userId`; the scenarios here
  send it.
- The seven-argument constructor. The service builds the entity with seven
  arguments, but `Account.java` only declares the Lombok no-argument and
  all-argument constructors. The model gives the service's constructor call
  the meaning its arguments have: every field but the id
  (`Entity.Account.constructor`).
- The deposit column. `initial_deposit` is a `numeric(10, 2)` column
  (`Account.java:49`), and no request rule mirrors it. The database rounds
  the deposit to two decimals, half away from zero.
  - A deposit of 0.001 passes `@DecimalMin` but is stored as 0.00
    (`Entity.SubCentDepositIsLost`). An update that then changes no column
    is neither written nor checked, so it still answers 200 with 0.00
    (`Scenarios.SubCentDepositThenEmptyUpdate`).
  - A deposit of 10^8 or more passes every rule but fails the write, and the
    client gets a 500 "Service Error" (`Scenarios.OversizedDepositCreate`).
  - The update's change test uses `equals`, which tells 1000 from the stored
    1000.00. So an update of the deposit to 1000, sent again, is announced
    again each time (`Scenarios.RepeatedDepositUpdate`).

## Model

| member | source | states |
|---|---|---|
| Domain.PositivityIsNumeric | src/main/java/com/bank/crm/account_service/dto/CreateAccountRequest.java:21 | `@DecimalMin("0.0", inclusive = false)` compares by numeric value: two decimals equal under compareTo are both positive or both not |
| Domain.ScaleDistinguishesEqualValues | src/main/java/com/bank/crm/account_service/service/AccountService.java:198 | the update's change test uses BigDecimal.equals, which tells 2.0 from 2.00 although their values are equal |
| Domain.BlankIffAllControlOrSpace | src/main/java/com/bank/crm/account_service/model/Account.java:55 | `@NotBlank` (trim, then empty) rejects exactly the strings all of whose characters are at most U+0020 |
| Domain.Utf16Length | src/main/java/com/bank/crm/account_service/dto/CreateAccountRequest.java:25 | the length `@Size` measures counts UTF-16 code units: between one and two per character, and exactly one per character when every character is in the Basic Multilingual Plane |
| Domain.Utf16LengthAppend | src/main/java/com/bank/crm/account_service/dto/CreateAccountRequest.java:25 | the UTF-16 length of a concatenation is the sum of the lengths |
| Domain.UuidString | src/main/java/com/bank/crm/account_service/service/AccountService.java:79 | the id as printed in the not-found message: 36 characters with dashes at positions 8, 13, 18 and 23 |
| Domain.UuidStringInjective | src/main/java/com/bank/crm/account_service/service/AccountService.java:79 | the printed id determines the id: two ids with the same text are equal |
| Domain.RoundToCents | src/main/java/com/bank/crm/account_service/model/Account.java:49 | the value a `scale = 2` column keeps: two decimals; the same value when the deposit had at most two; otherwise within half a cent, a tie rounded away from zero, and the sign kept |
| Domain.RoundingKeepsCents | src/main/java/com/bank/crm/account_service/model/Account.java:49 | a value equal to one with two decimals is kept as exactly that one, whatever its own scale |
| Domain.ColumnExamples | src/main/java/com/bank/crm/account_service/model/Account.java:49 | 1000 is kept as 1000.00, which `equals` tells apart; 0.001 is kept as 0.00; 10^8 does not fit `precision = 10` while 99999999.99 does |
| Constraints.NotNull | src/main/java/com/bank/crm/account_service/dto/CreateAccountRequest.java:11-12 | `@NotNull` reports nothing exactly when the value is present, else exactly one violation with the field and message |
| Constraints.DecimalMinExclusiveZero | src/main/java/com/bank/crm/account_service/dto/CreateAccountRequest.java:21 | `@DecimalMin("0.0", inclusive = false)` passes null and passes a value exactly when it is greater than zero |
| Constraints.NotBlank | src/main/java/com/bank/crm/account_service/dto/CreateAccountRequest.java:24 | `@NotBlank` fails for null and for blank text, and only then |
| Constraints.Size | src/main/java/com/bank/crm/account_service/dto/CreateAccountRequest.java:25 | `@Size(min, max)` passes null and passes a string exactly when its UTF-16 length is within the bounds |
| Constraints.Positive | src/main/java/com/bank/crm/account_service/dto/CreateAccountRequest.java:29 | `@Positive` passes null and passes a value exactly when it is greater than zero |
| CreateRequest.Violations | src/main/java/com/bank/crm/account_service/dto/CreateAccountRequest.java:11-30 | a create body raises no violation exactly when every field is present, the deposit is positive, the currency is non-blank and 3 long, and the branch is positive |
| CreateRequest.RequiredFieldMessages | src/main/java/com/bank/crm/account_service/dto/CreateAccountRequest.java:11-18 | "Client ID is required", "Account type is required" and "Account status is required" are each reported exactly when that field is null |
| CreateRequest.DepositMessages | src/main/java/com/bank/crm/account_service/dto/CreateAccountRequest.java:20-22 | the deposit's required message appears exactly when it is null, its positivity message exactly when it is present and not positive |
| CreateRequest.CurrencyRequiredMessage | src/main/java/com/bank/crm/account_service/dto/CreateAccountRequest.java:24 | "Currency is required" appears exactly when the currency is null or blank |
| CreateRequest.CurrencySizeMessage | src/main/java/com/bank/crm/account_service/dto/CreateAccountRequest.java:25 | "Currency must be 3 characters" appears exactly when a present currency is not 3 UTF-16 units long |
| CreateRequest.BranchMessages | src/main/java/com/bank/crm/account_service/dto/CreateAccountRequest.java:28-30 | the branch's required message appears exactly when it is null, its positivity message exactly when it is present and not positive |
| CreateRequest.ReferenceIsValid | src/test/java/com/bank/crm/account_service/integration/TestDataFactory.java:15-24 | the tests' standard request (SAVINGS, ACTIVE, 1000.00, USD, branch 1) raises no violation |
| CreateRequest.NullClientIdRejected | src/test/java/com/bank/crm/account_service/integration/AccountServiceIT.java:69-79 | without a client id the standard request raises exactly the one client id violation |
| CreateRequest.NonPositiveDepositRejected | src/test/java/com/bank/crm/account_service/integration/AccountServiceIT.java:95-105 | deposits 0 and -100.00 each raise exactly the positivity violation |
| CreateRequest.TwoLetterCurrencyRejected | src/test/java/com/bank/crm/account_service/integration/AccountServiceIT.java:108-118 | currency "US" raises exactly the size violation |
| CreateRequest.EmptyCurrencyBreaksBothRules | src/main/java/com/bank/crm/account_service/dto/CreateAccountRequest.java:24-25 | an empty currency breaks both `@NotBlank` and `@Size`, giving two violations on one field |
| CreateRequest.NegativeBranchRejected | src/test/java/com/bank/crm/account_service/integration/AccountServiceIT.java:121-131 | branch -1 raises exactly the branch positivity violation |
| UpdateRequest.Violations | src/main/java/com/bank/crm/account_service/dto/UpdateAccountRequest.java:10-21 | an update body is accepted exactly when each present field passes its rule; each message appears exactly when its rule is broken; only deposit, currency and branch can fail |
| UpdateRequest.EmptyRequestIsValid | src/main/java/com/bank/crm/account_service/dto/UpdateAccountRequest.java:10-21 | a body with every field null raises no violation |
| UpdateRequest.BlankCurrencyPasses | src/main/java/com/bank/crm/account_service/dto/UpdateAccountRequest.java:17-18 | a blank three-space currency passes the update body's rules |
| UpdateRequest.NegativeDepositRejected | src/test/java/com/bank/crm/account_service/integration/AccountServiceIT.java:250-262 | deposits -50.00 and -500.00 each raise exactly the positivity violation |
| UpdateRequest.CreateValidIsUpdateValid | src/main/java/com/bank/crm/account_service/dto/UpdateAccountRequest.java:14-21 | the update rules are no stricter than the create rules: a valid create body's fields pass them |
| Entity.Violations | src/main/java/com/bank/crm/account_service/model/Account.java:29-62 | an account row raises no violation exactly when every column (opening date included) is set and the deposit, currency and branch rules hold |
| Entity.FromCreateRequest | src/main/java/com/bank/crm/account_service/service/AccountService.java:41-49 | the new entity copies the request's six fields, carries `now` as opening date and has no id yet |
| Entity.CreateRulesAreEntityRules | src/main/java/com/bank/crm/account_service/model/Account.java:29-62 | an entity built from a create body raises exactly the body's violations, with the same fields and messages, and is valid exactly when the body is |
| Entity.Account.constructor | src/main/java/com/bank/crm/account_service/service/AccountService.java:41-49 | the seven-argument construction leaves the id unset and sets the other seven fields |
| Entity.Stored | src/main/java/com/bank/crm/account_service/model/Account.java:49 | the row kept for an entity differs from it only in the deposit, which is present exactly when it was and then rounded to two decimals; a deposit already at two decimals is kept as it is |
| Entity.StoringTwiceChangesNothing | src/main/java/com/bank/crm/account_service/model/Account.java:49 | a row read back and saved again is stored as it is |
| Entity.StoredIsRow | src/main/java/com/bank/crm/account_service/model/Account.java:49 | an entity the rules and the column accept is stored with a stored row's shape |
| Entity.SubCentDepositIsLost | src/main/java/com/bank/crm/account_service/model/Account.java:49-51 | a deposit of 0.001 passes the entity's rules and the column, but the row holds 0.00 and breaks `@DecimalMin` |
| Entity.CleanIsStoredAsRow | src/main/java/com/bank/crm/account_service/model/Account.java:49 | an entity whose columns all equal a stored row's, the deposit by value, would be stored as that row itself |
| Entity.Account.Load | src/main/java/com/bank/crm/account_service/service/AccountService.java:76 | the entity handed out by findById holds the stored row |
| Entity.Account.SetId | src/main/java/com/bank/crm/account_service/model/Account.java:24-27 | the generated id is set, nothing else changes |
| Entity.Account.SetAccType | src/main/java/com/bank/crm/account_service/model/Account.java:18 | the Lombok setter changes the type and nothing else |
| Entity.Account.SetAccStatus | src/main/java/com/bank/crm/account_service/model/Account.java:18 | the Lombok setter changes the status and nothing else |
| Entity.Account.SetInitialDeposit | src/main/java/com/bank/crm/account_service/model/Account.java:18 | the Lombok setter changes the deposit and nothing else |
| Entity.Account.SetCurrency | src/main/java/com/bank/crm/account_service/model/Account.java:18 | the Lombok setter changes the currency and nothing else |
| Entity.Account.SetBranchId | src/main/java/com/bank/crm/account_service/model/Account.java:18 | the Lombok setter changes the branch and nothing else |
| Repository.Without | src/main/java/com/bank/crm/account_service/repository/AccountRepository.java:9 | the insertion order after a delete holds exactly the other ids and stays duplicate-free |
| Repository.OwnedBy | src/main/java/com/bank/crm/account_service/repository/AccountRepository.java:15 | keeps exactly the accounts of the given client, each as many times as it was given, and drops every other |
| Repository.AccountRepository.constructor | src/main/java/com/bank/crm/account_service/repository/AccountRepository.java:9 | a new table is empty |
| Repository.AccountRepository.FindById | src/main/java/com/bank/crm/account_service/repository/AccountRepository.java:9 | finds a row exactly when the id is stored; the row carries that id and has a stored row's shape: every column set, the text and branch rules kept, the deposit non-negative with two decimals and within the column |
| Repository.AccountRepository.FindAll | src/main/java/com/bank/crm/account_service/repository/AccountRepository.java:9 | one row per stored id: every stored row appears, and each exactly once |
| Repository.AccountRepository.FindByClientId | src/main/java/com/bank/crm/account_service/repository/AccountRepository.java:15 | each stored row of the given client appears exactly once, and no other row appears |
| Repository.AccountRepository.Save | src/main/java/com/bank/crm/account_service/repository/AccountRepository.java:9 | an entity loaded from its row with no column changed (the deposit compared by value) is handed back with nothing written or checked. Otherwise an entity breaking the entity rules is refused with a constraint violation, and one whose deposit does not fit the column fails with the database's overflow error; nothing is stored in either case. Otherwise the row is stored with its deposit rounded to two decimals: a new entity gets the generated id and is appended, an existing one overwrites its row. The entity handed back keeps the deposit it was given |
| Repository.AccountRepository.DeleteById | src/main/java/com/bank/crm/account_service/repository/AccountRepository.java:9 | removes exactly that id from the rows and from the order |
| Repository.ExistsByIdIffStored | src/main/java/com/bank/crm/account_service/repository/AccountRepository.java:20 | existsById holds exactly when findAll lists a row with that id |
| Repository.SavedIsFound | src/main/java/com/bank/crm/account_service/repository/AccountRepository.java:9 | a stored row is returned by findById and listed by findAll |
| Repository.CountIsOrderLength | src/main/java/com/bank/crm/account_service/repository/AccountRepository.java:9 | count() equals the number of rows findAll returns |
| Service.ConvertToResponseIsOneToOne | src/main/java/com/bank/crm/account_service/service/AccountService.java:254-265 | convertToResponse copies every column, so two rows give the same response exactly when they are equal |
| Service.ConvertAll | src/main/java/com/bank/crm/account_service/service/AccountService.java:115-117 | the mapped list has one response per account, in the same order |
| Service.ConvertAllMembers | src/main/java/com/bank/crm/account_service/service/AccountService.java:131-133 | a response is in the mapped list exactly when it is the response of one of the accounts |
| Service.ConvertToResponse | src/main/java/com/bank/crm/account_service/service/AccountService.java:254-265 | the response carries all eight columns of the row unchanged |
| Service.DisplayNameIsInjective | src/main/java/com/bank/crm/account_service/service/AccountService.java:180-226 | the five audit attribute names are pairwise different |
| Service.Apply | src/main/java/com/bank/crm/account_service/service/AccountService.java:180-226 | an update never changes the id, the client id or the opening date |
| Service.ApplyFieldOf | src/main/java/com/bank/crm/account_service/service/AccountService.java:180-226 | each field's check touches only its own field, and leaves the account as it was exactly when the value is null or equal |
| Service.StepsSeeStoredValues | src/main/java/com/bank/crm/account_service/service/AccountService.java:180-226 | each check compares against the stored value, untouched by the earlier checks |
| Service.ApplyTakesGivenValues | src/main/java/com/bank/crm/account_service/service/AccountService.java:180-226 | after an update each field holds the request's value when one is given, else its stored value |
| Service.ChangeRecordedIff | src/main/java/com/bank/crm/account_service/service/AccountService.java:180-226 | a field's name is in the audit's attribute list exactly when the request gives a value different from the stored one |
| Service.ChangesFollowFieldOrder | src/main/java/com/bank/crm/account_service/service/AccountService.java:180-226 | the recorded changes follow the source's order: type, status, deposit, currency, branch |
| Service.ChangesDescribeApply | src/main/java/com/bank/crm/account_service/service/AccountService.java:180-226 | every recorded change holds the stored value as before, the updated value as after, and they differ |
| Service.NoChangesIffUnchanged | src/main/java/com/bank/crm/account_service/service/AccountService.java:228-241 | no audit event is emitted exactly when the update leaves the account as it was |
| Service.UpdateIsIdempotent | src/main/java/com/bank/crm/account_service/service/AccountService.java:180-226 | within one request, applying an update twice equals applying it once, and the second time records no change. Across requests the row is read back from the column: see RepeatedUpdateRecordsNothing and RescaledDepositIsAlwaysRecorded |
| Service.RepeatedUpdateRecordsNothing | src/main/java/com/bank/crm/account_service/service/AccountService.java:198-244 | an update whose deposit, when given, has two decimals is stored as it was applied, and repeating it against the stored row records no change |
| Service.RescaledDepositIsAlwaysRecorded | src/main/java/com/bank/crm/account_service/service/AccountService.java:198-207 | a deposit given with other than two decimals is recorded as a change against the row, and again against the row the column stored for it |
| Service.UpdateKeepsEntityValid | src/main/java/com/bank/crm/account_service/service/AccountService.java:180-226 | a valid update body without a blank currency keeps a valid account valid |
| Service.TypeOnlyUpdate | src/test/java/com/bank/crm/account_service/integration/AccountServiceIT.java:222-236 | a body giving only a type is valid and changes only the type of a valid account |
| Service.BlankCurrencyUpdateIsRefusedAtSave | src/main/java/com/bank/crm/account_service/dto/UpdateAccountRequest.java:17-18 | a three-space currency passes the update body's rules but makes the account break the entity's @NotBlank; it changes the currency column, so the save is checked and refused |
| Service.NotFoundMessage | src/main/java/com/bank/crm/account_service/service/AccountService.java:79 | the not-found message is the prefix "Account not found with ID: " followed by the id's 36-character text |
| Service.NotFoundMessageNamesId | src/main/java/com/bank/crm/account_service/service/AccountService.java:79 | two not-found messages are equal exactly when they are about the same id |
| Service.UpdateAccType | src/main/java/com/bank/crm/account_service/service/AccountService.java:180-188 | the type step sets the type when given and different, and appends exactly that change to the three audit lists |
| Service.UpdateAccStatus | src/main/java/com/bank/crm/account_service/service/AccountService.java:189-197 | the status step sets the status when given and different, and appends exactly that change |
| Service.UpdateInitialDeposit | src/main/java/com/bank/crm/account_service/service/AccountService.java:198-207 | the deposit step sets the deposit when given and not equal, and appends exactly that change |
| Service.UpdateCurrency | src/main/java/com/bank/crm/account_service/service/AccountService.java:208-217 | the currency step sets the currency when given and different, and appends exactly that change |
| Service.UpdateBranchId | src/main/java/com/bank/crm/account_service/service/AccountService.java:218-226 | the branch step sets the branch when given and different, and appends exactly that change |
| Service.ApplyUpdate | src/main/java/com/bank/crm/account_service/service/AccountService.java:175-226 | the five steps leave the entity at Apply of the request and the three lists at the names, old and new values of Changes |
| Service.AccountService.constructor | src/main/java/com/bank/crm/account_service/service/AccountService.java:28-32 | the service is wired to its repository with no audit events yet |
| Service.AccountService.CreateAccount | src/main/java/com/bank/crm/account_service/service/AccountService.java:37-68 | succeeds exactly when the body passes the create rules and its deposit fits the column. Then the account with the generated id is appended, with its deposit as the column keeps it, and is returned as given. A missing client id fails with the NullPointerException of line 65 and logs nothing. Any other request logs one create event, even when the commit then refuses it, with a constraint violation for a body breaking the rules or the overflow error for a deposit too wide; nothing is stored on failure |
| Service.AccountService.DeleteAccount | src/main/java/com/bank/crm/account_service/service/AccountService.java:73-94 | an absent id fails with the not-found message and nothing changes; a present one is removed, no longer exists, and one delete event names its client |
| Service.AccountService.GetAccountsByClientId | src/main/java/com/bank/crm/account_service/service/AccountService.java:99-118 | returns the client's rows as responses, all with that client id, and logs one read event |
| Service.AccountService.GetAllAccounts | src/main/java/com/bank/crm/account_service/service/AccountService.java:123-134 | returns the responses of findAll's rows, in the order the model's findAll lists them: one per stored account, and every stored account's response |
| Service.AccountService.GetAccountById | src/main/java/com/bank/crm/account_service/service/AccountService.java:139-158 | empty exactly when the id is absent (no event); else that row's response and one read event |
| Service.AccountService.UpdateAccount | src/main/java/com/bank/crm/account_service/service/AccountService.java:163-249 | absent id: not-found, nothing changes. Present: one update event exactly when something changed. When Apply of the request changes no column (the deposit compared by value), the save writes and checks nothing and the account is returned. When it changes one, the row becomes Apply of the request, with the deposit as the column keeps it, if the table accepts it. Otherwise the row stays, with a constraint violation when Apply breaks the entity rules or the overflow error when its deposit does not fit. The insertion order is kept |
| Service.AccountService.SaveUpdate | src/main/java/com/bank/crm/account_service/service/AccountService.java:243-248 | the final save: with no column changed it succeeds and writes nothing; else it refuses a row breaking the rules or overflowing the column, and otherwise stores the row as the column keeps it; the response is the updated account |
| ExceptionHandler.RemoveUriTag | src/main/java/com/bank/crm/account_service/exception/GlobalExceptionHandler.java:35 | removing the "uri=" tag never lengthens the text |
| ExceptionHandler.RemoveUriTagKeepsUntagged | src/main/java/com/bank/crm/account_service/exception/GlobalExceptionHandler.java:35 | a text without "uri=" is left unchanged |
| ExceptionHandler.PathOfDescription | src/main/java/com/bank/crm/account_service/exception/GlobalExceptionHandler.java:35 | the path of an error body is the request URI that follows the "uri=" tag |
| ExceptionHandler.FieldErrorMap | src/main/java/com/bank/crm/account_service/exception/GlobalExceptionHandler.java:45-50 | the map the handler fills has exactly one key per failed field |
| ExceptionHandler.CollectFieldErrors | src/main/java/com/bank/crm/account_service/exception/GlobalExceptionHandler.java:45-50 | the loop builds the field-to-message map, one put per error in order |
| ExceptionHandler.FieldErrorMapLastWins | src/main/java/com/bank/crm/account_service/exception/GlobalExceptionHandler.java:45-50 | a field keeps the message of its last error |
| ExceptionHandler.SingleFieldMessage | src/main/java/com/bank/crm/account_service/exception/GlobalExceptionHandler.java:54-56 | with one failed field the message is that field's entry in the map |
| ExceptionHandler.ValidationMessage | src/main/java/com/bank/crm/account_service/exception/GlobalExceptionHandler.java:54-56 | with none or several failed fields the message is the "Multiple validation errors: " prefix and the map's text |
| ExceptionHandler.Handle | src/main/java/com/bank/crm/account_service/exception/GlobalExceptionHandler.java:25-149 | every reply carries an error body whose status equals the HTTP status and whose path is the description without "uri=" |
| ExceptionHandler.StatusByKind | src/main/java/com/bank/crm/account_service/exception/GlobalExceptionHandler.java:25-149 | 404 exactly for not-found, 400 exactly for validation, type mismatch, unreadable body and illegal argument, 500 exactly for the rest |
| ExceptionHandler.LabelByKind | src/main/java/com/bank/crm/account_service/exception/GlobalExceptionHandler.java:25-117 | the error label is "Account Not Found", "Validation Failed", "Invalid Parameter", "Malformed JSON" and "Invalid Request" exactly for not-found, validation, type mismatch, unreadable body and illegal argument |
| ExceptionHandler.MalformedJsonMessage | src/main/java/com/bank/crm/account_service/exception/GlobalExceptionHandler.java:87-100 | an unreadable body is answered 400 "Malformed JSON" with the fixed message about invalid JSON, whatever the exception says |
| ExceptionHandler.ServerErrorLabel | src/main/java/com/bank/crm/account_service/exception/GlobalExceptionHandler.java:119-149 | a 500 says "Service Error" exactly for runtime exceptions and "Internal Server Error" for checked ones |
| ExceptionHandler.MessagePassedThrough | src/main/java/com/bank/crm/account_service/exception/GlobalExceptionHandler.java:25-117 | not-found and illegal-argument replies carry the exception's own message |
| ExceptionHandler.ServerErrorsHideDetails | src/main/java/com/bank/crm/account_service/exception/GlobalExceptionHandler.java:119-149 | two server errors of the same kind give the same reply, whatever their text |
| ExceptionHandler.HandleValidationExceptions | src/main/java/com/bank/crm/account_service/exception/GlobalExceptionHandler.java:41-66 | the handler method answers 400 with the message the handler function specifies |
| Controller.Respond | src/main/java/com/bank/crm/account_service/exception/GlobalExceptionHandler.java:20-21 | a returned entity reaches the client as it is; a thrown exception becomes an error body whose status equals the reply's, which is 400, 404 or 500 |
| Controller.CreateOutcome | src/main/java/com/bank/crm/account_service/controller/AccountController.java:37-50 | 201 with the account exactly on success; an illegal argument is rethrown, anything else wrapped in a RuntimeException |
| Controller.DeleteOutcome | src/main/java/com/bank/crm/account_service/controller/AccountController.java:60-73 | 204 without a body exactly on success; not-found is rethrown, anything else wrapped |
| Controller.ClientAccountsOutcome | src/main/java/com/bank/crm/account_service/controller/AccountController.java:81-94 | 200 with the list exactly on success; an illegal argument is rethrown, anything else wrapped |
| Controller.AllAccountsOutcome | src/main/java/com/bank/crm/account_service/controller/AccountController.java:102-112 | 200 with the list exactly on success; every failure is wrapped |
| Controller.AccountByIdOutcome | src/main/java/com/bank/crm/account_service/controller/AccountController.java:122-140 | 200 with the account when found, 404 without a body when not (returned, not thrown); an illegal argument is rethrown, anything else wrapped |
| Controller.UpdateOutcome | src/main/java/com/bank/crm/account_service/controller/AccountController.java:151-167 | 200 with the account exactly on success; not-found and illegal argument are rethrown, anything else wrapped |
| Controller.CreateStatus | src/main/java/com/bank/crm/account_service/controller/AccountController.java:33-51 | create answers 201 exactly on success, 400 exactly for an illegal argument, 500 exactly otherwise |
| Controller.DeleteStatus | src/main/java/com/bank/crm/account_service/controller/AccountController.java:56-74 | delete answers 204 exactly on success, 404 exactly for not-found, 500 exactly otherwise |
| Controller.ClientAccountsStatus | src/main/java/com/bank/crm/account_service/controller/AccountController.java:79-95 | the client route answers 200 exactly on success (empty list included), 400 for an illegal argument, 500 otherwise |
| Controller.AllAccountsStatus | src/main/java/com/bank/crm/account_service/controller/AccountController.java:100-113 | the list-all route answers 200 exactly on success and a 500 "Service Error" on every failure |
| Controller.AccountByIdStatus | src/main/java/com/bank/crm/account_service/controller/AccountController.java:118-141 | 200 exactly when found, 404 exactly when absent, with no body exactly then; 400 for an illegal argument, 500 otherwise |
| Controller.UpdateStatus | src/main/java/com/bank/crm/account_service/controller/AccountController.java:146-168 | update answers 200 on success, 404 for not-found, 400 for an illegal argument, 500 otherwise, each exactly |
| Controller.BindPath | src/main/java/com/bank/crm/account_service/controller/AccountController.java:58 | a UUID path variable binds exactly when it converts, to the converted value; otherwise a client error, a type mismatch quoting the text |
| Controller.BindParam | src/main/java/com/bank/crm/account_service/controller/AccountController.java:36 | the required userId binds exactly when present; otherwise a checked exception, neither a client error nor a runtime one |
| Controller.BindCreateBody | src/main/java/com/bank/crm/account_service/controller/AccountController.java:35 | a create body binds exactly when readable and valid; its failures are client errors |
| Controller.BindUpdateBody | src/main/java/com/bank/crm/account_service/controller/AccountController.java:149 | an update body binds exactly when readable and valid; its failures are client errors |
| Controller.InvalidCreateBodyIsRejected | src/main/java/com/bank/crm/account_service/controller/AccountController.java:35 | a body breaking the create rules is answered 400 "Validation Failed" |
| Controller.MissingUserIdIsServerError | src/main/java/com/bank/crm/account_service/controller/AccountController.java:36 | a missing userId is answered 500 "Internal Server Error" |
| Controller.MalformedIdIsRejected | src/main/java/com/bank/crm/account_service/exception/GlobalExceptionHandler.java:68-85 | a path id that is not a UUID is answered 400, quoting the text and naming the parameter and type |
| Routes.AccountController.constructor | src/main/java/com/bank/crm/account_service/controller/AccountController.java:27-28 | the controller is wired to its service |
| Routes.AccountController.CreateAccount | src/main/java/com/bank/crm/account_service/controller/AccountController.java:33-51 | an invalid body gets 400 and a missing userId 500, both with nothing stored. A valid body whose deposit does not fit the column gets 500 "Service Error", with nothing stored. Otherwise 201 with the new account, stored under the generated id with its deposit as the column keeps it, and appended to the order |
| Routes.AccountController.DeleteAccount | src/main/java/com/bank/crm/account_service/controller/AccountController.java:56-74 | a bad id is a type mismatch and a missing userId a 500, nothing changed; else 204 with the row removed, or the not-found reply (404) with the rows unchanged |
| Routes.AccountController.GetAccountsByClientId | src/main/java/com/bank/crm/account_service/controller/AccountController.java:79-95 | binding failures as above; otherwise 200 with the client's accounts; the table is never changed |
| Routes.AccountController.GetAllAccounts | src/main/java/com/bank/crm/account_service/controller/AccountController.java:100-113 | 200 with the list of findAll's rows as responses, in the order the model's findAll lists them: as many accounts as stored rows, and an account is listed exactly when it is a stored row's response |
| Routes.AccountController.GetAccountById | src/main/java/com/bank/crm/account_service/controller/AccountController.java:118-141 | binding failures as above; otherwise 200 with the stored account, or 404 without a body; the table is never changed |
| Routes.AccountController.UpdateAccount | src/main/java/com/bank/crm/account_service/controller/AccountController.java:146-168 | a bad id, an invalid body (400) or a missing userId changes nothing. Otherwise 404 when the id is absent. When no column changed, or the table accepts the updated row: 200, with the row stored and its deposit as the column keeps it. When a column changed and the table refuses the row: a 500, with the row kept. The order never changes |
| Routes.AccountController.ServeUpdate | src/main/java/com/bank/crm/account_service/controller/AccountController.java:151-167 | the bound update route answers as the three cases of UpdateAnswered state |
| Routes.RefusedUpdateIsServiceError | src/main/java/com/bank/crm/account_service/controller/AccountController.java:164-167 | an update that changes a column and that the entity rules or the deposit column refuse is answered 500 "Service Error" and the table is unchanged |
| Routes.AcceptedUpdateIsOk | src/main/java/com/bank/crm/account_service/controller/AccountController.java:154-156 | an update that changes no column, or that the table accepts, is answered 200 with the updated account; the row is replaced by it, with its deposit as the column keeps it |
| Routes.UnchangedUpdateIsOk | src/main/java/com/bank/crm/account_service/service/AccountService.java:163-249 | an update that records no change is answered 200 with the stored account and changes nothing, even for a row the entity's rules would refuse |
| Scenarios.TwoRowsOfOneClient | src/test/java/com/bank/crm/account_service/integration/AccountServiceIT.java:294-318 | with the client's two rows stored, the client route's list has exactly two accounts |
| Scenarios.ListTwoAccounts | src/test/java/com/bank/crm/account_service/integration/AccountServiceIT.java:294-318 | the client lookup after the two creates answers 200 with two accounts |
| Scenarios.CreateAccepted | src/main/java/com/bank/crm/account_service/controller/AccountController.java:33-51 | a create the rules and the column accept answers 201 and appends the row, stored as the column keeps it |
| Scenarios.SavingsAndCheckingAreBound | src/test/java/com/bank/crm/account_service/integration/AccountServiceIT.java:294-312 | the test's SAVINGS and CHECKING requests for one client pass the create rules and fit the column |
| Scenarios.CreateTwo | src/test/java/com/bank/crm/account_service/integration/AccountServiceIT.java:294-312 | two accepted creates for one client on an empty table answer 201 twice and store both rows, in that order |
| Scenarios.CreateSavingsAndChecking | src/test/java/com/bank/crm/account_service/integration/AccountServiceIT.java:294-318 | creating a SAVINGS and a CHECKING account for one client answers 201 twice and stores both, in that order |
| Scenarios.TwoAccountsForOneClient | src/test/java/com/bank/crm/account_service/integration/AccountServiceIT.java:294-318 | the two creates answer 201 and the client route then answers 200 with two accounts |
| Scenarios.DeleteThenGet | src/test/java/com/bank/crm/account_service/integration/AccountServiceIT.java:267-275 | deleting a created account answers 204 without a body, and a lookup afterwards 404 without a body |
| Scenarios.GetByIdTwice | src/test/java/com/bank/crm/account_service/integration/AccountServiceIT.java:136-146 | a created account is found with 200 and its id, and a second lookup gives the same answer |
| Scenarios.UpdateOnlyType | src/test/java/com/bank/crm/account_service/integration/AccountServiceIT.java:222-236 | an update giving only the type answers 200 with the account as before except for the new type |
| Scenarios.BlankCurrencyUpdate | src/main/java/com/bank/crm/account_service/dto/UpdateAccountRequest.java:17-18 | an update to a three-space currency answers 500 "Service Error" |
| Scenarios.NullClientIdNeverStored | src/test/java/com/bank/crm/account_service/integration/AccountServiceIT.java:69-79 | a create without client id answers 400 with "Client ID is required" and stores nothing |
| Scenarios.CreateReference | src/main/java/com/bank/crm/account_service/service/AccountService.java:37-68 | the standard request created through the service on an empty table stores that one row and logs one event |
| Scenarios.DepositUpdateOfReference | src/main/java/com/bank/crm/account_service/service/AccountService.java:198-207 | setting the standard account's deposit to 1000 is a change against its row, and the column stores the result back as that same row |
| Scenarios.AnnouncedUpdate | src/main/java/com/bank/crm/account_service/service/AccountService.java:163-249 | an update that the table accepts and that changes something returns the updated account, replaces the row and logs one event |
| Scenarios.RepeatedDepositUpdate | src/main/java/com/bank/crm/account_service/service/AccountService.java:198-244 | the same deposit update of 1000 sent twice gives the same answer both times, and both are announced: three events with the create |
| Scenarios.OversizedDepositIsBound | src/main/java/com/bank/crm/account_service/model/Account.java:49 | a deposit of 10^8 passes the create body's rules but does not fit the column |
| Scenarios.CreateOverflowing | src/main/java/com/bank/crm/account_service/controller/AccountController.java:33-51 | a create the rules accept but the column does not is answered as a wrapped runtime exception, a 500 "Service Error", with nothing stored |
| Scenarios.OversizedDepositCreate | src/main/java/com/bank/crm/account_service/model/Account.java:49 | creating an account with a deposit of 10^8 answers 500 "Service Error" and stores nothing |
| Scenarios.SubCentDepositIsBound | src/main/java/com/bank/crm/account_service/model/Account.java:49-51 | a deposit of 0.001 passes the create body's rules and fits the column, which keeps it as 0.00 |
| Scenarios.EmptyUpdateChangesNothing | src/main/java/com/bank/crm/account_service/dto/UpdateAccountRequest.java:10-21 | an empty update body binds, changes no field and records nothing |
| Scenarios.EmptyUpdate | src/main/java/com/bank/crm/account_service/controller/AccountController.java:146-168 | an empty update of a stored account answers 200 with it and leaves the table as it was |
| Scenarios.SubCentDepositThenEmptyUpdate | src/main/java/com/bank/crm/account_service/service/AccountService.java:244 | a 0.001 deposit is created with 201 and stored as 0.00; an empty update of it then answers 200 with 0.00, since nothing is written or checked |

## Left out

- The audit messages are events in a ghost list. Their text is not modelled: the remarks built with `String.format`, the `" | "` joins and the `toString` of BigDecimal and the enums. An event records the field names and the before and after values themselves.
- Logging through slf4j is not modelled; it changes nothing the model observes.
- Spring and JPA machinery is not modelled: dependency injection, dispatch of HTTP requests, JSON reading and writing, transactions and concurrent requests. Each route is one sequential method call.
- The clock and UUID generation are inputs. The opening date is the `now` parameter and the new id is the `generatedId` parameter.
- Parsing a UUID path variable is an input. `PathValue.converted` is what Spring's converter made of the text.
- The `HashMap.toString` text of the field-error map is an input (`mapText`).
- Controller.BindCreateBody: the violations are listed in the order the annotations are declared, so the message kept for a field that breaks two rules is fixed. Hibernate Validator reports violations as an unordered set, and the handler keeps the last one put for each field. A create currency that is both blank and not 3 long (`""`, `"  "`) may therefore be answered with either "Currency is required" or "Currency must be 3 characters" in the source. The model always answers with the second. No other field of either body can break two rules at once.
- The `timestamp` of `ErrorResponse` (a `LocalDateTime.now()` call) is not modelled.
- The two application bootstrap classes have no behaviour to model.
- The `currency` column's `length = 3` is not modelled: the rules only let through currencies of 3 UTF-16 units, which never exceed it.
- Repository.AccountRepository.FindAll and FindByClientId: neither `findAll()` nor `findByClientId` asks for an order (no `Sort`, no `ORDER BY`), so the source lists rows in whatever order the database returns, which need not stay the insertion order after an update. The model lists them in insertion order. The exact lists stated by the service's and the routes' list operations hold for that choice; their membership and multiplicity clauses hold for any order.
- The repository fails only through the entity's validation rules and the deposit column's overflow. Other store failures (connection loss, other database errors) are not modelled, and no route contract allows a request that the rules and the column accept to fail.
- Service.AccountService.CreateAccount: the exception leaving the service when the commit fails is Spring's wrapper of the validation or database error. The model returns its cause: the constraint violation, or a runtime error with the database's text. Through the route both become the same 500 "Service Error". The text of the NullPointerException for a missing client id is the JVM's helpful message, taken as a constant.
- `AccountServiceTest.java` tests an older version of the service and is not part of this model.
- ExceptionHandler.ValidationMessage: when several fields fail, only the prefix is modelled. The rest of the message is the map's text, passed in.
- ExceptionHandler.RemoveUriTag: its own contract states only that the path never grows. The path itself is stated by PathOfDescription and RemoveUriTagKeepsUntagged.
- Service.Apply: its own contract states only the columns an update never touches. The rest of an update is stated by ApplyTakesGivenValues, ChangeRecordedIff and the lemmas beside them.
