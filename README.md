# Bank ledger model

A Dafny model of `SecureBankService`, the in-memory bank ledger of the Shiro AspectJ
sample. The service keeps three pieces of state:

- a running flag;
- the accounts, in creation order;
- an index from account id to account, which must stay in step with the list.

Every operation except `start`, `dispose` and `getAccountCount` first checks that the service is running.
Operations that take an id then look the account up, failing with AccountNotFound when the
id is unknown. Deposits, withdrawals and closures are handed to the account's
`applyTransaction`. The history view shows deposits as positive and withdrawals as
negative amounts.

Files:

- `text.dfy` (module `Text`): ASCII lower-casing and the substring test used by the owner search.
- `account.dfy` (module `Accounts`): transaction records, error kinds, and the `Account`
  class with its `ApplyTransaction` primitive.
- `bank.dfy` (module `Bank`): the `BankService` class and the specification functions and
  lemmas it is proved against:
  - `Index` gives the list/index correspondence;
  - `Matches` and `IdsOf` give the owner search;
  - `HistoryView` and `Total` give the history view.
- `scenarios.dfy` (module `Scenarios`): client methods showing what a caller can conclude from
  the contracts alone: an account's whole life, the refused operations, and disposal.

`BankService` is a class with fields `running`, `accounts: seq<Account>` and
`byId: map<int, Account>`. Its invariant `Valid()` states four things:

- `byId` is the map obtained by entering the accounts of the list one after another;
- ids are distinct;
- a stopped service holds no account;
- every account's balance is the sum of its history, and a closed account holds 0.

A second predicate, `Solvent()`, states that no account is overdrawn. Withdrawals and
closures always preserve it. Deposits preserve it when the amount is not negative.

`Account.java` and `AccountTransaction.java` are not part of this model. `Account` is
therefore a minimal class with the fields the service uses: `id`, `owner`, `createdBy`,
`balance`, `active` and `txs`. Its `ApplyTransaction` is an assumed contract, written
as a method body so that it can be checked. It follows how the service uses the call
(`SecureBankService.java:141`, `:156`, `:165`):

1. An inactive account refuses any record with InactiveAccount.
2. A withdrawal larger than the balance is refused with NotEnoughFunds.
3. Otherwise the balance moves by the record's signed amount and the record is appended.

A refusal changes nothing.

Three facts about the source shape the model:

- Closure is two separate steps on the account: a full-balance withdrawal, then
  `setActive(false)` (`SecureBankService.java:222-223`). They are not one atomic step.
- `start` does not check the current state (`SecureBankService.java:36`).
- Amounts are never checked for sign (`SecureBankService.java:147`, `:170`).

## Model

| member | source | states |
|---|---|---|
| `Bank.BankService.constructor` | samples/aspectj/src/main/java/org/apache/shiro/sample/bank/SecureBankService.java:26-30 | a new service is stopped with an empty list and an empty index, and satisfies the invariant |
| `Bank.BankService.Start` | samples/aspectj/src/main/java/org/apache/shiro/sample/bank/SecureBankService.java:35-38 | the service is running afterwards; the accounts and the index are unchanged; the invariant is kept |
| `Bank.BankService.Dispose` | samples/aspectj/src/main/java/org/apache/shiro/sample/bank/SecureBankService.java:43-53 | the service is stopped; the list and the index are both empty, so the count is 0 and every earlier id fails lookup |
| `Bank.BankService.AssertServiceState` | samples/aspectj/src/main/java/org/apache/shiro/sample/bank/SecureBankService.java:58-62 | passes exactly when the service is running; otherwise fails with the not-running illegal-state error; changes nothing |
| `Bank.BankService.GetAccountCount` | samples/aspectj/src/main/java/org/apache/shiro/sample/bank/SecureBankService.java:64-66 | with no running guard, returns the list size, which equals the number of index entries |
| `Bank.BankService.CreateNewAccount` | samples/aspectj/src/main/java/org/apache/shiro/sample/bank/SecureBankService.java:72-85 | when stopped, fails with NotRunning and changes nothing. When running, it appends exactly one fresh account at the end (owner, creator, balance 0, active, no history), leaves earlier accounts in place, maps the new id to it, returns that id, and keeps the list/index invariant |
| `Bank.BankService.SafelyRetrieveAccountForId` | samples/aspectj/src/main/java/org/apache/shiro/sample/bank/SecureBankService.java:253-265 | succeeds exactly when some listed account carries the id, returning the account the index maps it to; otherwise fails with AccountNotFound |
| `Bank.BankService.SearchAccountIdsByOwner` | samples/aspectj/src/main/java/org/apache/shiro/sample/bank/SecureBankService.java:90-111 | when stopped, fails with NotRunning. When running, returns in list order the ids of the accounts whose lower-cased owner contains the lower-cased query; a listed account's id is in the result exactly when its owner matches. Changes nothing |
| `Bank.BankService.GetOwnerOf` | samples/aspectj/src/main/java/org/apache/shiro/sample/bank/SecureBankService.java:117-123 | NotRunning when stopped, AccountNotFound for an unknown id, otherwise the account's owner; changes nothing |
| `Bank.BankService.GetBalanceOf` | samples/aspectj/src/main/java/org/apache/shiro/sample/bank/SecureBankService.java:129-135 | NotRunning when stopped, AccountNotFound for an unknown id, otherwise the account's balance, which is the sum of its history; changes nothing |
| `Bank.BankService.IsAccountActive` | samples/aspectj/src/main/java/org/apache/shiro/sample/bank/SecureBankService.java:237-243 | NotRunning when stopped, AccountNotFound for an unknown id, otherwise the active flag; an inactive account holds 0; changes nothing |
| `Bank.BankService.DepositInto` | samples/aspectj/src/main/java/org/apache/shiro/sample/bank/SecureBankService.java:141-159 | guard and lookup errors as above; an inactive account fails with InactiveAccount and is unchanged; otherwise the amount is added, one deposit record is appended, and the new balance is returned. An insufficient-funds refusal would become the internal error, but neither error can result |
| `Bank.BankService.WithdrawFrom` | samples/aspectj/src/main/java/org/apache/shiro/sample/bank/SecureBankService.java:165-178 | guard and lookup errors as above; InactiveAccount or NotEnoughFunds is propagated with the account unchanged; otherwise the amount is subtracted, one withdrawal record is appended, and the new balance is returned; no account becomes overdrawn |
| `Bank.BankService.GetTxHistoryFor` | samples/aspectj/src/main/java/org/apache/shiro/sample/bank/SecureBankService.java:184-203 | guard and lookup errors as above; otherwise returns the history view of the account's records, whose amounts sum to the balance |
| `Bank.BankService.CloseAccount` | samples/aspectj/src/main/java/org/apache/shiro/sample/bank/SecureBankService.java:209-231 | guard and lookup errors as above; a closed account fails with InactiveAccount and is unchanged; otherwise returns the pre-close balance, and leaves the account inactive with balance 0 and one more withdrawal record of that balance |
| `Bank.IndexKeys` | samples/aspectj/src/main/java/org/apache/shiro/sample/bank/SecureBankService.java:79-80 | an id is a key of the index built from the list exactly when some listed account carries it |
| `Bank.IndexAt` | samples/aspectj/src/main/java/org/apache/shiro/sample/bank/SecureBankService.java:79-80 | with distinct ids, every listed account is what the index maps its id to |
| `Bank.IndexSize` | samples/aspectj/src/main/java/org/apache/shiro/sample/bank/SecureBankService.java:64-66 | with distinct ids, the index has as many entries as the list |
| `Bank.MatchesMembers` | samples/aspectj/src/main/java/org/apache/shiro/sample/bank/SecureBankService.java:96-100 | an account is selected by the search exactly when it is listed and its owner matches the query |
| `Bank.MatchesAppend` | samples/aspectj/src/main/java/org/apache/shiro/sample/bank/SecureBankService.java:96-100 | selection distributes over concatenation, so the search keeps list order |
| `Bank.SearchExact` | samples/aspectj/src/main/java/org/apache/shiro/sample/bank/SecureBankService.java:96-107 | with distinct ids, a listed account's id is among the ids found exactly when its owner matches |
| `Bank.HistoryViewAt` | samples/aspectj/src/main/java/org/apache/shiro/sample/bank/SecureBankService.java:190-200 | one entry per record at the same position, with date and creator copied; a deposit keeps its amount and a withdrawal has it negated |
| `Bank.HistoryViewTotal` | samples/aspectj/src/main/java/org/apache/shiro/sample/bank/SecureBankService.java:195-199 | the signed amounts of the view add up to the sum of the changes the records made |
| `Text.Lower` | samples/aspectj/src/main/java/org/apache/shiro/sample/bank/SecureBankService.java:97 | lower-casing keeps the length, leaves no upper-case ASCII letter, and changes a character only into its lower-case counterpart |
| `Text.ContainsIff` | samples/aspectj/src/main/java/org/apache/shiro/sample/bank/SecureBankService.java:97 | the left-to-right substring scan succeeds exactly when the query occurs at some position of the name |
| `Accounts.NetAppend` | samples/aspectj/src/main/java/org/apache/shiro/sample/bank/SecureBankService.java:151 | appending a record to a history adds exactly that record's signed change to the history's sum |
| `Accounts.Account.constructor` | samples/aspectj/src/main/java/org/apache/shiro/sample/bank/SecureBankService.java:77-78 | a new account has the given id, owner and creator, balance 0, is active, and has an empty history |
| `Accounts.Account.ApplyTransaction` | samples/aspectj/src/main/java/org/apache/shiro/sample/bank/SecureBankService.java:151 | assumed contract of `Account.applyTransaction`, whose source (Account.java) is not part of this model. An inactive account refuses with InactiveAccount; an over-balance withdrawal refuses with NotEnoughFunds; a refusal changes nothing. Otherwise the balance moves by the signed amount, the record is appended, and the balance stays equal to the history's sum |
| `Accounts.Account.SetActive` | samples/aspectj/src/main/java/org/apache/shiro/sample/bank/SecureBankService.java:223 | sets the active flag and changes neither the balance nor the history |
| `Scenarios.AliMatchesAlice` | samples/aspectj/src/main/java/org/apache/shiro/sample/bank/SecureBankService.java:97 | the query "ali" matches the owner "Alice", ignoring case |

## Left out

- Thread safety: the `synchronized (_accounts)` blocks and any per-account locking are not modelled; each operation is one sequential step.
- Authorization: the `@RequiresPermissions` annotations are applied by an aspect outside this code.
- Identity resolution: `getCurrentUsername` goes through `SecurityUtils`/`Subject`, so the actor is a method parameter. Its failure when no user is authenticated is not modelled.
- Logging through Log4j is not modelled.
- Money is `int` (for example cents) rather than `double`. The `-1.0d *` of the history view is integer negation.
- Integer widths: ids are `int` rather than Java `long`, and the count is unbounded rather than a 32-bit `int`.
- Null arguments: owner names and queries are never null. The NullPointerException the source throws at line 97 is not modelled. It is thrown for a null query on a non-empty ledger, and for any search once an account has a null owner.
- Lower-casing is ASCII only. The locale and Unicode behaviour of `String.toLowerCase` is not modelled.
- Bank.BankService.CreateNewAccount: id generation happens inside the `Account` constructor, which is not part of this model. The new id is a parameter that must not already be in the index.
- Timestamps: a record's creation date is an opaque `Instant` parameter.
- `Account.java`, `AccountTransaction.java` and `TxLog.java` are not part of this model. `Accounts.Account.ApplyTransaction` is an assumed contract taken from the call sites. It does not check that amounts are positive, because the service does not either.
- The history is returned as a sequence copied from the array the method fills, not as a shared array.
