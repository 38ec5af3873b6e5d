# Spend-Sense account and transaction actions in Dafny

This project models the server actions of the Spend-Sense personal-finance
application that read and write accounts and transactions. They live in
`actions/transaction.js`. The database is an immutable value `Db`. It holds
three tables as sequences: users, accounts and transactions. Each action is a
pure function from the database and the request to
`Result<(Db, record), Error>`. A failed action carries no database, so the
caller keeps the one it had and nothing is written.

The central rule is the **default account**:

- a user's first account is always the default, whatever the form asks;
- a later account is the default only when the form asks for it;
- before a new default is inserted, every other default of the same user is
  cleared, and the accounts of other users are never touched.

The model proves that "each user has at most one default account, and
exactly one once the user has any account" holds after every successful
action. It also holds after any series of `createAccount` and
`createTransaction` requests, whether they succeed or fail. Transaction
creation checks that the account exists and belongs to the caller. The model
proves that every series of these two requests keeps every transaction
attached to an account of its own user. The account list is the caller's accounts, newest
first, each with the number of transactions recorded against it.

Files:

- `wrappers.dfy`: `Option` and `Result`.
- `sequences.dfy`: the query shapes the actions use, a `where` filter and an
  `orderBy … desc` sort, with their contracts.
- `store.dfy`: the records, the errors, the table lookups, the
  clear-defaults update, and the database conditions (`Valid`).
- `actions.dfy`: `createAccount`, `createTransaction`, `getUserAccounts` and
  `getDashboardData`.
- `properties.dfy`: the lemmas that relate the actions to the database
  conditions and to each other.

Abstractions of the environment:

- The session the authentication provider resolves is an input,
  `Option<ClerkId>`. A `ClerkId` is never empty: the source refuses a falsy
  provider id as Unauthorized, so `None` stands for every falsy id.
- The rate limiter's decision is an input, `RateDecision`.
- The parsed balance is an input, `Option<int>`, where `None` means the text
  was not a number.
- The creation time is an input, `now`.
- A fresh id is one more than the largest id in use in its table.

## Model

| member | source | states |
|---|---|---|
| `Store.FindUser` | actions/transaction.js:87-93 | Returns a stored user with the session's provider id, and returns nothing exactly when no user has that id. |
| `Store.FindAccount` | actions/transaction.js:174-176 | Returns a stored account with the requested id, and returns nothing exactly when no account has it. |
| `Store.AccountsOf` | actions/transaction.js:102-104 | The result holds exactly the stored accounts of the user, each as many times as it is stored, and no other account. It is empty exactly when the user has no account. |
| `Store.TransactionsOf` | actions/transaction.js:151-155 | The result holds exactly the stored transactions of the user, each as many times as it is stored, and no other transaction. |
| `Store.CountFor` | actions/transaction.js:38-44 | The count for an account equals the number of stored transactions recorded against it, counted one by one. It is at most the table size, and zero exactly when no transaction names that account. |
| `Store.ClearDefaults` | actions/transaction.js:111-117 | Afterwards no account of the user is default. Only the default flag can change. Other users' accounts and non-default accounts are left as they were. |
| `Sequences.FreshKey` | actions/transaction.js:119-127 | The id given to a new record is above, so differs from, the id of every stored record of its table. This holds for accounts and for transactions. |
| `Sequences.Filter` | actions/transaction.js:102-104 | A `where` query keeps exactly the records that pass the condition. Each passing record comes back as many times as it is stored, and no failing record comes back. Its length is the number of passing records, counted one by one. |
| `Sequences.FilterAppend` | actions/transaction.js:152-155 | Filtering distributes over concatenation. |
| `Sequences.InsertDesc` | actions/transaction.js:35-37 | Inserting into a sequence sorted by non-increasing key keeps it sorted. The result is the old contents plus the new element. |
| `Sequences.SortDesc` | actions/transaction.js:35-37 | `orderBy … desc` returns a permutation of its input, ordered by non-increasing key. |
| `Actions.Authenticate` | actions/transaction.js:22-32 | Fails with Unauthorized exactly when there is no session. Fails with UserNotFound exactly when no user has the session's id. It fails with no other error, so a session naming a stored user succeeds, and it returns that stored user. |
| `Actions.ShouldBeDefault` | actions/transaction.js:101-109 | A user with no accounts gets a default account whatever the form asks. A user with accounts gets the flag the form asks for. |
| `Actions.CreateAccount` | actions/transaction.js:56-137 | Errors are checked in the source's order: no session, rate-limited, blocked, unknown user, unparseable balance. It succeeds exactly when none of these applies. On success it appends one account with a fresh id. That account has the caller's id, the form's name, type and balance, and the creation time. It is the default when it is the user's first account, and otherwise when the form asks. A new default is the only default of its user. A new non-default leaves every existing account unchanged. Only the default flag of the caller's own accounts can change. Users and transactions are unchanged. |
| `Actions.CreateTransaction` | actions/transaction.js:162-202 | Authentication errors come first. It fails with InvalidAccount exactly when the account is missing or belongs to another user. It succeeds exactly when authentication succeeds and the account exists and belongs to the caller. On success it appends one transaction with a fresh id. That transaction has the caller's id and the form's fields. Accounts, balances included, and users are unchanged. |
| `Actions.AccountListOf` | actions/transaction.js:35-48 | For a given user, the result holds exactly that user's accounts, as a multiset. They are ordered by non-increasing creation time, and each carries the number of transactions recorded against it. |
| `Actions.GetUserAccounts` | actions/transaction.js:22-54 | Fails exactly when authentication fails. Otherwise it returns exactly the caller's accounts, as a multiset, ordered by non-increasing creation time, each with the number of transactions recorded against it. |
| `Actions.GetDashboardData` | actions/transaction.js:139-158 | Fails exactly when authentication fails. Otherwise it returns exactly the caller's transactions, as a multiset, ordered by non-increasing date. |
| `Properties.AddDefaultKeepsAtMostOne` | actions/transaction.js:111-127 | Clearing a user's defaults and then appending a default account for that user leaves at most one default per user. |
| `Properties.AddDefaultKeepsDefaultExists` | actions/transaction.js:111-127 | The same clear-then-insert leaves every user who has accounts with a default. |
| `Properties.AddNonDefaultKeepsSingleDefault` | actions/transaction.js:106-127 | Appending a non-default account for a user who already has accounts keeps exactly one default per user. |
| `Properties.CreateAccountKeepsSingleDefault` | actions/transaction.js:101-127 | Every successful account creation keeps at most one default per user, and exactly one once the user has any account. |
| `Properties.GrowAccountsKeepsTransactionsOwned` | actions/transaction.js:119-127 | Appending accounts keeps the ids and owners of the existing ones, so every transaction stays attached to an account of its user. |
| `Properties.CreateAccountKeepsValid` | actions/transaction.js:101-127 | A successful account creation keeps unique ids, the single-default rule and transaction ownership. |
| `Properties.CreateTransactionKeepsValid` | actions/transaction.js:173-191 | A successful transaction creation keeps unique ids, the single-default rule and transaction ownership. |
| `Properties.InvalidAccountIffNotOwned` | actions/transaction.js:173-179 | With unique account ids, a signed-in user's transaction is refused as invalid exactly when the user owns no account with the requested id. |
| `Properties.CreateTransactionCounts` | actions/transaction.js:182-191 | After a transaction is recorded, its account's transaction count is one higher. Every other account's count is unchanged. |
| `Properties.NewAccountHasNoTransactions` | actions/transaction.js:119-127 | When every transaction names an existing account, a newly created account has no transactions. |
| `Properties.PayloadUserIdIsIgnored` | actions/transaction.js:119-126 | The model carries the form's `userId` but never reads it, so changing it changes nothing that is written. This mirrors the source, where the spread of the form comes before the caller's `userId`, which overrides it (also at lines 182-185). |
| `Properties.RunKeepsValid` | actions/transaction.js:56-202 | Every series of `createAccount` and `createTransaction` requests keeps the database conditions. This holds whether each request succeeds or fails. |
| `Properties.SignUpScenario` | actions/transaction.js:101-127 | A first account requested as non-default becomes the default. A later account requested as default takes the flag from it. |

## Left out

- Authentication and rate limiting (actions/transaction.js:58-85) are foreign calls. They are modelled as the `session` and `decision` inputs. The rate limiter's logging is not modelled.
- `revalidatePath`, the `console` logging, and the choice between re-throwing and the `{ success, error }` envelope are I/O. Every action returns a `Result` instead.
- `parseFloat`/`isNaN` and the Prisma `Decimal` conversions are floating point. Balances and amounts are integers, and parsing is an `Option` input.
- `serializeTransaction` converts `Decimal` balances and amounts to numbers. With integer balances and amounts it is the identity, so it has no member of its own.
- Atomicity and concurrency of find, then `updateMany`, then `create` are not modelled. The source issues these as separate database calls with no transaction. The model runs them in sequence, and every database call succeeds. No rollback or locking is claimed. A failure after the clear step, or two concurrent creations, could break the single-default rule in the real system.
- Database failures are not modelled. This includes the path where `getUserAccounts` catches an error and returns nothing.
- Only the named payload fields are modelled: name, type, balance, default flag and user id for accounts. For transactions they are account, type, amount, description, date, category and user id. Any other field the form spreads into `create` is not modelled.
- A missing `isDefault` in the form is modelled as `false`. This assumes the schema's column default is `false`; the Prisma schema is not part of this model.
- Account ids, transaction ids and creation times come from the database. Here they are the next unused natural and the `now` input.
- `Sequences.Filter`: the contract does not state that the kept records stay in their original order. Every caller either sorts it or uses only its length, so no promise depends on it.
- `Sequences.SortDesc`: the source leaves the order of equal timestamps to the database. The model fixes one order and states only that keys do not increase.
- `Properties.RunKeepsValid` covers only `createAccount` and `createTransaction`. `updateTransaction` writes its payload with no sign-in and no ownership check, so it can move a transaction onto another user's account and break the rule that every transaction belongs to an account of its own user. The guarantee does not extend to it.
- `updateTransaction`, `getTransaction` (plain pass-throughs) and `scanReceipt` (a call to an external AI service) are not modelled.
- The background-job stubs, the not-found page, the transaction page and the build configuration are not modelled, because they hold no logic.
- Creating a transaction does not change the account balance in the source, and the model keeps it that way.
- Clear-then-insert is not wrapped in one database transaction in the code, so the model does not claim all-or-nothing behaviour for it.
