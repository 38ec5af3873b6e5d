/** The records the server actions read and write, and the consistency
    conditions the data layer is expected to keep. The database is an
    immutable value: three tables held as sequences of records. */
module Store {
  import opened Wrappers
  import opened Sequences

  /** Database ids. The database generates them; here they are naturals. */
  type UserId = nat
  type AccountId = nat
  type TransactionId = nat

  /** The identity the authentication provider hands back for a session.
      An empty id is falsy, so the actions treat it as no session at all. */
  type ClerkId = s: string | s != "" witness "u"

  /** A registered user: the database id and the provider's id it maps to. */
  datatype User = User(id: UserId, clerkId: ClerkId)

  /** A financial account. `kind` is the account type copied from the form;
      `balance` is the parsed amount in the currency's smallest unit. */
  datatype Account = Account(
    id: AccountId,
    userId: UserId,
    name: string,
    kind: string,
    balance: int,
    isDefault: bool,
    createdAt: int)

  datatype TransactionType = Income | Expense

  /** A recorded income or expense against one account. */
  datatype Transaction = Transaction(
    id: TransactionId,
    userId: UserId,
    accountId: AccountId,
    kind: TransactionType,
    amount: int,
    description: Option<string>,
    date: int,
    category: string)

  datatype Db = Db(users: seq<User>, accounts: seq<Account>, transactions: seq<Transaction>)

  /** The messages the actions fail with. */
  datatype Error =
    | Unauthorized      // no signed-in session
    | TooManyRequests   // the rate limiter refused for exceeding the limit
    | RequestBlocked    // the rate limiter refused for another reason
    | UserNotFound      // the session names no registered user
    | InvalidBalance    // the balance did not parse as a number
    | InvalidAccount    // the account is missing or belongs to someone else

  /** `findUnique({ where: { clerkId } })` on the user table. */
  function FindUser(users: seq<User>, clerkId: ClerkId): (r: Option<User>)
    ensures r.Some? ==> r.value in users && r.value.clerkId == clerkId
    ensures r.None? <==> forall i :: 0 <= i < |users| ==> users[i].clerkId != clerkId
  {
    FindFirst(users, (u: User) => u.clerkId == clerkId)
  }

  /** `findUnique({ where: { id } })` on the account table. */
  function FindAccount(accounts: seq<Account>, id: AccountId): (r: Option<Account>)
    ensures r.Some? ==> r.value in accounts && r.value.id == id
    ensures r.None? <==> forall i :: 0 <= i < |accounts| ==> accounts[i].id != id
  {
    FindFirst(accounts, (a: Account) => a.id == id)
  }

  function OwnedBy(userId: UserId): Account -> bool
  {
    (a: Account) => a.userId == userId
  }

  function RecordedBy(userId: UserId): Transaction -> bool
  {
    (t: Transaction) => t.userId == userId
  }

  function AgainstAccount(accountId: AccountId): Transaction -> bool
  {
    (t: Transaction) => t.accountId == accountId
  }

  /** `findMany({ where: { userId } })` on the account table. */
  function AccountsOf(accounts: seq<Account>, userId: UserId): (r: seq<Account>)
    ensures forall a :: a in r <==> a in accounts && a.userId == userId
    ensures forall a :: multiset(r)[a] == if a.userId == userId then multiset(accounts)[a] else 0
    ensures |r| == 0 <==> forall i :: 0 <= i < |accounts| ==> accounts[i].userId != userId
  {
    var r := Filter(accounts, OwnedBy(userId));
    assert forall i :: 0 <= i < |accounts| && accounts[i].userId == userId ==> accounts[i] in r;
    assert |r| > 0 ==> r[0] in accounts && r[0].userId == userId;
    r
  }

  /** `findMany({ where: { userId } })` on the transaction table. */
  function TransactionsOf(transactions: seq<Transaction>, userId: UserId): (r: seq<Transaction>)
    ensures forall t :: t in r <==> t in transactions && t.userId == userId
    ensures forall t :: multiset(r)[t] == if t.userId == userId then multiset(transactions)[t] else 0
  {
    Filter(transactions, RecordedBy(userId))
  }

  /** `_count: { select: { transactions: true } }` for one account: how many
      transactions are recorded against it. */
  function CountFor(transactions: seq<Transaction>, accountId: AccountId): (n: nat)
    ensures n <= |transactions|
    ensures n == CountWhere(transactions, AgainstAccount(accountId))
    ensures n == 0 <==> forall i :: 0 <= i < |transactions| ==> transactions[i].accountId != accountId
  {
    var r := Filter(transactions, AgainstAccount(accountId));
    assert forall i :: 0 <= i < |transactions| && transactions[i].accountId == accountId ==> transactions[i] in r;
    assert |r| > 0 ==> r[0] in transactions && r[0].accountId == accountId;
    |r|
  }

  /** `updateMany({ where: { userId, isDefault: true }, data: { isDefault: false } })`. */
  function ClearDefaults(accounts: seq<Account>, userId: UserId): (r: seq<Account>)
    ensures |r| == |accounts|
    ensures forall i :: 0 <= i < |r| && r[i].userId == userId ==> !r[i].isDefault
    ensures forall i :: 0 <= i < |r| ==> r[i] == accounts[i].(isDefault := r[i].isDefault)
    ensures forall i :: 0 <= i < |r| && accounts[i].userId != userId ==> r[i] == accounts[i]
    ensures forall i :: 0 <= i < |r| && !accounts[i].isDefault ==> r[i] == accounts[i]
  {
    seq(|accounts|, i requires 0 <= i < |accounts| =>
      var a := accounts[i];
      if a.userId == userId && a.isDefault then a.(isDefault := false) else a)
  }

  /** No two accounts share an id. */
  ghost predicate UniqueAccountIds(accounts: seq<Account>)
  {
    forall i, j :: 0 <= i < j < |accounts| ==> accounts[i].id != accounts[j].id
  }

  /** No two transactions share an id. */
  ghost predicate UniqueTransactionIds(transactions: seq<Transaction>)
  {
    forall i, j :: 0 <= i < j < |transactions| ==> transactions[i].id != transactions[j].id
  }

  /** No user has two default accounts. */
  ghost predicate AtMostOneDefault(accounts: seq<Account>)
  {
    forall i, j ::
      (0 <= i < |accounts| && 0 <= j < |accounts| &&
       accounts[i].isDefault && accounts[j].isDefault &&
       accounts[i].userId == accounts[j].userId) ==> i == j
  }

  /** `userId` has a default account. */
  ghost predicate HasDefault(accounts: seq<Account>, userId: UserId)
  {
    exists j :: 0 <= j < |accounts| && accounts[j].userId == userId && accounts[j].isDefault
  }

  /** Every user who has an account has a default one. */
  ghost predicate DefaultExists(accounts: seq<Account>)
  {
    forall i :: 0 <= i < |accounts| ==> HasDefault(accounts, accounts[i].userId)
  }

  /** Exactly one default account per user who has any account. */
  ghost predicate SingleDefault(accounts: seq<Account>)
  {
    AtMostOneDefault(accounts) && DefaultExists(accounts)
  }

  /** Every transaction is recorded against an existing account of the same user. */
  ghost predicate TransactionsOwned(accounts: seq<Account>, transactions: seq<Transaction>)
  {
    forall k :: 0 <= k < |transactions| ==> OwnedAccountExists(accounts, transactions[k])
  }

  /** The account `t` is recorded against exists and belongs to `t`'s user. */
  ghost predicate OwnedAccountExists(accounts: seq<Account>, t: Transaction)
  {
    exists i :: 0 <= i < |accounts| && accounts[i].id == t.accountId && accounts[i].userId == t.userId
  }

  /** The consistency conditions of the whole database. */
  ghost predicate Valid(db: Db)
  {
    && UniqueAccountIds(db.accounts)
    && UniqueTransactionIds(db.transactions)
    && SingleDefault(db.accounts)
    && TransactionsOwned(db.accounts, db.transactions)
  }
}
