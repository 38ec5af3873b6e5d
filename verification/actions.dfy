/** The account and transaction server actions, each a pure function from
    the database and the request to a new database and the record written.
    A failure carries no database: the caller keeps the one it had, so an
    action that fails writes nothing. */
module Actions {
  import opened Wrappers
  import opened Sequences
  import opened Store

  /** What the rate limiter decided for a request. */
  datatype RateDecision = Allowed | RateLimited | Blocked

  /** The create-account form after parsing. `parsedBalance` is `None` when
      the balance text is not a number; `isDefault` is `false` when the form
      leaves it out; `userId` is whatever id the payload itself carries. */
  datatype AccountInput = AccountInput(
    name: string,
    kind: string,
    parsedBalance: Option<int>,
    isDefault: bool,
    userId: Option<UserId>)

  /** The create-transaction form; `userId` is whatever id the payload carries. */
  datatype TransactionInput = TransactionInput(
    accountId: AccountId,
    kind: TransactionType,
    amount: int,
    description: Option<string>,
    date: int,
    category: string,
    userId: Option<UserId>)

  /** An account as the account list returns it, with its transaction count. */
  datatype AccountSummary = AccountSummary(account: Account, transactionCount: nat)

  /** Resolves the signed-in session to a registered user. */
  function Authenticate(db: Db, session: Option<ClerkId>): (r: Result<User, Error>)
    ensures r == Err(Unauthorized) <==> session.None?
    ensures r == Err(UserNotFound) <==>
      session.Some? && forall i :: 0 <= i < |db.users| ==> db.users[i].clerkId != session.value
    ensures r.Err? ==> r.error == Unauthorized || r.error == UserNotFound
    ensures r.Ok? ==> r.value in db.users && session == Some(r.value.clerkId)
  {
    match session
    case None => Err(Unauthorized)
    case Some(clerkId) =>
      match FindUser(db.users, clerkId)
      case None => Err(UserNotFound)
      case Some(user) => Ok(user)
  }

  /** Whether an account created now for `owner` becomes the default: the
      first account always does, a later one when the form asks for it. */
  function ShouldBeDefault(accounts: seq<Account>, owner: UserId, requested: bool): (b: bool)
    ensures (forall i :: 0 <= i < |accounts| ==> accounts[i].userId != owner) ==> b
    ensures (exists i :: 0 <= i < |accounts| && accounts[i].userId == owner) ==> b == requested
  {
    if FindFirst(accounts, OwnedBy(owner)).None? then true else requested
  }

  /** Creates an account for the signed-in user. When it is to be the
      default, the user's other defaults are cleared before it is inserted. */
  function CreateAccount(db: Db, session: Option<ClerkId>, decision: RateDecision, data: AccountInput, now: int)
    : (r: Result<(Db, Account), Error>)
    ensures session.None? ==> r == Err(Unauthorized)
    ensures session.Some? && decision.RateLimited? ==> r == Err(TooManyRequests)
    ensures session.Some? && decision.Blocked? ==> r == Err(RequestBlocked)
    ensures session.Some? && decision.Allowed? && FindUser(db.users, session.value).None? ==>
      r == Err(UserNotFound)
    ensures session.Some? && decision.Allowed? && FindUser(db.users, session.value).Some? ==>
      (data.parsedBalance.None? ==> r == Err(InvalidBalance))
    ensures r.Ok? <==>
      session.Some? && decision.Allowed? && FindUser(db.users, session.value).Some? && data.parsedBalance.Some?
    // the record inserted: the caller's, whatever the payload says, with a fresh id
    ensures r.Ok? ==>
      var (db', a) := r.value;
      && a.userId == FindUser(db.users, session.value).value.id
      && a.name == data.name && a.kind == data.kind
      && a.balance == data.parsedBalance.value && a.createdAt == now
      && (forall i :: 0 <= i < |db.accounts| ==> db.accounts[i].id != a.id)
      && |db'.accounts| == |db.accounts| + 1
      && db'.accounts[|db.accounts|] == a
      && db'.users == db.users && db'.transactions == db.transactions
    // the default flag: first account always, otherwise as requested
    ensures r.Ok? ==>
      var (db', a) := r.value;
      && ((forall i :: 0 <= i < |db.accounts| ==> db.accounts[i].userId != a.userId) ==> a.isDefault)
      && ((exists i :: 0 <= i < |db.accounts| && db.accounts[i].userId == a.userId) ==> a.isDefault == data.isDefault)
    // a new default is the only default of its user
    ensures r.Ok? ==>
      var (db', a) := r.value;
      a.isDefault ==> forall i :: 0 <= i < |db.accounts| && db'.accounts[i].userId == a.userId ==> !db'.accounts[i].isDefault
    // a new non-default leaves every existing account as it was
    ensures r.Ok? ==>
      var (db', a) := r.value;
      !a.isDefault ==> db'.accounts[..|db.accounts|] == db.accounts
    // at most the default flag of the caller's own accounts changes
    ensures r.Ok? ==>
      var (db', a) := r.value;
      && (forall i :: 0 <= i < |db.accounts| ==> db'.accounts[i] == db.accounts[i].(isDefault := db'.accounts[i].isDefault))
      && (forall i :: 0 <= i < |db.accounts| && db.accounts[i].userId != a.userId ==> db'.accounts[i] == db.accounts[i])
  {
    if session.None? then Err(Unauthorized)
    else if decision.RateLimited? then Err(TooManyRequests)
    else if decision.Blocked? then Err(RequestBlocked)
    else
      match FindUser(db.users, session.value)
      case None => Err(UserNotFound)
      case Some(user) =>
        match data.parsedBalance
        case None => Err(InvalidBalance)
        case Some(balance) =>
          var isDefault := ShouldBeDefault(db.accounts, user.id, data.isDefault);
          var kept := if isDefault then ClearDefaults(db.accounts, user.id) else db.accounts;
          var account := Account(FreshKey(db.accounts, (a: Account) => a.id), user.id, data.name, data.kind, balance, isDefault, now);
          assert (kept + [account])[..|db.accounts|] == kept;
          Ok((db.(accounts := kept + [account]), account))
  }

  /** Records a transaction for the signed-in user against one of the user's
      own accounts. Account balances are not adjusted. */
  function CreateTransaction(db: Db, session: Option<ClerkId>, data: TransactionInput)
    : (r: Result<(Db, Transaction), Error>)
    ensures Authenticate(db, session).Err? ==> r == Err(Authenticate(db, session).error)
    ensures r == Err(InvalidAccount) <==>
      && Authenticate(db, session).Ok?
      && (|| FindAccount(db.accounts, data.accountId).None?
          || FindAccount(db.accounts, data.accountId).value.userId != Authenticate(db, session).value.id)
    ensures r.Ok? <==>
      && Authenticate(db, session).Ok?
      && FindAccount(db.accounts, data.accountId).Some?
      && FindAccount(db.accounts, data.accountId).value.userId == Authenticate(db, session).value.id
    ensures r.Ok? ==>
      var (db', t) := r.value;
      && t.userId == Authenticate(db, session).value.id
      && t.accountId == data.accountId && t.kind == data.kind && t.amount == data.amount
      && t.description == data.description && t.date == data.date && t.category == data.category
      && (exists i :: 0 <= i < |db.accounts| && db.accounts[i].id == t.accountId && db.accounts[i].userId == t.userId)
      && (forall k :: 0 <= k < |db.transactions| ==> db.transactions[k].id != t.id)
      && db'.transactions == db.transactions + [t]
      && db'.accounts == db.accounts && db'.users == db.users
  {
    match Authenticate(db, session)
    case Err(e) => Err(e)
    case Ok(user) =>
      match FindAccount(db.accounts, data.accountId)
      case None => Err(InvalidAccount)
      case Some(account) =>
        if account.userId != user.id then Err(InvalidAccount)
        else
          var t := Transaction(
            FreshKey(db.transactions, (t: Transaction) => t.id), user.id, data.accountId,
            data.kind, data.amount, data.description, data.date, data.category);
          Ok((db.(transactions := db.transactions + [t]), t))
  }

  /** The accounts a list of summaries describes, in order. */
  function AccountsIn(summaries: seq<AccountSummary>): (r: seq<Account>)
    ensures |r| == |summaries|
    ensures forall i :: 0 <= i < |r| ==> r[i] == summaries[i].account
  {
    seq(|summaries|, i requires 0 <= i < |summaries| => summaries[i].account)
  }

  /** Annotates each account with its transaction count, keeping the order. */
  function Summarize(accounts: seq<Account>, transactions: seq<Transaction>): (r: seq<AccountSummary>)
    ensures AccountsIn(r) == accounts
    ensures forall i :: 0 <= i < |r| ==> r[i].transactionCount == CountFor(transactions, accounts[i].id)
  {
    seq(|accounts|, i requires 0 <= i < |accounts| =>
      AccountSummary(accounts[i], CountFor(transactions, accounts[i].id)))
  }

  /** The accounts of `owner`, newest first, each with the number of
      transactions recorded against it. */
  function AccountListOf(db: Db, owner: UserId): (r: seq<AccountSummary>)
    ensures multiset(AccountsIn(r)) == multiset(AccountsOf(db.accounts, owner))
    ensures forall i :: 0 <= i < |r| ==> r[i].account in db.accounts && r[i].account.userId == owner
    ensures forall i, j :: 0 <= i < j < |r| ==> r[i].account.createdAt >= r[j].account.createdAt
    ensures forall i :: 0 <= i < |r| ==> r[i].transactionCount == CountFor(db.transactions, r[i].account.id)
  {
    var mine := AccountsOf(db.accounts, owner);
    var sorted := SortDesc(mine, (a: Account) => a.createdAt);
    SameMultisetSameMembers(sorted, mine);
    var summaries := Summarize(sorted, db.transactions);
    assert forall i :: 0 <= i < |summaries| ==> summaries[i].account == sorted[i];
    summaries
  }

  /** The signed-in user's accounts, newest first, each with the number of
      transactions recorded against it. */
  function GetUserAccounts(db: Db, session: Option<ClerkId>): (r: Result<seq<AccountSummary>, Error>)
    ensures Authenticate(db, session).Err? ==> r == Err(Authenticate(db, session).error)
    ensures r.Ok? <==> Authenticate(db, session).Ok?
    ensures r.Ok? ==>
      multiset(AccountsIn(r.value)) == multiset(AccountsOf(db.accounts, Authenticate(db, session).value.id))
    ensures r.Ok? ==>
      forall i :: 0 <= i < |r.value| ==>
        r.value[i].account in db.accounts && r.value[i].account.userId == Authenticate(db, session).value.id
    ensures r.Ok? ==>
      forall i, j :: 0 <= i < j < |r.value| ==> r.value[i].account.createdAt >= r.value[j].account.createdAt
    ensures r.Ok? ==>
      forall i :: 0 <= i < |r.value| ==>
        r.value[i].transactionCount == CountFor(db.transactions, r.value[i].account.id)
  {
    match Authenticate(db, session)
    case Err(e) => Err(e)
    case Ok(user) => Ok(AccountListOf(db, user.id))
  }

  /** The signed-in user's transactions, most recent date first. */
  function GetDashboardData(db: Db, session: Option<ClerkId>): (r: Result<seq<Transaction>, Error>)
    ensures Authenticate(db, session).Err? ==> r == Err(Authenticate(db, session).error)
    ensures r.Ok? <==> Authenticate(db, session).Ok?
    ensures r.Ok? ==>
      multiset(r.value) == multiset(TransactionsOf(db.transactions, Authenticate(db, session).value.id))
    ensures r.Ok? ==>
      forall k :: 0 <= k < |r.value| ==>
        r.value[k] in db.transactions && r.value[k].userId == Authenticate(db, session).value.id
    ensures r.Ok? ==>
      forall i, j :: 0 <= i < j < |r.value| ==> r.value[i].date >= r.value[j].date
  {
    match Authenticate(db, session)
    case Err(e) => Err(e)
    case Ok(user) =>
      var mine := TransactionsOf(db.transactions, user.id);
      var sorted := SortDesc(mine, (t: Transaction) => t.date);
      SameMultisetSameMembers(sorted, mine);
      Ok(sorted)
  }
}
