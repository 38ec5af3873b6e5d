/** What the actions promise together: the database conditions every
    successful action keeps, the transaction counts the account list reports,
    and the worked sign-up scenario. */
module Properties {
  import opened Wrappers
  import opened Sequences
  import opened Store
  import opened Actions

  /** Appending a default account `a` to `before`, after clearing the other
      defaults of its user, keeps at most one default per user. */
  lemma AddDefaultKeepsAtMostOne(before: seq<Account>, after: seq<Account>, a: Account)
    requires AtMostOneDefault(before)
    requires |after| == |before| + 1 && after[|before|] == a
    requires forall i :: 0 <= i < |before| && before[i].userId != a.userId ==> after[i] == before[i]
    requires forall i :: 0 <= i < |before| ==> after[i].userId == before[i].userId
    requires forall i :: 0 <= i < |before| && after[i].userId == a.userId ==> !after[i].isDefault
    ensures AtMostOneDefault(after)
  {
    var n := |before|;
    forall i, j | 0 <= i < |after| && 0 <= j < |after| && after[i].isDefault && after[j].isDefault &&
      after[i].userId == after[j].userId
      ensures i == j
    {
      if i < n && j < n {
        assert after[i] == before[i] && after[j] == before[j];
      }
    }
  }

  /** Appending a default account `a` to `before`, after clearing the other
      defaults of its user, leaves every user who has accounts a default. */
  lemma AddDefaultKeepsDefaultExists(before: seq<Account>, after: seq<Account>, a: Account)
    requires DefaultExists(before)
    requires |after| == |before| + 1 && after[|before|] == a && a.isDefault
    requires forall i :: 0 <= i < |before| && before[i].userId != a.userId ==> after[i] == before[i]
    requires forall i :: 0 <= i < |before| ==> after[i].userId == before[i].userId
    ensures DefaultExists(after)
  {
    var n := |before|;
    forall i | 0 <= i < |after|
      ensures HasDefault(after, after[i].userId)
    {
      if after[i].userId == a.userId {
        assert after[n] == a;
      } else {
        var j :| 0 <= j < n && before[j].userId == before[i].userId && before[j].isDefault;
        assert after[j] == before[j];
      }
    }
  }

  /** Appending a non-default account `a` for a user who already has an
      account, leaving the others alone, keeps one default per user. */
  lemma AddNonDefaultKeepsSingleDefault(before: seq<Account>, after: seq<Account>, a: Account)
    requires SingleDefault(before)
    requires |after| == |before| + 1 && after[|before|] == a && !a.isDefault
    requires forall i :: 0 <= i < |before| ==> after[i] == before[i]
    requires exists i :: 0 <= i < |before| && before[i].userId == a.userId
    ensures SingleDefault(after)
  {
    var n := |before|;
    var k :| 0 <= k < n && before[k].userId == a.userId;
    forall i | 0 <= i < |after|
      ensures HasDefault(after, after[i].userId)
    {
      var m := if i < n then i else k;
      var j :| 0 <= j < n && before[j].userId == before[m].userId && before[j].isDefault;
      assert after[j] == before[j];
    }
  }

  /** A successful account creation keeps one default per user who has accounts. */
  lemma CreateAccountKeepsSingleDefault(
    db: Db, session: Option<ClerkId>, decision: RateDecision, data: AccountInput, now: int)
    requires SingleDefault(db.accounts)
    requires session.Some? && decision.Allowed? && data.parsedBalance.Some?
    requires FindUser(db.users, session.value).Some?
    ensures SingleDefault(CreateAccount(db, session, decision, data, now).value.0.accounts)
  {
    var r := CreateAccount(db, session, decision, data, now);
    var before, after, a := db.accounts, r.value.0.accounts, r.value.1;
    if a.isDefault {
      AddDefaultKeepsAtMostOne(before, after, a);
      AddDefaultKeepsDefaultExists(before, after, a);
    } else {
      assert forall i :: 0 <= i < |before| ==> after[i] == before[i] by {
        assert after[..|before|] == before;
      }
      AddNonDefaultKeepsSingleDefault(before, after, a);
    }
  }

  /** Appending accounts while keeping the ids and owners of the existing
      ones keeps every transaction attached to an account of its user. */
  lemma GrowAccountsKeepsTransactionsOwned(before: seq<Account>, after: seq<Account>, transactions: seq<Transaction>)
    requires TransactionsOwned(before, transactions)
    requires |before| <= |after|
    requires forall i :: 0 <= i < |before| ==> after[i].id == before[i].id && after[i].userId == before[i].userId
    ensures TransactionsOwned(after, transactions)
  {
    forall k | 0 <= k < |transactions|
      ensures OwnedAccountExists(after, transactions[k])
    {
      assert OwnedAccountExists(before, transactions[k]);
      var i :| 0 <= i < |before| && before[i].id == transactions[k].accountId &&
        before[i].userId == transactions[k].userId;
      assert after[i].id == before[i].id;
    }
  }

  /** A successful account creation keeps every database condition. */
  lemma CreateAccountKeepsValid(
    db: Db, session: Option<ClerkId>, decision: RateDecision, data: AccountInput, now: int)
    requires Valid(db)
    requires session.Some? && decision.Allowed? && data.parsedBalance.Some?
    requires FindUser(db.users, session.value).Some?
    ensures Valid(CreateAccount(db, session, decision, data, now).value.0)
  {
    var (db', a) := CreateAccount(db, session, decision, data, now).value;
    CreateAccountKeepsSingleDefault(db, session, decision, data, now);
    GrowAccountsKeepsTransactionsOwned(db.accounts, db'.accounts, db.transactions);
  }

  /** A successful transaction creation keeps every database condition. */
  lemma CreateTransactionKeepsValid(db: Db, session: Option<ClerkId>, data: TransactionInput)
    requires Valid(db)
    requires CreateTransaction(db, session, data).Ok?
    ensures Valid(CreateTransaction(db, session, data).value.0)
  {
    var (db', t) := CreateTransaction(db, session, data).value;
    var m := |db.transactions|;
    forall k | 0 <= k < |db'.transactions|
      ensures OwnedAccountExists(db'.accounts, db'.transactions[k])
    {
      if k < m {
        assert db'.transactions[k] == db.transactions[k];
      } else {
        assert db'.transactions[k] == t;
      }
    }
  }

  /** With unique account ids, a transaction is refused as invalid exactly
      when the signed-in user owns no account with the requested id. */
  lemma InvalidAccountIffNotOwned(db: Db, session: Option<ClerkId>, data: TransactionInput)
    requires UniqueAccountIds(db.accounts)
    requires Authenticate(db, session).Ok?
    ensures CreateTransaction(db, session, data) == Err(InvalidAccount) <==>
      forall i :: 0 <= i < |db.accounts| && db.accounts[i].id == data.accountId ==>
        db.accounts[i].userId != Authenticate(db, session).value.id
  {
    var found := FindAccount(db.accounts, data.accountId);
    if found.Some? {
      var k :| 0 <= k < |db.accounts| && db.accounts[k] == found.value;
      assert forall i :: 0 <= i < |db.accounts| && db.accounts[i].id == data.accountId ==> i == k;
    }
  }

  /** A recorded transaction adds one to the count of its own account and
      leaves the count of every other account as it was. */
  lemma CreateTransactionCounts(db: Db, session: Option<ClerkId>, data: TransactionInput, id: AccountId)
    requires CreateTransaction(db, session, data).Ok?
    ensures
      var db' := CreateTransaction(db, session, data).value.0;
      CountFor(db'.transactions, id) ==
        CountFor(db.transactions, id) + (if id == data.accountId then 1 else 0)
  {
    var (db', t) := CreateTransaction(db, session, data).value;
    FilterAppend(db.transactions, [t], AgainstAccount(id));
  }

  /** A freshly created account has no transactions recorded against it. */
  lemma NewAccountHasNoTransactions(
    db: Db, session: Option<ClerkId>, decision: RateDecision, data: AccountInput, now: int)
    requires TransactionsOwned(db.accounts, db.transactions)
    requires session.Some? && decision.Allowed? && data.parsedBalance.Some?
    requires FindUser(db.users, session.value).Some?
    ensures
      var (db', a) := CreateAccount(db, session, decision, data, now).value;
      CountFor(db'.transactions, a.id) == 0
  {
    var (db', a) := CreateAccount(db, session, decision, data, now).value;
    forall k | 0 <= k < |db.transactions|
      ensures db.transactions[k].accountId != a.id
    {
      assert OwnedAccountExists(db.accounts, db.transactions[k]);
    }
  }

  /** A `userId` carried in either form is overridden by the signed-in
      user's id, so it has no effect on what is written. */
  lemma PayloadUserIdIsIgnored(
    db: Db, session: Option<ClerkId>, decision: RateDecision,
    account: AccountInput, transaction: TransactionInput, now: int, forged: UserId)
    ensures CreateAccount(db, session, decision, account.(userId := Some(forged)), now) ==
            CreateAccount(db, session, decision, account, now)
    ensures CreateTransaction(db, session, transaction.(userId := Some(forged))) ==
            CreateTransaction(db, session, transaction)
  {
  }

  /** One request to the server. */
  datatype Request =
    | NewAccount(session: Option<ClerkId>, decision: RateDecision, account: AccountInput, now: int)
    | NewTransaction(session: Option<ClerkId>, transaction: TransactionInput)

  /** The database after one request: the new one when the action succeeds,
      the old one when it fails. */
  function Step(db: Db, req: Request): Db
  {
    match req
    case NewAccount(session, decision, data, now) =>
      (match CreateAccount(db, session, decision, data, now)
       case Ok((db', _)) => db'
       case Err(_) => db)
    case NewTransaction(session, data) =>
      (match CreateTransaction(db, session, data)
       case Ok((db', _)) => db'
       case Err(_) => db)
  }

  /** The database after a series of requests, served one at a time. */
  function Run(db: Db, reqs: seq<Request>): Db
    decreases |reqs|
  {
    if |reqs| == 0 then db else Run(Step(db, reqs[0]), reqs[1..])
  }

  /** Every series of requests, successful or not, keeps every database
      condition; in particular each user keeps exactly one default account
      once the user has any account. */
  lemma {:induction false} RunKeepsValid(db: Db, reqs: seq<Request>)
    requires Valid(db)
    ensures Valid(Run(db, reqs))
    decreases |reqs|
  {
    if |reqs| > 0 {
      match reqs[0] {
        case NewAccount(session, decision, data, now) =>
          if CreateAccount(db, session, decision, data, now).Ok? {
            CreateAccountKeepsValid(db, session, decision, data, now);
          }
        case NewTransaction(session, data) =>
          if CreateTransaction(db, session, data).Ok? {
            CreateTransactionKeepsValid(db, session, data);
          }
      }
      RunKeepsValid(Step(db, reqs[0]), reqs[1..]);
    }
  }

  /** A user with no accounts opens "Checking" without asking for a default
      and gets it as the default anyway; opening "Savings" as the default
      then moves the flag from "Checking" to "Savings". */
  lemma SignUpScenario()
    ensures
      var db := Db([User(1, "u1")], [], []);
      var checking := AccountInput("Checking", "CURRENT", Some(10050), false, None);
      var savings := AccountInput("Savings", "SAVINGS", Some(5000), true, None);
      var r1 := CreateAccount(db, Some("u1"), Allowed, checking, 1);
      && r1.Ok? && r1.value.1.isDefault && r1.value.1.balance == 10050
      && var r2 := CreateAccount(r1.value.0, Some("u1"), Allowed, savings, 2);
      && r2.Ok? && r2.value.1.isDefault
      && |r2.value.0.accounts| == 2
      && r2.value.0.accounts[0].name == "Checking" && !r2.value.0.accounts[0].isDefault
  {
  }
}
