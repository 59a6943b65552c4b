/** The demo bank's persistence rules: what `save()` of each model assigns, the
    balance check of `Transaction.save`, and the `update_account` post-save hook.
    Together they form a small state machine over one account whose balance never
    goes negative.

    Amounts are `DecimalField`s with two places, held here as whole hundredths.
    The clock, the random hexadecimal draws and the row id the database assigns on
    insert are inputs (`Env`).  An id of 0 stands for an unsaved instance, the case
    `not self.id` tests for. */
module Ledger {
  import opened Basics

  type Time = int
  type Cents = int
  type RowId = n: nat | n > 0 witness 1

  /** One `random.choice` over the sixteen hexadecimal digits: an index into them. */
  type HexDraw = d: nat | d < 16

  const HexDigits: string := "0123456789ABCDEF"
  const AccountNoLength: nat := 5
  const TransactionIdLength: nat := 10

  const OverdrawMessage: string :=
    "Transaction cannot be completed. Requested amount is greater than account balance."

  /** What one `save()` observes of the outside world. */
  datatype Env = Env(now: Time, hex: seq<HexDraw>, freshId: RowId)

  datatype Customer = Customer(id: nat, name: string, address: string, isActive: bool, lastUpdated: Option<Time>)

  datatype Account = Account(
    id: nat,
    owner: nat,
    accountNo: string,
    balance: Cents,
    creationDate: Option<Time>,
    lastWithdrawn: Option<Time>,
    lastDeposited: Option<Time>)

  datatype Transaction = Transaction(
    id: nat,
    account: nat,
    transactionId: string,
    transactionDate: Option<Time>,
    exchange: Cents,
    isFraudulent: bool,
    isReviewed: bool)

  datatype LedgerError = ValidationError(message: string)

  predicate IsHex(s: string) {
    forall i :: 0 <= i < |s| ==> s[i] in HexDigits
  }

  /** `''.join(random.choice('0123456789ABCDEF') for _ in range(k))` for the given draws. */
  function RandomHex(draws: seq<HexDraw>): (s: string)
    ensures |s| == |draws|
    ensures IsHex(s)
  {
    seq(|draws|, i requires 0 <= i < |draws| => HexDigits[draws[i]])
  }

  /** The id an instance has after the ORM's insert-or-update. */
  function Persisted(id: nat, env: Env): (r: nat)
    ensures r != 0
    ensures id != 0 ==> r == id
  {
    if id == 0 then env.freshId else id
  }

  /** `Customer.save`: always stamps `last_updated`, then persists. */
  function SaveCustomer(c: Customer, env: Env): (r: Customer)
    ensures r.lastUpdated == Some(env.now)
    ensures r.id != 0 && (c.id != 0 ==> r.id == c.id)
    ensures r.name == c.name && r.address == c.address && r.isActive == c.isActive
  {
    c.(lastUpdated := Some(env.now), id := Persisted(c.id, env))
  }

  /** `Account.save`: only an unsaved account draws a five-digit hexadecimal
      `account_no` and a `creation_date`; a saved one is persisted as it is. */
  function SaveAccount(a: Account, env: Env): (r: Account)
    requires |env.hex| >= AccountNoLength
    ensures a.id != 0 ==> r == a
    ensures a.id == 0 ==> |r.accountNo| == AccountNoLength && IsHex(r.accountNo)
                          && r.creationDate == Some(env.now) && r.id != 0
    ensures r.balance == a.balance && r.owner == a.owner
    ensures r.lastWithdrawn == a.lastWithdrawn && r.lastDeposited == a.lastDeposited
  {
    if a.id == 0 then
      a.(accountNo := RandomHex(env.hex[..AccountNoLength]), creationDate := Some(env.now), id := env.freshId)
    else a
  }

  /** `Transaction.is_deposit`. */
  predicate IsDeposit(t: Transaction) {
    t.exchange > 0
  }

  /** `Transaction.deposit_or_withdrawal`: a zero exchange counts as a withdrawal. */
  function DepositOrWithdrawal(t: Transaction): (r: string)
    ensures r == "deposit" <==> IsDeposit(t)
    ensures r == "withdrawal" <==> !IsDeposit(t)
  {
    if t.exchange > 0 then "deposit" else "withdrawal"
  }

  /** `Transaction.save` on a transaction of account `acc`: refuses, before anything is
      written, an exchange that would take the balance below zero; otherwise stamps the
      date, draws a fresh ten-digit hexadecimal id and persists.  The balance itself is
      moved by the post-save hook, not here. */
  function SaveTransaction(t: Transaction, acc: Account, env: Env): (r: Result<Transaction, LedgerError>)
    requires |env.hex| >= TransactionIdLength
    ensures r.Err? <==> acc.balance + t.exchange < 0
    ensures r.Err? ==> r.error == ValidationError(OverdrawMessage)
    ensures r.Ok? ==> && r.value.transactionDate == Some(env.now)
                      && |r.value.transactionId| == TransactionIdLength && IsHex(r.value.transactionId)
                      && r.value.exchange == t.exchange && r.value.account == t.account
                      && r.value.id != 0 && (t.id != 0 ==> r.value.id == t.id)
  {
    if acc.balance + t.exchange < 0 then Err(ValidationError(OverdrawMessage))
    else
      Ok(t.(transactionDate := Some(env.now),
            transactionId := RandomHex(env.hex[..TransactionIdLength]),
            id := Persisted(t.id, env)))
  }

  /** The `update_account` hook: adds the exchange to the balance, stamps
      `last_deposited` for a positive exchange and `last_withdrawn` otherwise, and
      saves the account. */
  function UpdateAccount(t: Transaction, acc: Account, env: Env): (r: Account)
    requires |env.hex| >= AccountNoLength
    ensures r.balance == acc.balance + t.exchange
    ensures IsDeposit(t) ==> r.lastDeposited == Some(env.now) && r.lastWithdrawn == acc.lastWithdrawn
    ensures !IsDeposit(t) ==> r.lastWithdrawn == Some(env.now) && r.lastDeposited == acc.lastDeposited
    ensures acc.id != 0 ==> r.id == acc.id && r.accountNo == acc.accountNo && r.creationDate == acc.creationDate
    ensures r.owner == acc.owner
  {
    var moved := acc.(balance := acc.balance + t.exchange);
    var stamped :=
      if t.exchange > 0 then moved.(lastDeposited := Some(env.now))
      else moved.(lastWithdrawn := Some(env.now));
    SaveAccount(stamped, env)
  }

  predicate EnvFits(env: Env) {
    |env.hex| >= TransactionIdLength
  }

  /** A save of `t` with the post-save hook connected for every save: the hook runs
      exactly when the save was accepted, whether or not the row is new. */
  function Commit(t: Transaction, acc: Account, saveEnv: Env, hookEnv: Env): (r: Result<(Transaction, Account), LedgerError>)
    requires EnvFits(saveEnv) && EnvFits(hookEnv)
    ensures r.Err? <==> acc.balance + t.exchange < 0
    ensures r.Ok? ==> r.value.1.balance == acc.balance + t.exchange && r.value.1.balance >= 0
    ensures r.Ok? ==> r.value.0 == SaveTransaction(t, acc, saveEnv).value
    ensures r.Ok? ==> r.value.1 == UpdateAccount(r.value.0, acc, hookEnv)
  {
    var saved :- SaveTransaction(t, acc, saveEnv);
    Ok((saved, UpdateAccount(saved, acc, hookEnv)))
  }

  /** The stamp the hook sets agrees with the transaction's own label. */
  lemma StampMatchesLabel(t: Transaction, acc: Account, env: Env)
    requires EnvFits(env)
    requires acc.lastDeposited != Some(env.now) && acc.lastWithdrawn != Some(env.now)
    ensures var r := UpdateAccount(t, acc, env);
            && (DepositOrWithdrawal(t) == "deposit" <==> r.lastDeposited == Some(env.now))
            && (DepositOrWithdrawal(t) == "withdrawal" <==> r.lastWithdrawn == Some(env.now))
  {
  }

  /** One attempt to save a transaction against the account. */
  datatype Attempt = Attempt(txn: Transaction, saveEnv: Env, hookEnv: Env)

  predicate AttemptFits(at: Attempt) {
    EnvFits(at.saveEnv) && EnvFits(at.hookEnv)
  }

  /** The account after a sequence of save attempts: an accepted save is followed by the
      hook, a refused one leaves the account as it was.  Starting from a non-negative
      balance the balance stays non-negative, and a saved account keeps its number and
      creation date. */
  function Run(acc: Account, attempts: seq<Attempt>): (r: Account)
    requires forall i :: 0 <= i < |attempts| ==> AttemptFits(attempts[i])
    ensures acc.balance >= 0 ==> r.balance >= 0
    ensures acc.id != 0 ==> r.id == acc.id && r.accountNo == acc.accountNo && r.creationDate == acc.creationDate
    decreases |attempts|
  {
    if |attempts| == 0 then acc
    else
      var n := |attempts| - 1;
      var before := Run(acc, attempts[..n]);
      var at := attempts[n];
      assert AttemptFits(attempts[n]);
      match Commit(at.txn, before, at.saveEnv, at.hookEnv)
      case Ok(p) => p.1
      case Err(_) => before
  }

  /** A refused attempt changes nothing; an accepted one moves the balance by its exchange. */
  lemma RunStep(acc: Account, attempts: seq<Attempt>, at: Attempt)
    requires forall i :: 0 <= i < |attempts| ==> AttemptFits(attempts[i])
    requires AttemptFits(at)
    ensures var before := Run(acc, attempts);
            var after := Run(acc, attempts + [at]);
            && (before.balance + at.txn.exchange < 0 ==> after == before)
            && (before.balance + at.txn.exchange >= 0 ==> after.balance == before.balance + at.txn.exchange)
  {
    assert (attempts + [at])[..|attempts|] == attempts;
  }

  /** Saving an already-saved transaction again applies its exchange a second time, and
      the second save is checked against the balance the first one left. */
  lemma ResaveAppliesAgain(t: Transaction, acc: Account, e1: Env, e2: Env, e3: Env, e4: Env)
    requires EnvFits(e1) && EnvFits(e2) && EnvFits(e3) && EnvFits(e4)
    requires Commit(t, acc, e1, e2).Ok?
    ensures var (t', acc') := Commit(t, acc, e1, e2).value;
            && (Commit(t', acc', e3, e4).Err? <==> acc.balance + 2 * t.exchange < 0)
            && (Commit(t', acc', e3, e4).Ok? ==> Commit(t', acc', e3, e4).value.1.balance == acc.balance + 2 * t.exchange)
            && (Commit(t', acc', e3, e4).Ok? ==> Commit(t', acc', e3, e4).value.0.id == t'.id)
  {
  }
}
