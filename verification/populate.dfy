/** `populate_models`: the sample-data loader run after migrations.  It does nothing
    when any customer exists; otherwise it creates five customers, an account for each
    with a random opening balance, and five random transactions per account, every one
    going through `Transaction.save` and the balance hook.

    Python's seeded generator is replaced by explicit draws (`Draws`); the database
    assigns ids in insertion order after the rows already present. */
module Populate {
  import opened Basics
  import opened Ledger

  const CustomerCount: nat := 5
  const TransactionsPerAccount: nat := 5
  const TransactionCount: nat := CustomerCount * TransactionsPerAccount

  /** Bounds of `random.randrange(100, 10000000)` for opening balances, in whole units. */
  const BalanceLow: int := 100
  const BalanceHigh: int := 10000000
  /** Bounds of `random.randrange(100, 1000000)`, from which 500000 is subtracted. */
  const ExchangeLow: int := 100
  const ExchangeHigh: int := 1000000
  const ExchangeShift: int := 500000
  /** The argument of `_get_random_boolean(0.8)` for `is_fraudulent`. */
  const FraudThreshold: real := 0.8

  const SampleCustomers: seq<(string, string)> := [
    ("Honey Bunny", "13763 Hawthorne Boulevard Hawthorne, CA 90250"),
    ("Jimmie", "4145 Kraft Avenue Studio City, CA 91604"),
    ("Butch Coolidge", "2934 Riverside Drive Los Angeles, CA 90039"),
    ("Marsellus Wallace", "1541 Summitridge Drive Beverly Hills, CA 90210"),
    ("Mia Wallace", "1541 Summitridge Drive Beverly Hills, CA 90210")
  ]

  /** `random.randrange(lo, hi)` given the offset `d` the generator drew below `hi - lo`. */
  function RandRange(lo: int, hi: int, d: nat): (r: int)
    requires lo < hi && d < hi - lo
    ensures lo <= r < hi
  {
    lo + d
  }

  /** Every value of the range is reachable. */
  lemma RandRangeOnto(lo: int, hi: int, x: int)
    requires lo <= x < hi
    ensures exists d: nat :: d < hi - lo && RandRange(lo, hi, d) == x
  {
    assert RandRange(lo, hi, (x - lo) as nat) == x;
  }

  /** An opening balance, in hundredths: a whole amount in [100, 9999999]. */
  function GeneratedBalance(d: nat): (r: Cents)
    requires d < BalanceHigh - BalanceLow
    ensures r % 100 == 0 && 100 * 100 <= r <= 9999999 * 100
  {
    RandRange(BalanceLow, BalanceHigh, d) * 100
  }

  /** A generated exchange, in hundredths: a whole amount in [-499900, 499999]. */
  function GeneratedExchange(d: nat): (r: Cents)
    requires d < ExchangeHigh - ExchangeLow
    ensures r % 100 == 0 && -499900 * 100 <= r <= 499999 * 100
  {
    (RandRange(ExchangeLow, ExchangeHigh, d) - ExchangeShift) * 100
  }

  /** Every whole amount of [-499900, 499999] can be generated as an exchange. */
  lemma GeneratedExchangeOnto(units: int)
    requires -499900 <= units <= 499999
    ensures exists d: nat :: d < ExchangeHigh - ExchangeLow && GeneratedExchange(d) == units * 100
  {
    var d: nat := units + ExchangeShift - ExchangeLow;
    assert GeneratedExchange(d) == units * 100;
  }

  /** Generated amounts fit their columns: `balance` has ten digits and `exchange`
      nine, two of them after the point. */
  lemma GeneratedValuesFitColumns(b: nat, e: nat)
    requires b < BalanceHigh - BalanceLow && e < ExchangeHigh - ExchangeLow
    ensures -10000000000 < GeneratedBalance(b) < 10000000000
    ensures -1000000000 < GeneratedExchange(e) < 1000000000
  {
  }

  /** `_get_random_boolean(p)` for the uniform draw `val`: despite its parameter's name,
      it answers `False` when `val < p`. */
  function RandomBoolean(trueProbability: real, val: real): (r: bool)
    ensures r <==> trueProbability <= val
  {
    if val < trueProbability then false else true
  }

  datatype Db = Db(customers: seq<Customer>, accounts: seq<Account>, transactions: seq<Transaction>)

  /** The generator's output for one run: a clock reading, five balance offsets,
      twenty-five exchange offsets and fraud draws, and the hexadecimal draws of the
      five account saves followed by the twenty-five transaction saves. */
  datatype Draws = Draws(now: Time, balances: seq<nat>, exchanges: seq<nat>, fraud: seq<real>, hex: seq<seq<HexDraw>>)

  predicate ValidDraws(d: Draws) {
    && |d.balances| == CustomerCount
    && (forall k :: 0 <= k < |d.balances| ==> d.balances[k] < BalanceHigh - BalanceLow)
    && |d.exchanges| == TransactionCount
    && (forall m :: 0 <= m < |d.exchanges| ==> d.exchanges[m] < ExchangeHigh - ExchangeLow)
    && |d.fraud| == TransactionCount
    && |d.hex| == CustomerCount + TransactionCount
    && (forall k :: 0 <= k < |d.hex| ==> |d.hex[k]| >= TransactionIdLength)
  }

  /** The five customers, saved in order. */
  function SeedCustomers(db: Db, d: Draws): (r: seq<Customer>)
    ensures |r| == CustomerCount
    ensures forall k :: 0 <= k < |r| ==> r[k].id != 0 && r[k].lastUpdated == Some(d.now)
                                         && r[k].name == SampleCustomers[k].0
  {
    seq(CustomerCount, k requires 0 <= k < CustomerCount =>
      SaveCustomer(Customer(0, SampleCustomers[k].0, SampleCustomers[k].1, true, None),
                   Env(d.now, [], |db.customers| + k + 1)))
  }

  /** One account per customer, opened with a generated balance. */
  function OpenAccounts(db: Db, d: Draws, customers: seq<Customer>): (r: seq<Account>)
    requires ValidDraws(d) && |customers| == CustomerCount
    ensures |r| == CustomerCount
    ensures forall k :: 0 <= k < |r| ==> r[k].balance >= 0 && r[k].owner == customers[k].id && r[k].id != 0
  {
    seq(CustomerCount, k requires 0 <= k < CustomerCount =>
      SaveAccount(Account(0, customers[k].id, "", GeneratedBalance(d.balances[k]), None, None, None),
                  Env(d.now, d.hex[k], |db.accounts| + k + 1)))
  }

  predicate NonNegative(accounts: seq<Account>) {
    forall k :: 0 <= k < |accounts| ==> accounts[k].balance >= 0
  }

  /** Transactions `m` onwards: the `m`-th belongs to account `m / 5`; the first refused
      save aborts the run.  Balances stay non-negative throughout. */
  function SeedTransactions(db: Db, d: Draws, accounts: seq<Account>, txns: seq<Transaction>, m: nat)
    : (r: Result<(seq<Account>, seq<Transaction>), LedgerError>)
    requires ValidDraws(d) && |accounts| == CustomerCount && m <= TransactionCount && |txns| == m
    ensures r.Ok? ==> |r.value.0| == CustomerCount && |r.value.1| == TransactionCount
    ensures r.Ok? ==> r.value.1[..m] == txns
    ensures r.Ok? && NonNegative(accounts) ==> NonNegative(r.value.0)
    decreases TransactionCount - m
  {
    if m == TransactionCount then Ok((accounts, txns))
    else
      var k := m / TransactionsPerAccount;
      var acc := accounts[k];
      var t := Transaction(0, acc.id, "", None, GeneratedExchange(d.exchanges[m]),
                           RandomBoolean(FraudThreshold, d.fraud[m]), false);
      var env := Env(d.now, d.hex[CustomerCount + m], |db.transactions| + m + 1);
      var p :- Commit(t, acc, env, env);
      var r := SeedTransactions(db, d, accounts[k := p.1], txns + [p.0], m + 1);
      assert r.Ok? ==> r.value.1[..m] == (txns + [p.0])[..m];
      r
  }

  /** `populate_models`. */
  function PopulateModels(db: Db, d: Draws): (r: Result<Db, LedgerError>)
    requires ValidDraws(d)
    ensures |db.customers| != 0 ==> r == Ok(db)
    ensures |db.customers| == 0 && r.Ok? ==>
              && |r.value.customers| == CustomerCount
              && |r.value.accounts| == |db.accounts| + CustomerCount
              && |r.value.transactions| == |db.transactions| + TransactionCount
              && r.value.accounts[..|db.accounts|] == db.accounts
              && r.value.transactions[..|db.transactions|] == db.transactions
              && NonNegative(r.value.accounts[|db.accounts|..])
  {
    if |db.customers| != 0 then Ok(db)
    else
      var customers := SeedCustomers(db, d);
      var accounts := OpenAccounts(db, d, customers);
      var seeded :- SeedTransactions(db, d, accounts, [], 0);
      var accounts' := db.accounts + seeded.0;
      assert accounts'[|db.accounts|..] == seeded.0;
      Ok(Db(db.customers + customers, accounts', db.transactions + seeded.1))
  }

  /** Running the loader again after it succeeded is a no-op, whatever it draws. */
  lemma PopulateIdempotent(db: Db, d: Draws, d': Draws)
    requires ValidDraws(d) && ValidDraws(d')
    requires PopulateModels(db, d).Ok?
    ensures PopulateModels(PopulateModels(db, d).value, d') == PopulateModels(db, d)
  {
  }
}
