/** The transfer server action: debit one wallet, credit another, record the fee on a
    Transfer row and write the two linked rows under the internal-transfer
    subcategories. */
module TransferActions {
  import opened Ledger
  import opened Rates
  import opened LedgerSums
  import opened Store

  datatype CreateTransferInput = CreateTransferInput(
    fromWalletId: Id,
    toWalletId: Id,
    fromAmount: real,
    toAmount: real,
    fee: Option<real>,
    date: Date,
    description: Option<string>)

  /** The debit row on the source wallet. */
  function DebitRow(input: CreateTransferInput, fromRate: real, sub: Subcategory, transferId: Id): (row: TxRow)
    requires fromRate != 0.0
    ensures row.walletId == input.fromWalletId && row.txType == Expense && row.amount == -input.fromAmount
    ensures row.amountUSD * fromRate == -input.fromAmount
    ensures row.subcategoryId == sub.id && row.categoryId == sub.categoryId && row.transferId == Some(transferId)
  {
    TxRow(input.fromWalletId, Expense, -input.fromAmount, ToUsd(-input.fromAmount, fromRate),
          sub.categoryId, sub.id, input.date, None, input.description, None, None, Some(transferId))
  }

  /** The credit row on the destination wallet. */
  function CreditRow(input: CreateTransferInput, toRate: real, sub: Subcategory, transferId: Id): (row: TxRow)
    requires toRate != 0.0
    ensures row.walletId == input.toWalletId && row.txType == Income && row.amount == input.toAmount
    ensures row.amountUSD * toRate == input.toAmount
    ensures row.subcategoryId == sub.id && row.categoryId == sub.categoryId && row.transferId == Some(transferId)
  {
    TxRow(input.toWalletId, Income, input.toAmount, ToUsd(input.toAmount, toRate),
          sub.categoryId, sub.id, input.date, None, input.description, None, None, Some(transferId))
  }

  /** The Transfer row: the fee (0 when omitted) in the source currency and in dollars. */
  function FeeRow(input: CreateTransferInput, fromRate: real): (t: TransferRow)
    requires fromRate != 0.0
    ensures t.fee == input.fee.GetOr(0.0) && t.feeUSD * fromRate == t.fee
  {
    var fee := input.fee.GetOr(0.0);
    TransferRow(fee, ToUsd(fee, fromRate))
  }

  /** The two internal-transfer subcategories (income side, expense side), if both exist. */
  function TransferSentinels(subs: seq<Subcategory>, cats: seq<Category>): (r: Option<(Subcategory, Subcategory)>)
    ensures r.Some? <==>
      FindByNameAndType(subs, cats, InternalTransferName, Income).Some? &&
      FindByNameAndType(subs, cats, InternalTransferName, Expense).Some?
    ensures r.Some? ==>
      && r.value.0.name == InternalTransferName && UnderType(cats, r.value.0, Income)
      && r.value.1.name == InternalTransferName && UnderType(cats, r.value.1, Expense)
  {
    var incomeSubcategory := FindByNameAndType(subs, cats, InternalTransferName, Income);
    var expenseSubcategory := FindByNameAndType(subs, cats, InternalTransferName, Expense);
    if incomeSubcategory.None? || expenseSubcategory.None? then None
    else Some((incomeSubcategory.value, expenseSubcategory.value))
  }

  /** Exactly the rows `a` and `b` carry the link to transfer `t`. */
  predicate LinkedExactly(txs: map<Id, TxRow>, t: Id, a: Id, b: Id) {
    forall id | id in txs :: txs[id].transferId == Some(t) <==> id == a || id == b
  }

  /** Balances after the two wallet writes. When source and destination are one wallet
      the two writes race and the one issued last wins; `toWrittenLast` says which. */
  function AfterTransfer(wallets: map<Id, Wallet>, input: CreateTransferInput, toWrittenLast: bool): (r: map<Id, Wallet>)
    requires input.fromWalletId in wallets && input.toWalletId in wallets
    ensures r.Keys == wallets.Keys
    // one wallet on both sides: the write issued last is the one that stays
    ensures input.fromWalletId == input.toWalletId ==>
      r == Move(wallets, input.fromWalletId, if toWrittenLast then input.toAmount else -input.fromAmount)
  {
    var fromWallet := wallets[input.fromWalletId];
    var toWallet := wallets[input.toWalletId];
    var debited := fromWallet.(balance := fromWallet.balance - input.fromAmount);
    var credited := toWallet.(balance := toWallet.balance + input.toAmount);
    if toWrittenLast then wallets[input.fromWalletId := debited][input.toWalletId := credited]
    else wallets[input.toWalletId := credited][input.fromWalletId := debited]
  }

  /** What the checks of `createTransfer` establish before any write: the rates of the
      two wallets' currencies and the (income, expense) internal-transfer subcategories. */
  datatype Checked = Checked(fromRate: real, toRate: real, income: Subcategory, expense: Subcategory)

  /** The checks of `createTransfer`, in the order the source makes them: both wallets
      exist, neither resulting balance is below 0, both currencies have a rate, and both
      sentinel subcategories exist. */
  function CheckTransfer(t: Tables, subs: seq<Subcategory>, cats: seq<Category>, rates: Snapshot,
                         input: CreateTransferInput): (r: Result<Checked>)
    ensures input.fromWalletId !in t.wallets || input.toWalletId !in t.wallets ==> r == Err(WalletNotFound)
    ensures input.fromWalletId in t.wallets && input.toWalletId in t.wallets ==>
      var from := t.wallets[input.fromWalletId];
      var to := t.wallets[input.toWalletId];
      var funded := from.balance - input.fromAmount >= 0.0 && to.balance + input.toAmount >= 0.0;
      var rated := RateToUsd(rates, from.currency).Some? && RateToUsd(rates, to.currency).Some?;
      && (!funded ==> r == Err(InsufficientFunds))
      && (funded && !rated ==> r == Err(ExchangeRateNotFound))
      && (funded && rated && TransferSentinels(subs, cats).None? ==> r == Err(TransferSubcategoriesNotFound))
      && (funded && rated && TransferSentinels(subs, cats).Some? ==>
            && r.Ok?
            && Some(r.value.fromRate) == RateToUsd(rates, from.currency)
            && Some(r.value.toRate) == RateToUsd(rates, to.currency)
            && Some((r.value.income, r.value.expense)) == TransferSentinels(subs, cats))
    ensures r.Ok? ==> input.fromWalletId in t.wallets && input.toWalletId in t.wallets
    ensures r.Ok? ==> r.value.fromRate != 0.0 && r.value.toRate != 0.0
  {
    if input.fromWalletId !in t.wallets || input.toWalletId !in t.wallets then Err(WalletNotFound)
    else
      var fromWallet := t.wallets[input.fromWalletId];
      var toWallet := t.wallets[input.toWalletId];
      if fromWallet.balance - input.fromAmount < 0.0 || toWallet.balance + input.toAmount < 0.0 then
        Err(InsufficientFunds)
      else
        var fromRate := RateToUsd(rates, fromWallet.currency);
        var toRate := RateToUsd(rates, toWallet.currency);
        if fromRate.None? || toRate.None? then Err(ExchangeRateNotFound)
        else
          var sentinels := TransferSentinels(subs, cats);
          if sentinels.None? then Err(TransferSubcategoriesNotFound)
          else Ok(Checked(fromRate.value, toRate.value, sentinels.value.0, sentinels.value.1))
  }

  /** The writes of a checked transfer: the Transfer row with the fee, both balances,
      and the debit and credit rows linked to the transfer. */
  function TransferWrites(t: Tables, input: CreateTransferInput, toWrittenLast: bool, c: Checked,
                          transferId: Id, debitId: Id, creditId: Id): Tables
    requires input.fromWalletId in t.wallets && input.toWalletId in t.wallets
    requires c.fromRate != 0.0 && c.toRate != 0.0
  {
    Tables(
      AfterTransfer(t.wallets, input, toWrittenLast),
      t.transactions[debitId := DebitRow(input, c.fromRate, c.expense, transferId)]
                    [creditId := CreditRow(input, c.toRate, c.income, transferId)],
      t.transfers[transferId := FeeRow(input, c.fromRate)])
  }

  /** The tables after `createTransfer`, as one all-or-nothing step. `transferId`,
      `debitId` and `creditId` are the identifiers the database gives the new rows. */
  function CreateTransferOutcome(t: Tables, subs: seq<Subcategory>, cats: seq<Category>, rates: Snapshot,
                                 input: CreateTransferInput, toWrittenLast: bool,
                                 transferId: Id, debitId: Id, creditId: Id): (r: Result<Tables>)
    // it fails exactly when a check fails, with that check's error, and then writes nothing
    ensures var c := CheckTransfer(t, subs, cats, rates, input);
      (r.Err? <==> c.Err?) && (r.Err? ==> r.error == c.error)
    // on success: both balance writes, the Transfer row with the fee, and the two rows
    // linked to it; every other row stays as it was
    ensures r.Ok? ==> input.fromWalletId in t.wallets && input.toWalletId in t.wallets
    ensures r.Ok? ==> r.value.wallets == AfterTransfer(t.wallets, input, toWrittenLast)
    ensures r.Ok? ==> r.value.transfers == t.transfers[transferId := FeeRow(input, CheckTransfer(t, subs, cats, rates, input).value.fromRate)]
    ensures r.Ok? ==>
      var c := CheckTransfer(t, subs, cats, rates, input).value;
      && creditId in r.value.transactions
      && r.value.transactions[creditId] == CreditRow(input, c.toRate, c.income, transferId)
      && (debitId != creditId ==>
            && debitId in r.value.transactions
            && r.value.transactions[debitId] == DebitRow(input, c.fromRate, c.expense, transferId))
    ensures r.Ok? ==> r.value.transactions.Keys == t.transactions.Keys + {debitId, creditId}
    ensures r.Ok? ==> forall id | id in t.transactions && id != debitId && id != creditId ::
      r.value.transactions[id] == t.transactions[id]
  {
    var checked := CheckTransfer(t, subs, cats, rates, input);
    if checked.Err? then Err(checked.error)
    else Ok(TransferWrites(t, input, toWrittenLast, checked.value, transferId, debitId, creditId))
  }

  /** The checks of a transfer do not read its fee. */
  lemma CheckIgnoresFee(t: Tables, subs: seq<Subcategory>, cats: seq<Category>, rates: Snapshot,
                        input: CreateTransferInput, fee: Option<real>)
    ensures CheckTransfer(t, subs, cats, rates, input.(fee := fee)) == CheckTransfer(t, subs, cats, rates, input)
  {
  }

  /** The balance writes and the rows of a transfer do not read its fee. */
  lemma WritesIgnoreFee(t: Tables, input: CreateTransferInput, fee: Option<real>, toWrittenLast: bool, c: Checked,
                        transferId: Id, debitId: Id, creditId: Id)
    requires input.fromWalletId in t.wallets && input.toWalletId in t.wallets
    requires c.fromRate != 0.0 && c.toRate != 0.0
    ensures var w := TransferWrites(t, input, toWrittenLast, c, transferId, debitId, creditId);
      var v := TransferWrites(t, input.(fee := fee), toWrittenLast, c, transferId, debitId, creditId);
      w.wallets == v.wallets && w.transactions == v.transactions
  {
    var other := input.(fee := fee);
    assert AfterTransfer(t.wallets, other, toWrittenLast) == AfterTransfer(t.wallets, input, toWrittenLast);
    assert DebitRow(other, c.fromRate, c.expense, transferId) == DebitRow(input, c.fromRate, c.expense, transferId);
    assert CreditRow(other, c.toRate, c.income, transferId) == CreditRow(input, c.toRate, c.income, transferId);
  }

  /** The fee is recorded on the Transfer row only: two transfers that differ only in
      their fee pass the same checks and write the same balances and the same rows. */
  lemma FeeLeavesBalances(t: Tables, subs: seq<Subcategory>, cats: seq<Category>, rates: Snapshot,
                          input: CreateTransferInput, fee: Option<real>, toWrittenLast: bool,
                          transferId: Id, debitId: Id, creditId: Id)
    ensures var r := CreateTransferOutcome(t, subs, cats, rates, input, toWrittenLast, transferId, debitId, creditId);
      var q := CreateTransferOutcome(t, subs, cats, rates, input.(fee := fee), toWrittenLast, transferId, debitId, creditId);
      && r.Ok? == q.Ok?
      && (r.Ok? ==> r.value.wallets == q.value.wallets && r.value.transactions == q.value.transactions)
  {
    CheckIgnoresFee(t, subs, cats, rates, input, fee);
    var c := CheckTransfer(t, subs, cats, rates, input);
    if c.Ok? {
      WritesIgnoreFee(t, input, fee, toWrittenLast, c.value, transferId, debitId, creditId);
    }
  }

  /** After a transfer exactly its two rows carry its identifier, provided no earlier row
      did and the two row identifiers differ. */
  lemma TransferLinksPair(t: Tables, input: CreateTransferInput, toWrittenLast: bool, c: Checked,
                          transferId: Id, debitId: Id, creditId: Id)
    requires input.fromWalletId in t.wallets && input.toWalletId in t.wallets
    requires c.fromRate != 0.0 && c.toRate != 0.0
    requires debitId != creditId
    requires forall id | id in t.transactions :: t.transactions[id].transferId != Some(transferId)
    ensures LinkedExactly(TransferWrites(t, input, toWrittenLast, c, transferId, debitId, creditId).transactions,
                          transferId, debitId, creditId)
  {
    var txs := TransferWrites(t, input, toWrittenLast, c, transferId, debitId, creditId).transactions;
    forall id | id in txs ensures txs[id].transferId == Some(transferId) <==> id == debitId || id == creditId {
      if id != debitId && id != creditId {
        assert txs[id] == t.transactions[id];
      }
    }
  }

  /** Between two distinct wallets, a transfer keeps the ledger invariant: the debit row
      and the source balance move by `-fromAmount`, the credit row and the destination
      balance by `toAmount`. */
  lemma TransferKeepsBalanced(t: Tables, input: CreateTransferInput, toWrittenLast: bool, c: Checked,
                              transferId: Id, debitId: Id, creditId: Id)
    requires input.fromWalletId in t.wallets && input.toWalletId in t.wallets
    requires c.fromRate != 0.0 && c.toRate != 0.0
    requires Balanced(t.wallets, t.transactions)
    requires debitId != creditId && debitId !in t.transactions && creditId !in t.transactions
    requires input.fromWalletId != input.toWalletId
    ensures var u := TransferWrites(t, input, toWrittenLast, c, transferId, debitId, creditId);
      Balanced(u.wallets, u.transactions)
  {
    var debit := DebitRow(input, c.fromRate, c.expense, transferId);
    var credit := CreditRow(input, c.toRate, c.income, transferId);
    var debited := Move(t.wallets, input.fromWalletId, -input.fromAmount);
    InsertKeepsBalanced(t.wallets, t.transactions, debitId, debit);
    InsertKeepsBalanced(debited, t.transactions[debitId := debit], creditId, credit);
    DistinctWalletsCommute(t.wallets, input, toWrittenLast);
  }

  /** A transfer's writes keep every balance at or above 0 once the checks have passed. */
  lemma TransferKeepsNonNegative(t: Tables, subs: seq<Subcategory>, cats: seq<Category>, rates: Snapshot,
                                 input: CreateTransferInput, toWrittenLast: bool,
                                 transferId: Id, debitId: Id, creditId: Id)
    requires NonNegative(t.wallets)
    ensures var r := CreateTransferOutcome(t, subs, cats, rates, input, toWrittenLast, transferId, debitId, creditId);
      r.Ok? ==> NonNegative(r.value.wallets)
  {
  }

  /** A transfer uses only the fresh identifiers `n`, `n + 1` and `n + 2`. */
  lemma TransferKeepsIds(t: Tables, input: CreateTransferInput, toWrittenLast: bool, c: Checked, n: Id)
    requires input.fromWalletId in t.wallets && input.toWalletId in t.wallets
    requires c.fromRate != 0.0 && c.toRate != 0.0
    requires IdsBelow(t, n)
    ensures IdsBelow(TransferWrites(t, input, toWrittenLast, c, n, n + 1, n + 2), n + 3)
  {
  }

  /** Between two distinct wallets the order of the two balance writes does not matter:
      the result is the source moved by `-fromAmount` and the destination by `toAmount`. */
  lemma DistinctWalletsCommute(wallets: map<Id, Wallet>, input: CreateTransferInput, toWrittenLast: bool)
    requires input.fromWalletId in wallets && input.toWalletId in wallets
    requires input.fromWalletId != input.toWalletId
    ensures AfterTransfer(wallets, input, toWrittenLast) ==
      Move(Move(wallets, input.fromWalletId, -input.fromAmount), input.toWalletId, input.toAmount)
  {
    var from, to := input.fromWalletId, input.toWalletId;
    var debited := wallets[from].(balance := wallets[from].balance - input.fromAmount);
    var credited := wallets[to].(balance := wallets[to].balance + input.toAmount);
    var d := Move(wallets, from, -input.fromAmount);
    assert d == wallets[from := debited];
    assert d[to] == wallets[to];
    assert Move(d, to, input.toAmount) == wallets[from := debited][to := credited];
    if !toWrittenLast {
      assert wallets[to := credited][from := debited] == wallets[from := debited][to := credited];
    }
  }

  /** `createTransfer`, as one all-or-nothing step. */
  method CreateTransfer(db: Db, input: CreateTransferInput, toWrittenLast: bool) returns (r: Result<Id>)
    requires db.Valid()
    modifies db
    ensures db.Valid()
    ensures db.categories == old(db.categories) && db.subcategories == old(db.subcategories)
    ensures db.latestRates == old(db.latestRates)
    ensures var n := old(db.nextId);
      var outcome := CreateTransferOutcome(old(db.State()), db.subcategories, db.categories, db.latestRates,
                                           input, toWrittenLast, n, n + 1, n + 2);
      && (outcome.Err? ==> r == Err(outcome.error) && db.State() == old(db.State()))
      && (outcome.Ok? ==> r == Ok(n) && db.State() == outcome.value)
    ensures r.Ok? ==> LinkedExactly(db.transactions, r.value, r.value + 1, r.value + 2)
    ensures old(db.Balanced()) && input.fromWalletId != input.toWalletId ==> db.Balanced()
  {
    // the atomic block
    if input.fromWalletId !in db.wallets || input.toWalletId !in db.wallets {
      return Err(WalletNotFound);
    }
    var fromWallet := db.wallets[input.fromWalletId];
    var toWallet := db.wallets[input.toWalletId];
    var fromBalance := fromWallet.balance - input.fromAmount;
    var toBalance := toWallet.balance + input.toAmount;
    if fromBalance < 0.0 || toBalance < 0.0 {
      return Err(InsufficientFunds);
    }
    if db.latestRates.None? {
      return Err(ExchangeRateNotFound);
    }
    var fromRate := RateToUsd(db.latestRates, fromWallet.currency);
    var toRate := RateToUsd(db.latestRates, toWallet.currency);
    if fromRate.None? || toRate.None? {
      return Err(ExchangeRateNotFound);
    }
    // The source looks the subcategories up after writing the Transfer row and both
    // balances; in one atomic step a failed lookup here leaves no write behind.
    var sentinels := TransferSentinels(db.subcategories, db.categories);
    if sentinels.None? {
      return Err(TransferSubcategoriesNotFound);
    }
    var (incomeSubcategory, expenseSubcategory) := sentinels.value;
    var checked := Checked(fromRate.value, toRate.value, incomeSubcategory, expenseSubcategory);
    assert CheckTransfer(db.State(), db.subcategories, db.categories, db.latestRates, input) == Ok(checked);
    var transferId := RecordTransfer(db, input, toWrittenLast, checked);
    r := Ok(transferId);
  }

  /** The writes of a checked transfer: the Transfer row, both balances and the two
      linked rows, under three fresh identifiers. */
  method RecordTransfer(db: Db, input: CreateTransferInput, toWrittenLast: bool, checked: Checked)
    returns (transferId: Id)
    requires db.Valid()
    requires input.fromWalletId in db.wallets && input.toWalletId in db.wallets
    requires checked.fromRate != 0.0 && checked.toRate != 0.0
    modifies db
    ensures db.Valid()
    ensures db.categories == old(db.categories) && db.subcategories == old(db.subcategories)
    ensures db.latestRates == old(db.latestRates)
    ensures transferId == old(db.nextId)
    ensures db.State() == TransferWrites(old(db.State()), input, toWrittenLast, checked,
                                         transferId, transferId + 1, transferId + 2)
    ensures LinkedExactly(db.transactions, transferId, transferId + 1, transferId + 2)
    ensures old(db.Balanced()) && input.fromWalletId != input.toWalletId ==> db.Balanced()
  {
    ghost var before := db.State();
    // three fresh identifiers: the Transfer row and the two transaction rows
    transferId := db.nextId;
    var debitId, creditId := transferId + 1, transferId + 2;
    db.nextId := transferId + 3;
    db.transfers := db.transfers[transferId := FeeRow(input, checked.fromRate)];
    db.wallets := AfterTransfer(db.wallets, input, toWrittenLast);
    db.transactions := db.transactions[debitId := DebitRow(input, checked.fromRate, checked.expense, transferId)]
                                      [creditId := CreditRow(input, checked.toRate, checked.income, transferId)];
    TransferKeepsIds(before, input, toWrittenLast, checked, transferId);
    TransferLinksPair(before, input, toWrittenLast, checked, transferId, debitId, creditId);
    if old(db.Balanced()) && input.fromWalletId != input.toWalletId {
      TransferKeepsBalanced(before, input, toWrittenLast, checked, transferId, debitId, creditId);
    }
  }

  /** `createTransfer` as the source issues its writes. The callback given to
      `$transaction` writes through the global client rather than through its
      transaction handle, and it writes the Transfer row and both balances before it
      looks the internal-transfer subcategories up. The two row creates that follow
      spell the dollar column `amountUsd`, which the Transaction table does not have, so
      the client rejects both. Either failure leaves the three earlier writes in place.
      The result pairs the tables afterwards with the reported outcome. */
  function CreateTransferAsWritten(t: Tables, subs: seq<Subcategory>, cats: seq<Category>, rates: Snapshot,
                                   input: CreateTransferInput, toWrittenLast: bool,
                                   transferId: Id, debitId: Id, creditId: Id): (r: (Tables, Result<Id>))
    // no call succeeds, and none writes a transaction row
    ensures r.1.Err? && r.0.transactions == t.transactions
    // a check that fails before the writes reports its error and changes nothing
    ensures var c := CheckTransfer(t, subs, cats, rates, input);
      c.Err? && c.error != TransferSubcategoriesNotFound ==> r == (t, Err(c.error))
  {
    if input.fromWalletId !in t.wallets || input.toWalletId !in t.wallets then (t, Err(WalletNotFound))
    else
      var fromWallet := t.wallets[input.fromWalletId];
      var toWallet := t.wallets[input.toWalletId];
      if fromWallet.balance - input.fromAmount < 0.0 || toWallet.balance + input.toAmount < 0.0 then
        (t, Err(InsufficientFunds))
      else
        var fromRate := RateToUsd(rates, fromWallet.currency);
        var toRate := RateToUsd(rates, toWallet.currency);
        if fromRate.None? || toRate.None? then (t, Err(ExchangeRateNotFound))
        else
          var written := t.(wallets := AfterTransfer(t.wallets, input, toWrittenLast),
                            transfers := t.transfers[transferId := FeeRow(input, fromRate.value)]);
          var sentinels := TransferSentinels(subs, cats);
          if sentinels.None? then (written, Err(TransferSubcategoriesNotFound))
          else (written, Err(UnknownColumn))
  }

  /** As written, every transfer between two funded wallets with known rates fails: on
      the missing sentinel subcategories, or else on the rejected row creates. Either
      way the Transfer row and both moved balances stay, no row is written, and the
      ledger invariant that held before is broken once `fromAmount` is not 0. */
  lemma AsWrittenLeavesPartialWrites(t: Tables, subs: seq<Subcategory>, cats: seq<Category>, rates: Snapshot,
                                     input: CreateTransferInput, toWrittenLast: bool,
                                     transferId: Id, debitId: Id, creditId: Id)
    requires Balanced(t.wallets, t.transactions)
    requires input.fromWalletId in t.wallets && input.toWalletId in t.wallets
    requires input.fromWalletId != input.toWalletId && input.fromAmount != 0.0
    requires t.wallets[input.fromWalletId].balance - input.fromAmount >= 0.0
    requires t.wallets[input.toWalletId].balance + input.toAmount >= 0.0
    requires RateToUsd(rates, t.wallets[input.fromWalletId].currency).Some?
    requires RateToUsd(rates, t.wallets[input.toWalletId].currency).Some?
    ensures var (after, outcome) := CreateTransferAsWritten(t, subs, cats, rates, input, toWrittenLast,
                                                            transferId, debitId, creditId);
      && outcome == Err(if TransferSentinels(subs, cats).None? then TransferSubcategoriesNotFound else UnknownColumn)
      && transferId in after.transfers
      && after.transactions == t.transactions
      && after.wallets[input.fromWalletId].balance == t.wallets[input.fromWalletId].balance - input.fromAmount
      && after.wallets[input.toWalletId].balance == t.wallets[input.toWalletId].balance + input.toAmount
      && !Balanced(after.wallets, after.transactions)
  {
    var (after, outcome) := CreateTransferAsWritten(t, subs, cats, rates, input, toWrittenLast,
                                                   transferId, debitId, creditId);
    DistinctWalletsCommute(t.wallets, input, toWrittenLast);
    var w := input.fromWalletId;
    assert after.wallets[w].balance != LedgerSum(after.transactions, w);
  }

  /** As written against all-or-nothing: both report the same error on every failed
      check, and only the checks before the first write leave the tables as they were.
      The sentinel failure keeps the balance and Transfer writes, and where the
      all-or-nothing transfer succeeds, as written it fails on the row creates, keeping
      every write except the two rows. */
  lemma AsWrittenVersusAtomic(t: Tables, subs: seq<Subcategory>, cats: seq<Category>, rates: Snapshot,
                              input: CreateTransferInput, toWrittenLast: bool,
                              transferId: Id, debitId: Id, creditId: Id)
    ensures var (after, outcome) := CreateTransferAsWritten(t, subs, cats, rates, input, toWrittenLast,
                                                            transferId, debitId, creditId);
      var atomic := CreateTransferOutcome(t, subs, cats, rates, input, toWrittenLast, transferId, debitId, creditId);
      && (atomic.Err? ==> outcome == Err(atomic.error))
      && (atomic.Err? && atomic.error != TransferSubcategoriesNotFound ==> after == t)
      && (atomic == Err(TransferSubcategoriesNotFound) ==>
            && input.fromWalletId in t.wallets && input.toWalletId in t.wallets
            && after.wallets == AfterTransfer(t.wallets, input, toWrittenLast)
            && after.transfers.Keys == t.transfers.Keys + {transferId})
      && (atomic.Ok? ==> outcome == Err(UnknownColumn) && after == atomic.value.(transactions := t.transactions))
  {
  }
}
