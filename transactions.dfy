/** The transaction server actions: create, update and delete one ledger row, moving
    the owning wallet's balance by the same amount and refusing any balance below 0.
    Each action is one all-or-nothing step: a failed call changes nothing. */
module TransactionActions {
  import opened Ledger
  import opened Rates
  import opened LedgerSums
  import opened Store

  datatype CreateTransactionInput = CreateTransactionInput(
    walletId: Id,
    amount: real,
    date: Date,
    txType: TxType,
    categoryId: Id,
    subcategoryId: Id,
    entity: Option<string>,
    description: Option<string>)

  datatype UpdateTransactionInput = UpdateTransactionInput(
    id: Id,
    walletId: Id,
    amount: real,
    date: Date,
    txType: TxType,
    categoryId: Id,
    subcategoryId: Id,
    entity: Option<string>,
    description: Option<string>)

  /** The sign rule: the caller gives an expense as a positive magnitude and it is
      stored negated; income and adjustment amounts are stored as given. */
  function SignedAmount(txType: TxType, amount: real): (r: real)
    ensures Abs(r) == Abs(amount)
    ensures txType == Expense ==> r == -amount
    ensures txType != Expense ==> r == amount
    ensures amount >= 0.0 ==> (txType == Expense ==> r <= 0.0) && (txType == Income ==> r >= 0.0)
  {
    if txType == Expense then -amount else amount
  }

  /** The dollar value an update stores: the new amount at the previous row's implied
      rate (`prevUsd / prevAmount`); the live rate is not read again. */
  function ProportionalUsd(amount: real, prevAmount: real, prevUsd: real): (usd: real)
    requires prevAmount != 0.0
    ensures usd * prevAmount == amount * prevUsd
  {
    amount * prevUsd / prevAmount
  }

  /** A row whose dollar value was derived at some rate keeps that rate across an
      update: the proportional value equals converting the new amount at that rate. */
  lemma ProportionalKeepsRate(amount: real, prevAmount: real, rate: real)
    requires prevAmount != 0.0 && rate != 0.0
    ensures ProportionalUsd(amount, prevAmount, ToUsd(prevAmount, rate)) == ToUsd(amount, rate)
  {
    var p := ToUsd(prevAmount, rate);
    var u := ProportionalUsd(amount, prevAmount, p);
    calc {
      u * prevAmount * rate;
      amount * p * rate;
      { assert p * rate == prevAmount; }
      amount * prevAmount;
    }
    assert (u * rate) * prevAmount == amount * prevAmount;
    assert u * rate == amount;
  }

  /** The row `createTransaction` inserts: the caller's fields with the signed amount
      and its dollar value; the wallet-only balance fields and the transfer link are
      left empty. */
  function CreatedRow(input: CreateTransactionInput, amount: real, amountUSD: real): (row: TxRow)
    ensures row.walletId == input.walletId && row.txType == input.txType
    ensures row.amount == amount && row.amountUSD == amountUSD
    ensures row.categoryId == input.categoryId && row.subcategoryId == input.subcategoryId && row.date == input.date
    ensures row.entity == input.entity && row.description == input.description
    // not a wallet adjustment and not part of a transfer
    ensures row.previousBalance.None? && row.newBalance.None? && row.transferId.None?
  {
    TxRow(input.walletId, input.txType, amount, amountUSD, input.categoryId, input.subcategoryId,
          input.date, input.entity, input.description, None, None, None)
  }

  /** The row `updateTransaction` writes: the caller's fields over the old row. Fields the
      caller leaves undefined (entity, description) keep their stored value. */
  function UpdatedRow(prev: TxRow, input: UpdateTransactionInput, amount: real, amountUSD: real): (row: TxRow)
    ensures row.walletId == input.walletId && row.txType == input.txType
    ensures row.amount == amount && row.amountUSD == amountUSD
    ensures row.categoryId == input.categoryId && row.subcategoryId == input.subcategoryId && row.date == input.date
    // an omitted optional field keeps its stored value
    ensures row.entity == (if input.entity.None? then prev.entity else input.entity)
    ensures row.description == (if input.description.None? then prev.description else input.description)
    // the balance fields and the transfer link are not among the caller's fields
    ensures row.previousBalance == prev.previousBalance && row.newBalance == prev.newBalance
    ensures row.transferId == prev.transferId
  {
    prev.(walletId := input.walletId, txType := input.txType, amount := amount, amountUSD := amountUSD,
          categoryId := input.categoryId, subcategoryId := input.subcategoryId, date := input.date,
          entity := if input.entity.Some? then input.entity else prev.entity,
          description := if input.description.Some? then input.description else prev.description)
  }

  /** The tables after `createTransaction`, where `id` is the identifier the database
      gives the new row. */
  function CreateTransactionOutcome(t: Tables, rates: Snapshot, input: CreateTransactionInput, id: Id): (r: Result<Tables>)
    // the guards, in the order the source checks them
    ensures input.walletId !in t.wallets ==> r == Err(WalletNotFound)
    ensures input.walletId in t.wallets ==>
      var w := t.wallets[input.walletId];
      var rate := RateToUsd(rates, w.currency);
      && (rate.None? ==> r == Err(ExchangeRateNotFound))
      && (rate.Some? ==> (r.Err? <==> w.balance + SignedAmount(input.txType, input.amount) < 0.0))
      && (rate.Some? && r.Err? ==> r == Err(InsufficientFunds))
    // on success: one new row carrying the signed amount and its dollar value at the
    // current rate, and the wallet moved by exactly that amount
    ensures r.Ok? ==>
      && input.walletId in t.wallets
      && RateToUsd(rates, t.wallets[input.walletId].currency).Some?
      && id in r.value.transactions
      && var row := r.value.transactions[id];
         && r.value.transactions == t.transactions[id := row]
         && row == CreatedRow(input, row.amount, row.amountUSD)
         && row.amount == SignedAmount(input.txType, input.amount)
         && row.amountUSD * RateToUsd(rates, t.wallets[input.walletId].currency).value == row.amount
         && r.value.wallets == Move(t.wallets, input.walletId, row.amount)
         && r.value.wallets[input.walletId].balance >= 0.0
         && r.value.transfers == t.transfers
    ensures r.Ok? && NonNegative(t.wallets) ==> NonNegative(r.value.wallets)
  {
    if input.walletId !in t.wallets then Err(WalletNotFound)
    else
      var existentWallet := t.wallets[input.walletId];
      var rateToUsd := RateToUsd(rates, existentWallet.currency);
      if rateToUsd.None? then Err(ExchangeRateNotFound)
      else
        var amount := SignedAmount(input.txType, input.amount);
        var newBalance := existentWallet.balance + amount;
        if newBalance < 0.0 then Err(InsufficientFunds)
        else
          Ok(t.(transactions := t.transactions[id := CreatedRow(input, amount, ToUsd(amount, rateToUsd.value))],
                wallets := t.wallets[input.walletId := existentWallet.(balance := newBalance)]))
  }

  /** A created row and its wallet's balance move together, so the ledger invariant holds
      after a create whenever it held before and `id` was unused. */
  lemma CreateTransactionKeepsBalanced(t: Tables, rates: Snapshot, input: CreateTransactionInput, id: Id)
    requires Balanced(t.wallets, t.transactions) && id !in t.transactions
    ensures var r := CreateTransactionOutcome(t, rates, input, id);
      r.Ok? ==> Balanced(r.value.wallets, r.value.transactions)
  {
    var r := CreateTransactionOutcome(t, rates, input, id);
    if r.Ok? {
      InsertKeepsBalanced(t.wallets, t.transactions, id, r.value.transactions[id]);
    }
  }

  /** A create uses only the fresh identifier `n` and an existing wallet. */
  lemma CreateTransactionKeepsIds(t: Tables, rates: Snapshot, input: CreateTransactionInput, n: Id)
    requires IdsBelow(t, n)
    ensures var r := CreateTransactionOutcome(t, rates, input, n);
      r.Ok? ==> IdsBelow(r.value, n + 1)
  {
  }

  /** `createTransaction`. */
  method CreateTransaction(db: Db, input: CreateTransactionInput) returns (r: Result<Id>)
    requires db.Valid()
    modifies db
    ensures db.Valid()
    ensures db.categories == old(db.categories) && db.subcategories == old(db.subcategories)
    ensures db.latestRates == old(db.latestRates)
    ensures var outcome := CreateTransactionOutcome(old(db.State()), db.latestRates, input, old(db.nextId));
      && (outcome.Err? ==> r == Err(outcome.error) && db.State() == old(db.State()))
      && (outcome.Ok? ==> r == Ok(old(db.nextId)) && db.State() == outcome.value)
    ensures old(db.Balanced()) ==> db.Balanced()
  {
    if input.walletId !in db.wallets {
      return Err(WalletNotFound);
    }
    var existentWallet := db.wallets[input.walletId];
    if db.latestRates.None? {
      return Err(ExchangeRateNotFound);
    }
    var rateToUsd := RateToUsd(db.latestRates, existentWallet.currency);
    if rateToUsd.None? {
      return Err(ExchangeRateNotFound);
    }
    // the atomic block
    var amount := SignedAmount(input.txType, input.amount);
    var previousBalance := existentWallet.balance;
    var newBalance := previousBalance + amount;
    if newBalance < 0.0 {
      return Err(InsufficientFunds);
    }
    var id := db.NewId();
    db.transactions := db.transactions[id := CreatedRow(input, amount, ToUsd(amount, rateToUsd.value))];
    db.wallets := db.wallets[input.walletId := existentWallet.(balance := newBalance)];
    CreateTransactionKeepsIds(old(db.State()), db.latestRates, input, id);
    if old(db.Balanced()) {
      CreateTransactionKeepsBalanced(old(db.State()), db.latestRates, input, id);
    }
    r := Ok(id);
  }

  /** The wallet writes of `updateTransaction`: on one wallet a single write of
      `balance - old amount + new amount`; across two wallets the old one gives back the
      old amount and the new one takes the new amount. */
  function RebalancedWallets(wallets: map<Id, Wallet>, prev: TxRow, walletId: Id, amount: real): (r: Result<map<Id, Wallet>>)
    requires prev.walletId in wallets && walletId in wallets
    ensures r.Err? <==>
      if prev.walletId == walletId then wallets[walletId].balance - prev.amount + amount < 0.0
      else wallets[prev.walletId].balance - prev.amount < 0.0 || wallets[walletId].balance + amount < 0.0
    ensures r.Err? ==> r.error == InsufficientFunds
    ensures r.Ok? ==> r.value == Move(Move(wallets, prev.walletId, -prev.amount), walletId, amount)
    ensures r.Ok? && NonNegative(wallets) ==> NonNegative(r.value)
  {
    var prevWallet := wallets[prev.walletId];
    if prev.walletId == walletId then
      var newBalance := prevWallet.balance - prev.amount + amount;
      if newBalance < 0.0 then Err(InsufficientFunds)
      else Ok(wallets[prev.walletId := prevWallet.(balance := newBalance)])
    else
      var newWallet := wallets[walletId];
      var prevWalletNewBalance := prevWallet.balance - prev.amount;
      var newWalletNewBalance := newWallet.balance + amount;
      if prevWalletNewBalance < 0.0 || newWalletNewBalance < 0.0 then Err(InsufficientFunds)
      else Ok(wallets[prev.walletId := prevWallet.(balance := prevWalletNewBalance)]
                     [walletId := newWallet.(balance := newWalletNewBalance)])
  }

  /** The tables after `updateTransaction`. The row may move to another wallet: the old
      wallet then gives back the old amount and the new wallet takes the new one. */
  function UpdateTransactionOutcome(t: Tables, input: UpdateTransactionInput): (r: Result<Tables>)
    // on success: the row is rewritten in place, its dollar value keeps the old row's
    // implied rate, and each wallet gives back or takes its share of the change
    ensures r.Ok? ==>
      && input.id in t.transactions && input.walletId in t.wallets
      && t.transactions[input.id].walletId in t.wallets
      && input.id in r.value.transactions
      && var prev := t.transactions[input.id];
         var row := r.value.transactions[input.id];
         && prev.amount != 0.0
         && r.value.transactions == t.transactions[input.id := row]
         && row == UpdatedRow(prev, input, row.amount, row.amountUSD)
         && row.amount == SignedAmount(input.txType, input.amount)
         && row.amountUSD == ProportionalUsd(row.amount, prev.amount, prev.amountUSD)
         && r.value.wallets == Move(Move(t.wallets, prev.walletId, -prev.amount), input.walletId, row.amount)
         && r.value.transfers == t.transfers
    ensures r.Ok? && NonNegative(t.wallets) ==> NonNegative(r.value.wallets)
  {
    if input.id !in t.transactions then Err(TransactionNotFound)
    else
      var prevTransaction := t.transactions[input.id];
      if input.walletId !in t.wallets then Err(WalletNotFound)
      else
        // `prevTransaction.wallet` is the joined wallet row; it is null once that wallet is deleted
        if prevTransaction.walletId !in t.wallets then Err(WalletRelationMissing)
        else
          var amount := SignedAmount(input.txType, input.amount);
          var wallets := RebalancedWallets(t.wallets, prevTransaction, input.walletId, amount);
          if wallets.Err? then Err(wallets.error)
          else if prevTransaction.amount == 0.0 then Err(UsdUndefined)
          else
            var amountUSD := ProportionalUsd(amount, prevTransaction.amount, prevTransaction.amountUSD);
            Ok(t.(wallets := wallets.value,
                  transactions := t.transactions[input.id := UpdatedRow(prevTransaction, input, amount, amountUSD)]))
  }

  /** The guards of `updateTransaction`, in the order the source checks them: the row,
      the target wallet, the row's own wallet, the balances, then the stored amount the
      dollar value is derived from. */
  lemma UpdateTransactionGuards(t: Tables, input: UpdateTransactionInput)
    ensures input.id !in t.transactions ==> UpdateTransactionOutcome(t, input) == Err(TransactionNotFound)
    ensures input.id in t.transactions && input.walletId !in t.wallets ==>
      UpdateTransactionOutcome(t, input) == Err(WalletNotFound)
    ensures input.id in t.transactions && input.walletId in t.wallets ==>
      var r := UpdateTransactionOutcome(t, input);
      var prev := t.transactions[input.id];
      var amount := SignedAmount(input.txType, input.amount);
      && (prev.walletId !in t.wallets ==> r == Err(WalletRelationMissing))
      && (prev.walletId in t.wallets ==>
            var pw := t.wallets[prev.walletId];
            var nw := t.wallets[input.walletId];
            var funded := if prev.walletId == input.walletId
                          then pw.balance - prev.amount + amount >= 0.0
                          else pw.balance - prev.amount >= 0.0 && nw.balance + amount >= 0.0;
            && (!funded ==> r == Err(InsufficientFunds))
            && (funded && prev.amount == 0.0 ==> r == Err(UsdUndefined))
            && (funded && prev.amount != 0.0 ==> r.Ok?))
  {
  }

  /** Rewriting a row and moving both wallets by their share keeps the ledger invariant. */
  lemma UpdateTransactionKeepsBalanced(t: Tables, input: UpdateTransactionInput)
    requires Balanced(t.wallets, t.transactions)
    ensures var r := UpdateTransactionOutcome(t, input);
      r.Ok? ==> Balanced(r.value.wallets, r.value.transactions)
  {
    var r := UpdateTransactionOutcome(t, input);
    if r.Ok? {
      ReplaceKeepsBalanced(t.wallets, t.transactions, input.id, r.value.transactions[input.id]);
    }
  }

  /** An update rewrites a row in place onto an existing wallet. */
  lemma UpdateTransactionKeepsIds(t: Tables, input: UpdateTransactionInput, n: Id)
    requires IdsBelow(t, n)
    ensures var r := UpdateTransactionOutcome(t, input);
      r.Ok? ==> IdsBelow(r.value, n)
  {
  }

  /** `updateTransaction`. */
  method UpdateTransaction(db: Db, input: UpdateTransactionInput) returns (r: Result<Id>)
    requires db.Valid()
    modifies db
    ensures db.Valid()
    ensures db.categories == old(db.categories) && db.subcategories == old(db.subcategories)
    ensures db.latestRates == old(db.latestRates) && db.nextId == old(db.nextId)
    ensures var outcome := UpdateTransactionOutcome(old(db.State()), input);
      && (outcome.Err? ==> r == Err(outcome.error) && db.State() == old(db.State()))
      && (outcome.Ok? ==> r == Ok(input.id) && db.State() == outcome.value)
    ensures old(db.Balanced()) ==> db.Balanced()
  {
    if input.id !in db.transactions {
      return Err(TransactionNotFound);
    }
    var prevTransaction := db.transactions[input.id];
    if input.walletId !in db.wallets {
      return Err(WalletNotFound);
    }
    var newWallet := db.wallets[input.walletId];
    if prevTransaction.walletId !in db.wallets {
      return Err(WalletRelationMissing);
    }
    var prevWallet := db.wallets[prevTransaction.walletId];
    // the atomic block
    var amount := SignedAmount(input.txType, input.amount);
    if prevTransaction.walletId == input.walletId {
      var newBalance := prevWallet.balance - prevTransaction.amount + amount;
      if newBalance < 0.0 {
        return Err(InsufficientFunds);
      }
      if prevTransaction.amount == 0.0 {
        return Err(UsdUndefined);
      }
      db.wallets := db.wallets[prevTransaction.walletId := prevWallet.(balance := newBalance)];
    } else {
      var prevWalletNewBalance := prevWallet.balance - prevTransaction.amount;
      if prevWalletNewBalance < 0.0 {
        return Err(InsufficientFunds);
      }
      var newWalletNewBalance := newWallet.balance + amount;
      if newWalletNewBalance < 0.0 {
        return Err(InsufficientFunds);
      }
      if prevTransaction.amount == 0.0 {
        return Err(UsdUndefined);
      }
      db.wallets := db.wallets[prevTransaction.walletId := prevWallet.(balance := prevWalletNewBalance)];
      db.wallets := db.wallets[input.walletId := newWallet.(balance := newWalletNewBalance)];
    }
    var row := UpdatedRow(prevTransaction, input, amount,
                          ProportionalUsd(amount, prevTransaction.amount, prevTransaction.amountUSD));
    db.transactions := db.transactions[input.id := row];
    UpdateTransactionKeepsIds(old(db.State()), input, db.nextId);
    if old(db.Balanced()) {
      UpdateTransactionKeepsBalanced(old(db.State()), input);
    }
    r := Ok(input.id);
  }

  /** The tables after `deleteTransaction` of row `id`. */
  function DeleteTransactionOutcome(t: Tables, id: Id): (r: Result<Tables>)
    // the guards, in the order the source checks them
    ensures id !in t.transactions ==> r == Err(TransactionNotFound)
    ensures id in t.transactions ==>
      var tx := t.transactions[id];
      && (tx.walletId !in t.wallets ==> r == Err(WalletNotFound))
      && (tx.walletId in t.wallets ==>
            (r.Err? <==> t.wallets[tx.walletId].balance - tx.amount < 0.0) && (r.Err? ==> r == Err(InsufficientFunds)))
    // on success: the row is gone and its wallet gave back exactly its amount
    ensures r.Ok? ==>
      && id in t.transactions
      && t.transactions[id].walletId in t.wallets
      && r.value.transactions == t.transactions - {id}
      && r.value.wallets == Move(t.wallets, t.transactions[id].walletId, -t.transactions[id].amount)
      && r.value.wallets[t.transactions[id].walletId].balance >= 0.0
      && r.value.transfers == t.transfers
    ensures r.Ok? && NonNegative(t.wallets) ==> NonNegative(r.value.wallets)
  {
    if id !in t.transactions then Err(TransactionNotFound)
    else
      var existentTransaction := t.transactions[id];
      if existentTransaction.walletId !in t.wallets then Err(WalletNotFound)
      else
        var existentWallet := t.wallets[existentTransaction.walletId];
        var newBalance := existentWallet.balance - existentTransaction.amount;
        if newBalance < 0.0 then Err(InsufficientFunds)
        else
          Ok(t.(wallets := t.wallets[existentTransaction.walletId := existentWallet.(balance := newBalance)],
                transactions := t.transactions - {id}))
  }

  /** Removing a row and giving its amount back keeps the ledger invariant. */
  lemma DeleteTransactionKeepsBalanced(t: Tables, id: Id)
    requires Balanced(t.wallets, t.transactions)
    ensures var r := DeleteTransactionOutcome(t, id);
      r.Ok? ==> Balanced(r.value.wallets, r.value.transactions)
  {
    if DeleteTransactionOutcome(t, id).Ok? {
      RemoveKeepsBalanced(t.wallets, t.transactions, id);
    }
  }

  /** Deleting a row just created undoes the create: the same tables come back. */
  lemma CreateThenDeleteRestores(t: Tables, rates: Snapshot, input: CreateTransactionInput, id: Id)
    requires id !in t.transactions
    ensures var created := CreateTransactionOutcome(t, rates, input, id);
      created.Ok? && NonNegative(t.wallets) ==> DeleteTransactionOutcome(created.value, id) == Ok(t)
  {
    var created := CreateTransactionOutcome(t, rates, input, id);
    if created.Ok? && NonNegative(t.wallets) {
      var w := input.walletId;
      var after := created.value;
      var deleted := DeleteTransactionOutcome(after, id);
      assert after.transactions - {id} == t.transactions;
      assert deleted.value.wallets == t.wallets by {
        assert after.wallets[w].balance - after.transactions[id].amount == t.wallets[w].balance;
      }
    }
  }

  /** A delete only removes a row. */
  lemma DeleteTransactionKeepsIds(t: Tables, id: Id, n: Id)
    requires IdsBelow(t, n)
    ensures var r := DeleteTransactionOutcome(t, id);
      r.Ok? ==> IdsBelow(r.value, n)
  {
  }

  /** `deleteTransaction`: the wallet gives back the row's amount and the row goes. */
  method DeleteTransaction(db: Db, id: Id) returns (r: Result<TxRow>)
    requires db.Valid()
    modifies db
    ensures db.Valid()
    ensures db.categories == old(db.categories) && db.subcategories == old(db.subcategories)
    ensures db.latestRates == old(db.latestRates) && db.nextId == old(db.nextId)
    ensures var outcome := DeleteTransactionOutcome(old(db.State()), id);
      && (outcome.Err? ==> r == Err(outcome.error) && db.State() == old(db.State()))
      && (outcome.Ok? ==> r == Ok(old(db.transactions)[id]) && db.State() == outcome.value)
    ensures old(db.Balanced()) ==> db.Balanced()
  {
    if id !in db.transactions {
      return Err(TransactionNotFound);
    }
    var existentTransaction := db.transactions[id];
    // the atomic block
    if existentTransaction.walletId !in db.wallets {
      return Err(WalletNotFound);
    }
    var existentWallet := db.wallets[existentTransaction.walletId];
    var amount := existentTransaction.amount;
    var previousBalance := existentWallet.balance;
    var newBalance := previousBalance - amount;
    if newBalance < 0.0 {
      return Err(InsufficientFunds);
    }
    db.wallets := db.wallets[existentTransaction.walletId := existentWallet.(balance := newBalance)];
    db.transactions := db.transactions - {id};
    DeleteTransactionKeepsIds(old(db.State()), id, db.nextId);
    if old(db.Balanced()) {
      DeleteTransactionKeepsBalanced(old(db.State()), id);
    }
    r := Ok(existentTransaction);
  }
}
