/** The wallet server actions: open a wallet with its opening balance recorded as an
    adjustment row, overwrite a wallet (recording any balance change as an adjustment
    row), and delete a wallet row. */
module WalletActions {
  import opened Ledger
  import opened LedgerSums
  import opened Store
  import TransactionActions

  datatype CreateWalletInput = CreateWalletInput(
    name: string,
    platform: string,
    currency: Currency,
    balance: real,
    date: Date)

  datatype UpdateWalletInput = UpdateWalletInput(
    id: Id,
    name: string,
    platform: string,
    currency: Currency,
    balance: real)

  /** `row` records a balance correction of its wallet from `before` to `after`. */
  predicate RecordsAdjustment(row: TxRow, before: real, after: real) {
    && row.txType == Adjustment
    && row.previousBalance == Some(before)
    && row.newBalance == Some(after)
    && row.amount == after - before
  }

  /** The row that opens a wallet: an adjustment from 0 to the opening balance under the
      "Balance Inicial" subcategory, dated by the caller. No dollar value is written, so
      the column keeps 0. */
  function InitialBalanceRow(walletId: Id, balance: real, date: Date, sub: Subcategory): (row: TxRow)
    ensures RecordsAdjustment(row, 0.0, balance)
    ensures row.walletId == walletId && row.date == date && row.transferId == None
    ensures row.categoryId == sub.categoryId && row.subcategoryId == sub.id
  {
    TxRow(walletId, Adjustment, balance, 0.0, sub.categoryId, sub.id, date, None, None,
          Some(0.0), Some(balance), None)
  }

  /** The row that records an update of a wallet's balance from `before` to `after`
      under the "Ajuste de Billetera" subcategory, dated at the moment of the update. */
  function AdjustmentRow(walletId: Id, before: real, after: real, now: Date, sub: Subcategory): (row: TxRow)
    ensures RecordsAdjustment(row, before, after)
    ensures row.walletId == walletId && row.date == now && row.transferId == None
    ensures row.categoryId == sub.categoryId && row.subcategoryId == sub.id
  {
    TxRow(walletId, Adjustment, after - before, 0.0, sub.categoryId, sub.id, now, None, None,
          Some(before), Some(after), None)
  }

  /** The tables after `createWallet` for user `userId`; `walletId` and `txId` are the
      identifiers the database gives the new wallet and its first row. The caller's date
      goes on the row only; the wallet stores the other fields. */
  function CreateWalletOutcome(t: Tables, subs: seq<Subcategory>, userId: Id, input: CreateWalletInput,
                               walletId: Id, txId: Id): (r: Result<Tables>)
    // the only failure: the opening-balance subcategory is missing
    ensures r.Err? <==> FindFirstByName(subs, InitialBalanceName).None?
    ensures r.Err? ==> r.error == SubcategoryNotFound
    ensures r.Ok? ==>
      && r.value.wallets == t.wallets[walletId := Wallet(userId, input.name, input.platform, input.currency, input.balance)]
      && txId in r.value.transactions
      && r.value.transfers == t.transfers
      && FindFirstByName(subs, InitialBalanceName).Some?
      && var row := r.value.transactions[txId];
         && r.value.transactions == t.transactions[txId := row]
         && RecordsAdjustment(row, 0.0, input.balance)
         && row.walletId == walletId && row.date == input.date
         && row.subcategoryId == FindFirstByName(subs, InitialBalanceName).value.id
         && row.categoryId == FindFirstByName(subs, InitialBalanceName).value.categoryId
  {
    var subcategory := FindFirstByName(subs, InitialBalanceName);
    if subcategory.None? then Err(SubcategoryNotFound)
    else
      Ok(t.(wallets := t.wallets[walletId := Wallet(userId, input.name, input.platform, input.currency, input.balance)],
            transactions := t.transactions[txId := InitialBalanceRow(walletId, input.balance, input.date, subcategory.value)]))
  }

  /** A new wallet whose opening row holds its whole balance keeps the ledger invariant,
      provided its identifier is unused and no row already refers to it. */
  lemma CreateWalletKeepsBalanced(t: Tables, subs: seq<Subcategory>, userId: Id, input: CreateWalletInput,
                                  walletId: Id, txId: Id)
    requires Balanced(t.wallets, t.transactions)
    requires walletId !in t.wallets && txId !in t.transactions
    requires forall k | k in t.transactions :: t.transactions[k].walletId != walletId
    ensures var r := CreateWalletOutcome(t, subs, userId, input, walletId, txId);
      r.Ok? ==> Balanced(r.value.wallets, r.value.transactions)
  {
    var r := CreateWalletOutcome(t, subs, userId, input, walletId, txId);
    if r.Ok? {
      NewWalletKeepsBalanced(t.wallets, t.transactions, walletId, r.value.wallets[walletId],
                             txId, r.value.transactions[txId]);
    }
  }

  /** No balance check is made on the opening balance: the wallets stay at or above 0
      exactly when it is. */
  lemma CreateWalletNonNegative(t: Tables, subs: seq<Subcategory>, userId: Id, input: CreateWalletInput,
                                walletId: Id, txId: Id)
    requires NonNegative(t.wallets)
    ensures var r := CreateWalletOutcome(t, subs, userId, input, walletId, txId);
      r.Ok? ==> (NonNegative(r.value.wallets) <==> input.balance >= 0.0)
  {
    var r := CreateWalletOutcome(t, subs, userId, input, walletId, txId);
    if r.Ok? && !(input.balance >= 0.0) {
      assert r.value.wallets[walletId].balance < 0.0;
    }
  }

  /** A create uses only the fresh identifiers `n` (the wallet) and `n + 1` (its row). */
  lemma CreateWalletKeepsIds(t: Tables, subs: seq<Subcategory>, userId: Id, input: CreateWalletInput, n: Id)
    requires IdsBelow(t, n)
    ensures var r := CreateWalletOutcome(t, subs, userId, input, n, n + 1);
      r.Ok? ==> IdsBelow(r.value, n + 2)
  {
  }

  /** `createWallet`: the subcategory lookup comes first, then the wallet and its opening
      row are written in one atomic step. */
  method CreateWallet(db: Db, userId: Id, input: CreateWalletInput) returns (r: Result<Id>)
    requires db.Valid()
    modifies db
    ensures db.Valid()
    ensures db.categories == old(db.categories) && db.subcategories == old(db.subcategories)
    ensures db.latestRates == old(db.latestRates)
    ensures var n := old(db.nextId);
      var outcome := CreateWalletOutcome(old(db.State()), db.subcategories, userId, input, n, n + 1);
      && (outcome.Err? ==> r == Err(outcome.error) && db.State() == old(db.State()))
      && (outcome.Ok? ==> r == Ok(n) && db.State() == outcome.value)
    ensures old(db.Balanced()) ==> db.Balanced()
  {
    var subcategory := FindFirstByName(db.subcategories, InitialBalanceName);
    if subcategory.None? {
      return Err(SubcategoryNotFound);
    }
    ghost var before := db.State();
    // the atomic block
    var walletId := db.NewId();
    db.wallets := db.wallets[walletId := Wallet(userId, input.name, input.platform, input.currency, input.balance)];
    var txId := db.NewId();
    db.transactions := db.transactions[txId := InitialBalanceRow(walletId, input.balance, input.date, subcategory.value)];
    CreateWalletKeepsIds(before, db.subcategories, userId, input, walletId);
    if old(db.Balanced()) {
      CreateWalletKeepsBalanced(before, db.subcategories, userId, input, walletId, txId);
    }
    r := Ok(walletId);
  }

  /** The tables after `updateWallet`, dated `now`; `txId` is the identifier an
      adjustment row would receive. */
  function UpdateWalletOutcome(t: Tables, subs: seq<Subcategory>, input: UpdateWalletInput, now: Date, txId: Id): (r: Result<Tables>)
    // the guards, in the order the source checks them
    ensures FindFirstByName(subs, WalletAdjustmentName).None? ==> r == Err(SubcategoryNotFound)
    ensures FindFirstByName(subs, WalletAdjustmentName).Some? ==> (r.Err? <==> input.id !in t.wallets)
    ensures r.Err? ==> r.error == SubcategoryNotFound || r.error == WalletNotFound
    // on success the wallet's fields are overwritten, with no check on the new balance,
    // and a row records the change only when the balance changed
    ensures r.Ok? ==>
      && input.id in t.wallets
      && var prev := t.wallets[input.id];
         && r.value.wallets == t.wallets[input.id := Wallet(prev.userId, input.name, input.platform, input.currency, input.balance)]
         && (prev.balance == input.balance ==> r.value.transactions == t.transactions)
         && (prev.balance != input.balance ==>
               && txId in r.value.transactions
               && r.value.transactions == t.transactions[txId := r.value.transactions[txId]]
               && RecordsAdjustment(r.value.transactions[txId], prev.balance, input.balance)
               && r.value.transactions[txId].walletId == input.id
               && r.value.transactions[txId].date == now)
         && r.value.transfers == t.transfers
  {
    var subcategory := FindFirstByName(subs, WalletAdjustmentName);
    if subcategory.None? then Err(SubcategoryNotFound)
    else if input.id !in t.wallets then Err(WalletNotFound)
    else
      var prevWallet := t.wallets[input.id];
      var transactions :=
        if prevWallet.balance != input.balance
        then t.transactions[txId := AdjustmentRow(input.id, prevWallet.balance, input.balance, now, subcategory.value)]
        else t.transactions;
      Ok(t.(wallets := t.wallets[input.id := prevWallet.(name := input.name, platform := input.platform,
                                                          currency := input.currency, balance := input.balance)],
            transactions := transactions))
  }

  /** Overwriting a balance together with its adjustment row keeps the ledger invariant.
      The adjustment amount is the difference, so the new balance is again the sum. */
  lemma UpdateWalletKeepsBalanced(t: Tables, subs: seq<Subcategory>, input: UpdateWalletInput, now: Date, txId: Id)
    requires Balanced(t.wallets, t.transactions) && txId !in t.transactions
    ensures var r := UpdateWalletOutcome(t, subs, input, now, txId);
      r.Ok? ==> Balanced(r.value.wallets, r.value.transactions)
  {
    var r := UpdateWalletOutcome(t, subs, input, now, txId);
    if r.Ok? {
      var after := r.value;
      var prev := t.wallets[input.id];
      if prev.balance != input.balance {
        var row := after.transactions[txId];
        InsertKeepsBalanced(t.wallets, t.transactions, txId, row);
        var moved := Move(t.wallets, input.id, row.amount);
        forall v | v in after.wallets ensures after.wallets[v].balance == LedgerSum(after.transactions, v) {
          assert after.wallets[v].balance == moved[v].balance;
        }
      }
    }
  }

  /** The update makes no balance check: the other wallets are untouched, so the wallets
      stay at or above 0 exactly when the balance written is. */
  lemma UpdateWalletNonNegative(t: Tables, subs: seq<Subcategory>, input: UpdateWalletInput, now: Date, txId: Id)
    requires NonNegative(t.wallets)
    ensures var r := UpdateWalletOutcome(t, subs, input, now, txId);
      r.Ok? ==> (NonNegative(r.value.wallets) <==> input.balance >= 0.0)
  {
    var r := UpdateWalletOutcome(t, subs, input, now, txId);
    if r.Ok? && !(input.balance >= 0.0) {
      assert r.value.wallets[input.id].balance < 0.0;
    }
  }

  /** Writing back the balance a wallet already has records nothing. */
  lemma UpdateWalletSameBalance(t: Tables, subs: seq<Subcategory>, input: UpdateWalletInput, now: Date, txId: Id)
    requires input.id in t.wallets && t.wallets[input.id].balance == input.balance
    ensures var r := UpdateWalletOutcome(t, subs, input, now, txId);
      r.Ok? ==> r.value.transactions == t.transactions && r.value.wallets.Keys == t.wallets.Keys
  {
  }

  /** An update uses the fresh identifier `n` for its adjustment row, when it writes one. */
  lemma UpdateWalletKeepsIds(t: Tables, subs: seq<Subcategory>, input: UpdateWalletInput, now: Date, n: Id)
    requires IdsBelow(t, n)
    ensures var r := UpdateWalletOutcome(t, subs, input, now, n);
      r.Ok? ==> IdsBelow(r.value, if t.wallets[input.id].balance != input.balance then n + 1 else n)
  {
  }

  /** `updateWallet`, at the instant `now` (the source stamps the row with `new Date()`). */
  method UpdateWallet(db: Db, input: UpdateWalletInput, now: Date) returns (r: Result<Id>)
    requires db.Valid()
    modifies db
    ensures db.Valid()
    ensures db.categories == old(db.categories) && db.subcategories == old(db.subcategories)
    ensures db.latestRates == old(db.latestRates)
    ensures var outcome := UpdateWalletOutcome(old(db.State()), db.subcategories, input, now, old(db.nextId));
      && (outcome.Err? ==> r == Err(outcome.error) && db.State() == old(db.State()))
      && (outcome.Ok? ==> r == Ok(input.id) && db.State() == outcome.value)
    ensures old(db.Balanced()) ==> db.Balanced()
  {
    var subcategory := FindFirstByName(db.subcategories, WalletAdjustmentName);
    if subcategory.None? {
      return Err(SubcategoryNotFound);
    }
    if input.id !in db.wallets {
      return Err(WalletNotFound);
    }
    var prevWallet := db.wallets[input.id];
    ghost var before := db.State();
    ghost var txId := db.nextId;
    // the atomic block
    var prevWalletBalance := prevWallet.balance;
    if prevWalletBalance != input.balance {
      var id := db.NewId();
      db.transactions := db.transactions[id := AdjustmentRow(input.id, prevWalletBalance, input.balance, now, subcategory.value)];
    }
    db.wallets := db.wallets[input.id := prevWallet.(name := input.name, platform := input.platform,
                                                     currency := input.currency, balance := input.balance)];
    UpdateWalletKeepsIds(before, db.subcategories, input, now, txId);
    if old(db.Balanced()) {
      UpdateWalletKeepsBalanced(before, db.subcategories, input, now, txId);
    }
    r := Ok(input.id);
  }

  /** The tables after `deleteWallet`: only the wallet row goes. Its transactions stay,
      referring to a wallet that no longer exists. */
  function DeleteWalletOutcome(t: Tables, id: Id): (r: Result<Tables>)
    ensures r.Err? <==> id !in t.wallets
    ensures r.Err? ==> r.error == RecordNotFound
    ensures r.Ok? ==>
      && r.value.wallets.Keys == t.wallets.Keys - {id}
      && (forall w | w in r.value.wallets :: r.value.wallets[w] == t.wallets[w])
      && r.value.transactions == t.transactions && r.value.transfers == t.transfers
  {
    if id !in t.wallets then Err(RecordNotFound)
    else Ok(t.(wallets := t.wallets - {id}))
  }

  /** The remaining wallets stay balanced after a delete: no other wallet's rows change. */
  lemma DeleteWalletKeepsBalanced(t: Tables, id: Id)
    requires Balanced(t.wallets, t.transactions)
    ensures var r := DeleteWalletOutcome(t, id);
      r.Ok? ==> Balanced(r.value.wallets, r.value.transactions)
  {
  }

  /** What the rows a deleted wallet leaves behind can still do: deleting one fails with
      "Wallet not found", and updating one fails because its wallet relation is null. */
  lemma OrphanedRowsAreStuck(t: Tables, id: Id, k: Id, input: TransactionActions.UpdateTransactionInput)
    requires id in t.wallets && k in t.transactions && t.transactions[k].walletId == id
    requires input.id == k && input.walletId in t.wallets - {id}
    ensures var r := DeleteWalletOutcome(t, id);
      && r.Ok?
      && TransactionActions.DeleteTransactionOutcome(r.value, k) == Err(WalletNotFound)
      && TransactionActions.UpdateTransactionOutcome(r.value, input) == Err(WalletRelationMissing)
  {
    var after := DeleteWalletOutcome(t, id).value;
    assert after.transactions[k].walletId !in after.wallets;
    TransactionActions.UpdateTransactionGuards(after, input);
  }

  /** `deleteWallet`. */
  method DeleteWallet(db: Db, id: Id) returns (r: Result<Wallet>)
    requires db.Valid()
    modifies db
    ensures db.Valid()
    ensures db.categories == old(db.categories) && db.subcategories == old(db.subcategories)
    ensures db.latestRates == old(db.latestRates) && db.nextId == old(db.nextId)
    ensures var outcome := DeleteWalletOutcome(old(db.State()), id);
      && (outcome.Err? ==> r == Err(outcome.error) && db.State() == old(db.State()))
      && (outcome.Ok? ==> r == Ok(old(db.wallets)[id]) && db.State() == outcome.value)
    ensures old(db.Balanced()) ==> db.Balanced()
  {
    if id !in db.wallets {
      return Err(RecordNotFound);
    }
    var wallet := db.wallets[id];
    db.wallets := db.wallets - {id};
    r := Ok(wallet);
  }
}
