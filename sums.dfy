/** The running sum of a wallet's transaction amounts, against which wallet balances
    are kept: every action that writes a row moves the wallet balance by the same
    amount. */
module LedgerSums {
  import opened Ledger

  /** What one row adds to the running sum of wallet `w`. */
  function Contribution(row: TxRow, w: Id): real {
    if row.walletId == w then row.amount else 0.0
  }

  /** Sum of the amounts of all rows of `txs` that belong to wallet `w`. */
  ghost function LedgerSum(txs: map<Id, TxRow>, w: Id): real
    decreases |txs|
  {
    if txs == map[] then 0.0
    else
      var k :| k in txs;
      Contribution(txs[k], w) + LedgerSum(txs - {k}, w)
  }

  /** Taking any one row out of the table lowers the sum by exactly that row's
      contribution, whichever row the definition happens to pick first. */
  lemma {:induction false} SumRemove(txs: map<Id, TxRow>, id: Id, w: Id)
    requires id in txs
    ensures LedgerSum(txs, w) == Contribution(txs[id], w) + LedgerSum(txs - {id}, w)
    decreases |txs|
  {
    var k :| k in txs && LedgerSum(txs, w) == Contribution(txs[k], w) + LedgerSum(txs - {k}, w);
    if k != id {
      assert txs - {k} - {id} == txs - {id} - {k};
      assert |txs - {k}| < |txs|;
      SumRemove(txs - {k}, id, w);
      assert |txs - {id}| < |txs|;
      SumRemove(txs - {id}, k, w);
    }
  }

  /** Inserting a row under a fresh id raises the sum by that row's contribution. */
  lemma SumInsert(txs: map<Id, TxRow>, id: Id, row: TxRow, w: Id)
    requires id !in txs
    ensures LedgerSum(txs[id := row], w) == LedgerSum(txs, w) + Contribution(row, w)
  {
    SumRemove(txs[id := row], id, w);
    assert txs[id := row] - {id} == txs;
  }

  /** Overwriting a row replaces its contribution. */
  lemma SumReplace(txs: map<Id, TxRow>, id: Id, row: TxRow, w: Id)
    requires id in txs
    ensures LedgerSum(txs[id := row], w) == LedgerSum(txs, w) - Contribution(txs[id], w) + Contribution(row, w)
  {
    SumRemove(txs, id, w);
    SumRemove(txs[id := row], id, w);
    assert txs[id := row] - {id} == txs - {id};
  }

  /** A table none of whose rows refer to `w` sums to 0 for `w`. */
  lemma {:induction false} SumOfUnreferenced(txs: map<Id, TxRow>, w: Id)
    requires forall id | id in txs :: txs[id].walletId != w
    ensures LedgerSum(txs, w) == 0.0
    decreases |txs|
  {
    if txs != map[] {
      var k :| k in txs && LedgerSum(txs, w) == Contribution(txs[k], w) + LedgerSum(txs - {k}, w);
      assert Contribution(txs[k], w) == 0.0;
      assert |txs - {k}| < |txs|;
      SumOfUnreferenced(txs - {k}, w);
    }
  }

  /** The ledger invariant over table values: each wallet's balance is the sum of its
      rows' amounts. */
  ghost predicate Balanced(wallets: map<Id, Wallet>, txs: map<Id, TxRow>) {
    forall w | w in wallets :: wallets[w].balance == LedgerSum(txs, w)
  }

  /** `wallets` with the balance of `w` moved by `delta`. */
  function Move(wallets: map<Id, Wallet>, w: Id, delta: real): (r: map<Id, Wallet>)
    requires w in wallets
    ensures r.Keys == wallets.Keys && r[w].balance == wallets[w].balance + delta
    ensures forall v | v in wallets && v != w :: r[v] == wallets[v]
  {
    wallets[w := wallets[w].(balance := wallets[w].balance + delta)]
  }

  /** Inserting a row and moving its wallet by the row's amount keeps the invariant. */
  lemma InsertKeepsBalanced(wallets: map<Id, Wallet>, txs: map<Id, TxRow>, id: Id, row: TxRow)
    requires Balanced(wallets, txs) && id !in txs && row.walletId in wallets
    ensures Balanced(Move(wallets, row.walletId, row.amount), txs[id := row])
  {
    var after := Move(wallets, row.walletId, row.amount);
    forall v | v in after ensures after[v].balance == LedgerSum(txs[id := row], v) {
      SumInsert(txs, id, row, v);
    }
  }

  /** Removing a row and moving its wallet back by the row's amount keeps the invariant. */
  lemma RemoveKeepsBalanced(wallets: map<Id, Wallet>, txs: map<Id, TxRow>, id: Id)
    requires Balanced(wallets, txs) && id in txs && txs[id].walletId in wallets
    ensures Balanced(Move(wallets, txs[id].walletId, -txs[id].amount), txs - {id})
  {
    var after := Move(wallets, txs[id].walletId, -txs[id].amount);
    forall v | v in after ensures after[v].balance == LedgerSum(txs - {id}, v) {
      SumRemove(txs, id, v);
    }
  }

  /** Rewriting a row, possibly onto another wallet, keeps the invariant when the old
      wallet gives back the old amount and the new wallet takes the new one. */
  lemma ReplaceKeepsBalanced(wallets: map<Id, Wallet>, txs: map<Id, TxRow>, id: Id, row: TxRow)
    requires Balanced(wallets, txs) && id in txs
    requires txs[id].walletId in wallets && row.walletId in wallets
    ensures Balanced(Move(Move(wallets, txs[id].walletId, -txs[id].amount), row.walletId, row.amount), txs[id := row])
  {
    var after := Move(Move(wallets, txs[id].walletId, -txs[id].amount), row.walletId, row.amount);
    forall v | v in after ensures after[v].balance == LedgerSum(txs[id := row], v) {
      SumReplace(txs, id, row, v);
    }
  }

  /** A new wallet whose only row records its whole balance keeps the invariant, provided
      no earlier row refers to the new wallet's identifier. */
  lemma NewWalletKeepsBalanced(wallets: map<Id, Wallet>, txs: map<Id, TxRow>, w: Id, wallet: Wallet, id: Id, row: TxRow)
    requires Balanced(wallets, txs) && w !in wallets && id !in txs
    requires forall k | k in txs :: txs[k].walletId != w
    requires row.walletId == w && row.amount == wallet.balance
    ensures Balanced(wallets[w := wallet], txs[id := row])
  {
    var after := wallets[w := wallet];
    forall v | v in after ensures after[v].balance == LedgerSum(txs[id := row], v) {
      SumInsert(txs, id, row, v);
      if v == w { SumOfUnreferenced(txs, w); }
    }
  }
}
