# wwarden ledger engine in Dafny

This project models the ledger engine of the wwarden personal-finance application: the
server actions that change money, and the two places where reference data and ledger
rows are read back.

- **Tables.** The database is a class `Store.Db`. Its wallets, transactions and transfers
  are maps keyed by id. Category and subcategory rows are sequences in insertion order,
  so a `findFirst` sees them in that order. The latest exchange-rate snapshot is a map
  from currency code to rate, or nothing. A counter hands out fresh ids.
- **Transaction actions** (`TransactionActions`). Create, update and delete one ledger
  row. Each moves the owning wallet's balance by the same amount as the row, and each
  refuses any resulting balance below 0. An expense is given as a positive magnitude and
  stored negated. The dollar value of a created row uses the wallet's current rate. An
  update keeps the old row's implied rate.
- **Transfer action** (`TransferActions`). Debits one wallet and credits another. It
  records the fee, in the source currency and in dollars, on a Transfer row only. It
  writes an EXPENSE row and an INCOME row that both link to the transfer, under the
  "Transferencias Internas" subcategories.
- **Wallet actions** (`WalletActions`). Open a wallet, recording its opening balance as
  an ADJUSTMENT row under "Balance Inicial". Overwrite a wallet, recording any balance
  change as an ADJUSTMENT row under "Ajuste de Billetera". Delete a wallet row. The older
  copies in `src/components/actions/` do the same thing line for line and are modelled
  by the same members; the table cites each member against one of the two copies.
- **Category catalogue** (`Categories`). The seeded `CATEGORIES` table, copied verbatim:
  9 income categories, 22 expense categories and 1 adjustment category. Also modelled:
  the nested loop that builds the category upsert arguments, and the keying rule of the
  seeding. Categories are keyed by name; subcategories by (category, name).
- **Expenses chart** (`ExpensesOverview`). The fold that turns this year's EXPENSE rows
  into twelve month entries, each holding one absolute USD total per EXPENSE category
  name. An internal transfer adds only its fee, negated, and only when the receiving
  wallet is one of `walletIds`. Any other transfer row adds nothing. Every EXPENSE row of
  the year is counted, whichever wallet it belongs to. `walletIds` only decides how
  transfers are counted.

Each action is modelled twice.

- A pure `…Outcome` function on the three tables. Its contract states the guards, in the
  order the source checks them, and the exact new tables.
- An imperative method on `Db`. Its contract ties the database after the call to that
  function: the new state on success, and no change on failure.

Lemmas then prove that each success keeps two invariants:

- the ledger invariant: every wallet's balance equals the sum of its rows' amounts
  (`LedgerSums.Balanced`);
- the id discipline: every id in use is below the counter (`Store.IdsBelow`).

They also prove that balances stay non-negative, and, where the source has a cross-action
property (create then delete, orphaned rows), lemmas state it.

A transfer subtracts only `fromAmount` from the source wallet. The fee is recorded on the
Transfer row only (`TransferActions.FeeLeavesBalances`).

## Model

| member | source | states |
|---|---|---|
| Ledger.Message | src/components/transfers/actions.ts:33-94 | every error carries a non-empty message |
| Ledger.Abs | src/components/charts/expenses-overview.tsx:111 | `Math.abs`: the result is non-negative and is the input or its negation |
| Rates.RateToUsd | src/components/transactions/actions.ts:33-47 | a rate is found exactly when a snapshot exists, the currency is in it and its rate is not 0 (a falsy rate counts as not found); a found rate is the snapshot's |
| Rates.ToUsd | src/components/transactions/actions.ts:57-63 | the dollar value times the rate gives back the native amount, and it is 0 exactly when the amount is |
| LedgerSums.Move | src/components/transactions/actions.ts:65-68 | a wallet update: only wallet `w` changes, and its balance moves by exactly `delta` |
| LedgerSums.InsertKeepsBalanced | src/components/transactions/actions.ts:57-68 | inserting a row and moving its wallet by the row's amount keeps every balance equal to its row sum |
| LedgerSums.RemoveKeepsBalanced | src/components/transactions/actions.ts:224-231 | removing a row and moving its wallet back by its amount keeps every balance equal to its row sum |
| LedgerSums.ReplaceKeepsBalanced | src/components/transactions/actions.ts:120-166 | rewriting a row, with the old wallet giving back the old amount and the new wallet taking the new one, keeps every balance equal to its row sum |
| LedgerSums.NewWalletKeepsBalanced | src/components/wallets/actions.ts:34-49 | a new wallet whose single row holds its whole balance keeps every balance equal to its row sum |
| Store.FindFirstByName | src/components/wallets/actions.ts:25-31 | `findFirst` by name: nothing is found exactly when no row has the name; otherwise it finds the first row with it |
| Store.FindCategory | src/components/transfers/actions.ts:80-83 | the joined category: nothing exactly when no category has the id; otherwise a category row with that id |
| Store.FindByNameAndType | src/components/transfers/actions.ts:80-90 | `findMany` by name, then `find` by category type: nothing exactly when no row matches both; otherwise a matching row |
| TransactionActions.SignedAmount | src/components/transactions/actions.ts:50 | the magnitude is kept; INCOME and ADJUSTMENT amounts are stored as given; an EXPENSE is stored as exactly `-amount`, so a non-negative EXPENSE input is stored as a non-positive amount |
| TransactionActions.ProportionalUsd | src/components/transactions/actions.ts:163-165 | the new dollar value stands to the new amount as the old dollar value to the old amount |
| TransactionActions.ProportionalKeepsRate | src/components/transactions/actions.ts:158-166 | for a row priced at some rate, the update's dollar value is the new amount converted at that same rate: the live rate is not read again |
| TransactionActions.CreatedRow | src/components/transactions/actions.ts:57-63 | the new row carries the input's wallet, type, category, subcategory, date, entity and description with the given amount and dollar value, and no balances or transfer link |
| TransactionActions.UpdatedRow | src/components/transactions/actions.ts:158-167 | the rewritten row takes the input's fields and the given amounts; an omitted entity or description keeps the old one; the balances and transfer link are kept |
| TransactionActions.CreateTransactionOutcome | src/components/transactions/actions.ts:25-68 | "Wallet not found", then "Exchange rate not found", then "Insufficient funds" exactly when `balance + signed amount < 0`; on success one new row with the signed amount and its dollar value at the current rate, and the wallet moved by that amount; balances stay non-negative |
| TransactionActions.CreateTransactionKeepsBalanced | src/components/transactions/actions.ts:51-68 | a successful create keeps the ledger invariant |
| TransactionActions.CreateTransactionKeepsIds | src/components/transactions/actions.ts:57-63 | a create uses only the fresh id and an existing wallet |
| TransactionActions.CreateTransaction | src/components/transactions/actions.ts:25-71 | the database afterwards is the create outcome on success and unchanged on failure; the result is the new id or the error; the ledger invariant is kept |
| TransactionActions.RebalancedWallets | src/components/transactions/actions.ts:120-156 | same wallet: one write of `balance - old amount + new amount`; different wallets: `balance - old amount` and `balance + new amount`; "Insufficient funds" exactly when a checked balance is below 0, before any write |
| TransactionActions.UpdateTransactionOutcome | src/components/transactions/actions.ts:101-167 | on success the row is rewritten in place with the signed amount and the proportional dollar value, both wallets move by their share, and balances stay non-negative |
| TransactionActions.UpdateTransactionGuards | src/components/transactions/actions.ts:101-156 | "Transaction not found", then "Wallet not found", then the missing wallet relation, then "Insufficient funds", then the zero stored amount; success otherwise |
| TransactionActions.UpdateTransactionKeepsBalanced | src/components/transactions/actions.ts:118-167 | a successful update keeps the ledger invariant |
| TransactionActions.UpdateTransactionKeepsIds | src/components/transactions/actions.ts:158-167 | an update rewrites a row in place and onto an existing wallet |
| TransactionActions.UpdateTransaction | src/components/transactions/actions.ts:101-170 | the database afterwards is the update outcome on success and unchanged on failure; the ledger invariant is kept |
| TransactionActions.DeleteTransactionOutcome | src/components/transactions/actions.ts:200-231 | "Transaction not found", then "Wallet not found", then "Insufficient funds" exactly when `balance - amount < 0`; on success the row is gone and its wallet gave back exactly its amount |
| TransactionActions.DeleteTransactionKeepsBalanced | src/components/transactions/actions.ts:217-231 | a successful delete keeps the ledger invariant |
| TransactionActions.CreateThenDeleteRestores | src/components/transactions/actions.ts:200-231 | deleting a row just created gives back exactly the tables before the create |
| TransactionActions.DeleteTransactionKeepsIds | src/components/transactions/actions.ts:224-231 | a delete only removes a row and moves a wallet |
| TransactionActions.DeleteTransaction | src/components/transactions/actions.ts:200-234 | the database afterwards is the delete outcome on success and unchanged on failure; the result is the deleted row; the ledger invariant is kept |
| TransferActions.DebitRow | src/components/transfers/actions.ts:97-109 | an EXPENSE row on the source wallet with amount `-fromAmount`, dollar value `-fromAmount / fromRate`, the expense sentinel and the transfer link |
| TransferActions.CreditRow | src/components/transfers/actions.ts:110-122 | an INCOME row on the destination wallet with amount `toAmount`, dollar value `toAmount / toRate`, the income sentinel and the transfer link |
| TransferActions.FeeRow | src/components/transfers/actions.ts:64-69 | the fee, 0 when omitted, and `feeUSD = fee / fromRate` |
| TransferActions.TransferSentinels | src/components/transfers/actions.ts:80-94 | found exactly when a "Transferencias Internas" row exists under an INCOME category and one under an EXPENSE category |
| TransferActions.AfterTransfer | src/components/transfers/actions.ts:70-77 | the two balance writes; on a single wallet the write issued last wins |
| TransferActions.CheckTransfer | src/components/transfers/actions.ts:24-94 | "Wallet not found", then "Insufficient funds" when either new balance is below 0, then "Exchange rate not found", then "Internal transfer subcategories not found"; otherwise both rates and both sentinels |
| TransferActions.FeeLeavesBalances | src/components/transfers/actions.ts:37-78 | the fee changes neither the checks, the balances nor the rows: it is recorded on the Transfer row only |
| TransferActions.TransferLinksPair | src/components/transfers/actions.ts:96-123 | after the writes exactly the two new rows carry the transfer's id |
| TransferActions.TransferKeepsBalanced | src/components/transfers/actions.ts:63-123 | between distinct wallets, a transfer keeps the ledger invariant |
| TransferActions.TransferKeepsNonNegative | src/components/transfers/actions.ts:37-41 | a successful transfer leaves every balance at or above 0 |
| TransferActions.TransferKeepsIds | src/components/transfers/actions.ts:63-123 | a transfer uses only three fresh ids |
| TransferActions.DistinctWalletsCommute | src/components/transfers/actions.ts:63-78 | between distinct wallets the order of the two parallel balance writes does not matter |
| TransferActions.CreateTransferOutcome | src/components/transfers/actions.ts:23-125 | fails exactly when the checks fail, with their error; on success both balance writes, the Transfer row with the fee, the debit and credit rows linked to it under the two new ids, and every other row unchanged |
| TransferActions.CreateTransfer | src/components/transfers/actions.ts:23-125 | the database afterwards is the all-or-nothing transfer outcome on success and unchanged on failure; exactly the two new rows link to the transfer; the ledger invariant is kept between distinct wallets |
| TransferActions.RecordTransfer | src/components/transfers/actions.ts:63-123 | the writes of a checked transfer under three fresh ids, with exactly the two new rows linked |
| TransferActions.CreateTransferAsWritten | src/components/transfers/actions.ts:23-125 | as written the call never succeeds and never writes a transaction row: a failed check before the writes changes nothing; after the writes it fails on the missing sentinels or on the unknown `amountUsd` column, leaving the Transfer row and both balances |
| TransferActions.AsWrittenLeavesPartialWrites | src/components/transfers/actions.ts:63-123 | as written, every funded, priced transfer between distinct wallets with `fromAmount` not 0 fails after its writes, leaving the Transfer row and both moved balances with no transaction rows, and breaks the ledger invariant |
| TransferActions.AsWrittenVersusAtomic | src/components/transfers/actions.ts:24-123 | a check that fails before the writes fails alike in both versions and changes nothing as written; a missing sentinel pair leaves the balance writes and the Transfer row as written; where the all-or-nothing version succeeds, the as-written one fails on `amountUsd` with the same wallets and Transfer row and no new transaction rows |
| WalletActions.InitialBalanceRow | src/components/actions/create-wallet.ts:36-46 | an ADJUSTMENT row from 0 to the opening balance (`previousBalance` 0, `newBalance` and amount the balance), dated by the caller, under the sentinel's category and subcategory |
| WalletActions.AdjustmentRow | src/components/actions/update-wallet.ts:42-53 | an ADJUSTMENT row with amount `new - old`, `previousBalance = old` and `newBalance = new`, dated at the update |
| WalletActions.CreateWalletOutcome | src/components/wallets/actions.ts:12-49 | "Subcategory not found" exactly when "Balance Inicial" is missing; otherwise the wallet holds the input fields without the date, and one opening row records the balance |
| WalletActions.CreateWalletKeepsBalanced | src/components/wallets/actions.ts:33-52 | a new wallet with its opening row keeps the ledger invariant |
| WalletActions.CreateWalletNonNegative | src/components/wallets/actions.ts:34-36 | the opening balance is not checked: the wallets stay non-negative exactly when it is |
| WalletActions.CreateWalletKeepsIds | src/components/actions/create-wallet.ts:31-50 | a create uses only two fresh ids |
| WalletActions.CreateWallet | src/components/wallets/actions.ts:10-52 | the database afterwards is the create outcome on success and unchanged on failure; the ledger invariant is kept |
| WalletActions.UpdateWalletOutcome | src/components/wallets/actions.ts:80-117 | "Subcategory not found" before "Wallet not found"; the wallet's fields are overwritten with no balance check; an adjustment row is written exactly when the balance changed |
| WalletActions.UpdateWalletKeepsBalanced | src/components/wallets/actions.ts:96-117 | an overwritten balance with its adjustment row keeps the ledger invariant |
| WalletActions.UpdateWalletNonNegative | src/components/actions/update-wallet.ts:56-59 | the balance written is not checked: the wallets stay non-negative exactly when it is |
| WalletActions.UpdateWalletSameBalance | src/components/actions/update-wallet.ts:39-41 | writing back the same balance records no row |
| WalletActions.UpdateWalletKeepsIds | src/components/wallets/actions.ts:99-112 | an update uses one fresh id, and only when it writes a row |
| WalletActions.UpdateWallet | src/components/wallets/actions.ts:80-120 | the database afterwards is the update outcome on success and unchanged on failure; the ledger invariant is kept |
| WalletActions.DeleteWalletOutcome | src/components/wallets/actions.ts:148-150 | an unknown id fails; otherwise only the wallet row goes, and its rows stay |
| WalletActions.DeleteWalletKeepsBalanced | src/components/wallets/actions.ts:148-150 | the remaining wallets stay balanced |
| WalletActions.OrphanedRowsAreStuck | src/components/transactions/actions.ts:200-215 | after its wallet is deleted, a row can no longer be deleted ("Wallet not found") or updated (missing wallet relation) |
| WalletActions.DeleteWallet | src/components/wallets/actions.ts:134-150 | the database afterwards is the delete outcome on success and unchanged on failure; the result is the deleted wallet |
| Categories.EntriesOfGroups | prisma/seed/data/categories.ts:331-332 | the categories visited are exactly those of the groups, each tagged with its group's type |
| Categories.CatalogSize | prisma/seed/data/categories.ts:3-328 | the catalogue holds 32 categories |
| Categories.BuildUpsertArgs | prisma/seed/data/categories.ts:330-355 | one upsert argument per category in table order, keyed by its name, created under its group's type with its subcategory names in order |
| Categories.FindCategoryByName | prisma/seed/data/categories.ts:367-368 | nothing exactly when no category row has the name; otherwise a row with it |
| Categories.UpsertCategory | prisma/seed/data/categories.ts:367-376 | an existing name changes nothing and returns that row's id; a new name appends a row of the group's type under a fresh id |
| Categories.UpsertSubcategory | prisma/seed/data/categories.ts:384-403 | an existing (category, name) key changes nothing; a new key appends a row under the category |
| Categories.SeedSubcategories | prisma/seed/data/categories.ts:384-403 | categories are unchanged; every listed name has a row under the category, the added rows hang under it with listed names, and one fresh id is used per added row |
| Categories.SeedEntry | prisma/seed/data/categories.ts:367-403 | earlier rows are kept, at most one category row is added, a category row of the entry's name ends up holding a row per listed subcategory, and one fresh id is used per added row |
| Categories.SeedEntries | prisma/seed/data/categories.ts:361-403 | at most one category row per entry, and the id counter equals the number of rows written |
| Categories.SeedEntriesInv | prisma/seed/data/categories.ts:361-403 | seeding keeps ids fresh and both keys unique, every row comes from the catalogue, and every listed subcategory gets a row |
| Categories.NoInternalTransferInIncomeGroup | prisma/seed/data/categories.ts:4-63 | no INCOME category lists "Transferencias Internas" |
| Categories.NoInternalTransferInAhorrosToCuidadoDeLaSalud | prisma/seed/data/categories.ts:66-122 | these expense categories do not list it |
| Categories.NoInternalTransferInCuidadoDeNinosToEducacion | prisma/seed/data/categories.ts:123-166 | these expense categories do not list it |
| Categories.NoInternalTransferInEntretenimientoToMiscelaneos | prisma/seed/data/categories.ts:167-221 | these expense categories, other than "Gastos Financieros", do not list it |
| Categories.NoInternalTransferInPagosDeDeudaToTecnologia | prisma/seed/data/categories.ts:222-278 | these expense categories do not list it |
| Categories.NoInternalTransferInTransporteToViajes | prisma/seed/data/categories.ts:279-317 | these expense categories do not list it |
| Categories.InternalTransferOnlyExpenseUnderGastosFinancieros | prisma/seed/data/categories.ts:64-318 | among the expense categories only "Gastos Financieros" lists it |
| Categories.InternalTransferOnlyUnderGastosFinancieros | prisma/seed/data/categories.ts:202-211 | in the whole catalogue only the EXPENSE category "Gastos Financieros" lists "Transferencias Internas" |
| Categories.GastosFinancierosIsAnExpense | prisma/seed/data/categories.ts:3-328 | every catalogue category named "Gastos Financieros" is an EXPENSE category |
| Categories.SeededKeysUnique | prisma/seed/data/categories.ts:367-391 | after seeding, no two category rows share a name and no two subcategory rows share a (category, name) key |
| Categories.SeededRowOrigin | prisma/seed/data/categories.ts:384-403 | every seeded subcategory row hangs under a seeded category row that some catalogue entry of that name and type lists it under |
| Categories.SeededListedRow | prisma/seed/data/categories.ts:384-403 | every listed subcategory has a seeded row under the seeded category of its category's name |
| Categories.NoIncomeRowUnlessListed | prisma/seed/data/categories.ts:367-403 | a name that no INCOME-named category lists has no seeded row under an INCOME category |
| Categories.SeededCatalogLacksTransferSentinels | prisma/seed/data/categories.ts:202-211 | on the seeded catalogue the EXPENSE half of the transfer lookup is found, the INCOME half never is, so the sentinel pair is never found |
| Categories.SeededCatalogHasWalletSentinels | prisma/seed/data/categories.ts:319-327 | the ADJUSTMENT group is "Ajustes" with "Ajuste de Billetera" and "Balance Inicial", and both lookups succeed on the seeded catalogue |
| Categories.SeededSkinCareTwice | prisma/seed/data/categories.ts:116-246 | two seeded rows are named "Cuidado de la piel", under different categories |
| Categories.SeededWalletActionsFindSentinels | prisma/seed/data/categories.ts:319-327 | on the seeded catalogue opening a wallet never fails, and updating one fails exactly on an unknown id |
| Categories.SeededTransferLeavesPartialWrites | src/components/transfers/actions.ts:63-94 | on the seeded catalogue every funded, priced transfer fails; all-or-nothing it changes nothing, and as written it leaves the Transfer row and the moved balances, breaking the ledger invariant |
| ExpensesOverview.ExpenseRows | src/components/charts/expenses-overview.tsx:56-59 | exactly the rows of type EXPENSE dated in this year |
| ExpensesOverview.ExpenseRowsCount | src/components/charts/expenses-overview.tsx:56-59 | every EXPENSE row of this year is returned as many times as the table holds it, and no other row |
| ExpensesOverview.ExpenseCategories | src/components/charts/expenses-overview.tsx:61-63 | exactly the EXPENSE categories |
| ExpensesOverview.ExpenseCategoriesCount | src/components/charts/expenses-overview.tsx:61-63 | every EXPENSE category is returned as many times as the table holds it, and no other category |
| ExpensesOverview.ExpenseCategoriesKeepOrder | src/components/charts/expenses-overview.tsx:61-63 | the categories keep the table's order: filtering a concatenation concatenates the filtered parts |
| ExpensesOverview.DaysIn | src/components/charts/expenses-overview.tsx:71-74 | a month has 28 to 31 days, and February has 29 exactly in a leap year |
| ExpensesOverview.MonthEndDropsLastDay | src/components/charts/expenses-overview.tsx:69-79 | as written, a row of 31 January at 10:00 lies within the year's bounds but in no month's bounds |
| ExpensesOverview.EveryInstantInOneMonth | src/components/charts/expenses-overview.tsx:45-55 | with each month ending at its last millisecond, every instant of the year falls in exactly its own month |
| ExpensesOverview.Counterpart | src/components/charts/expenses-overview.tsx:93-95 | nothing exactly when every linked row is the row itself; otherwise the first other linked row |
| ExpensesOverview.Contribution | src/components/charts/expenses-overview.tsx:91-106 | a plain row adds its dollar value; a transfer row adds minus the fee when its counterpart's wallet is in the group, and nothing otherwise |
| ExpensesOverview.TotalOfConcat | src/components/charts/expenses-overview.tsx:89-107 | the total over two runs of rows is the sum of their totals |
| ExpensesOverview.TotalWithout | src/components/charts/expenses-overview.tsx:89-107 | taking one row out of a run takes exactly its contribution out of the total |
| ExpensesOverview.TotalIgnoresOrder | src/components/charts/expenses-overview.tsx:89-107 | any two orderings of the same rows (equal multisets) give the same total |
| ExpensesOverview.TotalIgnoresOthers | src/components/charts/expenses-overview.tsx:86-88 | rows of other months or categories add nothing |
| ExpensesOverview.TransferCountsOnlyItsFee | src/components/charts/expenses-overview.tsx:91-104 | a transfer within the group lowers its total by the fee and never counts its amount; one leaving the group counts for nothing |
| ExpensesOverview.MonthCategoryTotal | src/components/charts/expenses-overview.tsx:89-107 | the inner loop computes the category's total in the month |
| ExpensesOverview.KeyedByLastName | src/components/charts/expenses-overview.tsx:84-111 | writing a category's total under its name extends the month entry by that category; a later category of the same name overwrites an earlier one |
| ExpensesOverview.Overview | src/components/charts/expenses-overview.tsx:65-115 | twelve entries in month order, each keyed by every EXPENSE category name and holding the absolute total of that category in that month |
| ExpensesOverview.TotalsNonNegative | src/components/charts/expenses-overview.tsx:111 | every reported value is non-negative |

## Left out

- Authentication: the token, JWT and user checks at the top of every action are foreign session I/O, so the caller is taken as authorised. `userId` is a parameter.
- Concurrency and isolation: each action is one all-or-nothing step. The callbacks given to `$transaction` write through the global `prisma` client rather than through `tx`, so in the source a failed guard after a write does not undo that write. The model reflects this only for the transfer, in `TransferActions.CreateTransferAsWritten`, the one action with a guard after its first write (see Findings).
- TransferActions.CreateTransfer: the ledger invariant is ensured only when source and destination differ. On one wallet the two parallel balance updates have no defined order, so one of them is lost; the parameter `toWrittenLast` chooses which one wins.
- Decimal conversion: `Number(...)` on stored decimals, `toFixed(2)` and number formatting are not modelled. Amounts, rates and totals are exact reals, and the chart reports the exact absolute total rather than a two-decimal string.
- The transfer rows spell the dollar column `amountUsd`, which the database client rejects, so as written both row creates throw after the Transfer row and the balances were written (`TransferActions.CreateTransferAsWritten`, see Findings). `TransferActions.CreateTransfer` stores the intended value, `amount / rate`, in `amountUSD`.
- WalletActions.DeleteWalletOutcome: the Prisma schema is not part of this model, and the wallet actions rest on three assumptions about it. A row keeps no enforced relation to its wallet, so deleting a wallet leaves its rows behind; under an `onDelete: Restrict` relation the delete would fail instead, and under `Cascade` the rows would go with it. The `amountUSD` column that the wallet actions omit on their ADJUSTMENT rows defaults to 0. Category and subcategory ids given to the create and update actions are stored unchecked.
- Ledger.Message: only non-emptiness is proved; that the ten messages are pairwise distinct is not.
- Dates: rows carry their month within the current year, outside 0..11 for other years, rather than a timestamp. `ExpensesOverview.Instant` models the month bounds on their own (see Findings); the fold uses the month each instant falls in under the corrected bounds. Time zones are not modelled, and the month label is the month index, not the localised month name.
- A category named "name" would overwrite the chart's month label; the model keeps the label and the totals apart.
- `updateWallet` stamps its row with `new Date()`; the model takes that instant as the parameter `now`.
- Rate fetching: the exchange-rate HTTP fetch and snapshot creation are not part of this model. The latest snapshot is a field of the database.
- The React forms, tables and dialogs and their zod schemas are not part of this model. The schemas only type the inputs, so the model accepts any input values.
- Household and pocket actions are not part of this model. They are single-row writes with no ledger invariant.
- Seeding I/O: the seeding's database client, `console.log` calls and row counts are left out. Only its keying rule is modelled, on empty tables.
- The update branch of the category upsert argument carries an empty `subcategories: {}`; it writes nothing, so the argument has no field for it.
- The Prisma schema is not part of this model. The wallet actions query `prisma.subcategories`, while the transfer queries `prisma.subcategory`; both are modelled as the one subcategory table.
- TransactionActions.UpdateTransactionOutcome: when the stored amount is 0, the source divides by zero only after writing the wallets. The model rejects the update (`UsdUndefined`) and changes nothing.
- TransactionActions.UpdateTransactionOutcome: a row whose wallet was deleted makes the source crash on reading the null relation. The model reports `WalletRelationMissing` rather than that runtime error.
- WalletActions.DeleteWalletOutcome: deleting an unknown wallet makes the database client throw. The model reports `RecordNotFound` with a stand-in message.

## Findings

| source | as written | input that shows it | evidently intended | confidence | as-written member | corrected member |
|---|---|---|---|---|---|---|
| src/components/transfers/actions.ts:63-94 | the Transfer row and both balances are written through the global client before the sentinel lookup and the row creates, so the failure that follows ("Internal transfer subcategories not found", or the `amountUsd` rejection) leaves them behind with no transaction rows | any two distinct wallets with enough funds, known rates and `fromAmount` not 0; on the seeded catalogue (no INCOME category lists "Transferencias Internas") the sentinel error | the whole transfer rolls back: a failed call changes nothing and the ledger invariant holds | not executed | TransferActions.AsWrittenLeavesPartialWrites | TransferActions.CreateTransfer |
| src/components/transfers/actions.ts:96-123 | both row creates name the column `amountUsd`, which the client rejects (the column is `amountUSD`), so every transfer that passes its checks throws after the Transfer row and both balances were written | two distinct wallets with enough funds, known rates, `fromAmount` not 0, and both "Transferencias Internas" sentinels present | both rows are stored with `amountUSD = amount / rate` and the call succeeds | not executed | TransferActions.CreateTransferAsWritten | TransferActions.CreateTransferOutcome |
| src/components/charts/expenses-overview.tsx:71-77 | `monthEnd` is midnight at the start of the month's last day (`setMonth(i + 1)`, `setDate(0)`, no `setHours`), so an EXPENSE row later on that day is fetched but counted in no month | a row dated 31 January at 10:00 | each month ends at 23:59:59.999 of its last day, as `dateEnd` does, so every row of the year counts in its own month | not executed | ExpensesOverview.MonthEndDropsLastDay | ExpensesOverview.EveryInstantInOneMonth |
