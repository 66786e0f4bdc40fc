/** The expenses chart: this year's EXPENSE rows folded into one entry per month, each
    keyed by every EXPENSE category's name and holding the absolute USD total of that
    category in that month, with internal transfers netted out. */
module ExpensesOverview {
  import opened Ledger

  /** One row of a transfer's `transactions` selection. */
  datatype Link = Link(id: Id, walletId: Id)

  /** A row's `transfer` selection: the fee in USD and the transfer's rows. */
  datatype TransferView = TransferView(feeUSD: real, transactions: seq<Link>)

  /** A transaction row as the chart selects it. `month` is the month (0 for January) of
      the row's date within the current year, and lies outside 0..11 for any other year. */
  datatype ChartTx = ChartTx(
    id: Id,
    txType: TxType,
    month: int,
    categoryId: Id,
    amountUSD: real,
    transfer: Option<TransferView>)

  /** An instant of the current year in local time: the month (0 for January), the day
      of the month (from 1) and the milliseconds since midnight. */
  datatype Instant = Instant(month: int, day: int, ms: int)

  const MsPerDay := 86_400_000

  /** The number of days of `month` (0 for January). */
  function DaysIn(month: int, leap: bool): (n: int)
    requires 0 <= month < 12
    ensures 28 <= n <= 31
    ensures month == 1 ==> (n == 29 <==> leap)
  {
    if month == 1 then (if leap then 29 else 28)
    else if month == 3 || month == 5 || month == 8 || month == 10 then 30
    else 31
  }

  predicate ValidInstant(t: Instant, leap: bool) {
    && 0 <= t.month < 12
    && 1 <= t.day <= DaysIn(t.month, leap)
    && 0 <= t.ms < MsPerDay
  }

  /** The order of `Date`s. */
  predicate NotAfter(a: Instant, b: Instant) {
    || a.month < b.month
    || (a.month == b.month && (a.day < b.day || (a.day == b.day && a.ms <= b.ms)))
  }

  /** `monthStart`: midnight of the 1st of month `i`. */
  function MonthStart(i: int): Instant {
    Instant(i, 1, 0)
  }

  /** `monthEnd` as written: `setMonth(i + 1)` then `setDate(0)` on a copy of the
      midnight `dateStart`, which is midnight of the last day of month `i`. */
  function MonthEndAsWritten(i: int, leap: bool): Instant
    requires 0 <= i < 12
  {
    Instant(i, DaysIn(i, leap), 0)
  }

  /** The last millisecond of month `i`, as `dateEnd` does for December. */
  function MonthEnd(i: int, leap: bool): Instant
    requires 0 <= i < 12
  {
    Instant(i, DaysIn(i, leap), MsPerDay - 1)
  }

  predicate InMonthAsWritten(t: Instant, i: int, leap: bool)
    requires 0 <= i < 12
  {
    NotAfter(MonthStart(i), t) && NotAfter(t, MonthEndAsWritten(i, leap))
  }

  predicate InMonth(t: Instant, i: int, leap: bool)
    requires 0 <= i < 12
  {
    NotAfter(MonthStart(i), t) && NotAfter(t, MonthEnd(i, leap))
  }

  /** As written, a row dated 31 January at 10:00 is fetched, lying between `dateStart` and
      `dateEnd`, yet falls in no month, so it counts towards no total. */
  lemma MonthEndDropsLastDay(leap: bool)
    ensures var t := Instant(0, 31, 36_000_000);
      && ValidInstant(t, leap)
      && NotAfter(Instant(0, 1, 0), t) && NotAfter(t, Instant(11, 31, MsPerDay - 1))
      && forall i | 0 <= i < 12 :: !InMonthAsWritten(t, i, leap)
  {
  }

  /** With the month ending at its last millisecond every instant of the year lies in
      exactly one month, its own; this is the `month` of a `ChartTx`. */
  lemma EveryInstantInOneMonth(t: Instant, leap: bool)
    requires ValidInstant(t, leap)
    ensures forall i | 0 <= i < 12 :: InMonth(t, i, leap) <==> i == t.month
  {
  }

  /** One element of `data`: the month (0 for January) and a total per category name. */
  datatype MonthEntry = MonthEntry(month: nat, totals: map<string, real>)

  /** `transactions.findMany({where: {date in this year, type: "EXPENSE"}})`: each
      EXPENSE row of this year as often as it occurs, and no other row. */
  function ExpenseRows(txs: seq<ChartTx>): (r: seq<ChartTx>)
    ensures forall tx :: tx in r <==> tx in txs && tx.txType == Expense && 0 <= tx.month < 12
  {
    if txs == [] then []
    else
      var rest := ExpenseRows(txs[..|txs| - 1]);
      var last := txs[|txs| - 1];
      assert txs == txs[..|txs| - 1] + [last];
      if last.txType == Expense && 0 <= last.month < 12 then rest + [last] else rest
  }

  /** `category.findMany({where: {type: "EXPENSE"}})`: each EXPENSE category as often as it
      occurs, and no other category. */
  function ExpenseCategories(cats: seq<Category>): (r: seq<Category>)
    ensures forall c :: c in r <==> c in cats && c.txType == Expense
  {
    if cats == [] then []
    else
      var rest := ExpenseCategories(cats[..|cats| - 1]);
      var last := cats[|cats| - 1];
      assert cats == cats[..|cats| - 1] + [last];
      if last.txType == Expense then rest + [last] else rest
  }

  /** The query returns each EXPENSE row of this year as often as the table holds it, and
      no other row. */
  lemma {:induction false} ExpenseRowsCount(txs: seq<ChartTx>)
    ensures forall tx ::
      multiset(ExpenseRows(txs))[tx] == if tx.txType == Expense && 0 <= tx.month < 12 then multiset(txs)[tx] else 0
  {
    if txs != [] {
      var last := txs[|txs| - 1];
      assert txs == txs[..|txs| - 1] + [last];
      assert multiset(txs) == multiset(txs[..|txs| - 1]) + multiset{last};
      ExpenseRowsCount(txs[..|txs| - 1]);
    }
  }

  /** The query returns each EXPENSE category as often as the table holds it, and no
      other category. */
  lemma {:induction false} ExpenseCategoriesCount(cats: seq<Category>)
    ensures forall c ::
      multiset(ExpenseCategories(cats))[c] == if c.txType == Expense then multiset(cats)[c] else 0
  {
    if cats != [] {
      var last := cats[|cats| - 1];
      assert cats == cats[..|cats| - 1] + [last];
      assert multiset(cats) == multiset(cats[..|cats| - 1]) + multiset{last};
      ExpenseCategoriesCount(cats[..|cats| - 1]);
    }
  }

  /** The categories keep the order of the table: those of an earlier run of rows come
      before those of a later one. */
  lemma {:induction false} ExpenseCategoriesKeepOrder(a: seq<Category>, b: seq<Category>)
    ensures ExpenseCategories(a + b) == ExpenseCategories(a) + ExpenseCategories(b)
    decreases |b|
  {
    if b == [] {
      assert a + b == a;
    } else {
      var init := b[..|b| - 1];
      assert (a + b)[..|a + b| - 1] == a + init;
      assert (a + b)[|a + b| - 1] == b[|b| - 1];
      ExpenseCategoriesKeepOrder(a, init);
    }
  }

  /** `transfer.transactions.find(t => t.id !== id)`: the first linked row other than `id`. */
  function Counterpart(links: seq<Link>, id: Id): (r: Option<Link>)
    ensures r.None? <==> forall k | 0 <= k < |links| :: links[k].id == id
    ensures r.Some? ==> r.value in links && r.value.id != id
    ensures r.Some? ==> exists k | 0 <= k < |links| ::
      links[k] == r.value && forall j | 0 <= j < k :: links[j].id == id
  {
    if links == [] then None
    else if links[0].id != id then Some(links[0])
    else
      var r := Counterpart(links[1..], id);
      assert forall k | 1 <= k < |links| :: links[k] == links[1..][k - 1];
      assert r.Some? ==> exists k | 0 <= k < |links| ::
        links[k] == r.value && forall j | 0 <= j < k :: links[j].id == id by {
        if r.Some? {
          var k :| 0 <= k < |links[1..]| && links[1..][k] == r.value && forall j | 0 <= j < k :: links[1..][j].id == id;
          assert links[k + 1] == r.value;
        }
      }
      r
  }

  /** Whether the other side of the transfer `tx` belongs to `walletIds`. */
  predicate WithinGroup(tx: ChartTx, walletIds: seq<Id>)
    requires tx.transfer.Some?
  {
    var other := Counterpart(tx.transfer.value.transactions, tx.id);
    other.Some? && other.value.walletId in walletIds
  }

  /** What one row adds to its category's running total: a plain row its USD amount; a
      transfer row minus the transfer's USD fee when the money stays within `walletIds`,
      and nothing otherwise. */
  function Contribution(tx: ChartTx, walletIds: seq<Id>): (r: real)
    ensures tx.transfer.None? ==> r == tx.amountUSD
    ensures tx.transfer.Some? && WithinGroup(tx, walletIds) ==> r == -tx.transfer.value.feeUSD
    ensures tx.transfer.Some? && !WithinGroup(tx, walletIds) ==> r == 0.0
  {
    match tx.transfer
    case None => tx.amountUSD
    case Some(transfer) => if WithinGroup(tx, walletIds) then -transfer.feeUSD else 0.0
  }

  /** The running total of category `categoryId` in `month` over the rows `txs`. */
  function CategoryTotal(txs: seq<ChartTx>, month: int, categoryId: Id, walletIds: seq<Id>): real {
    if txs == [] then 0.0
    else
      var last := txs[|txs| - 1];
      CategoryTotal(txs[..|txs| - 1], month, categoryId, walletIds)
        + (if last.month == month && last.categoryId == categoryId then Contribution(last, walletIds) else 0.0)
  }

  /** The total over two runs of rows is the sum of their totals. */
  lemma {:induction false} TotalOfConcat(a: seq<ChartTx>, b: seq<ChartTx>, month: int, categoryId: Id, walletIds: seq<Id>)
    ensures CategoryTotal(a + b, month, categoryId, walletIds)
      == CategoryTotal(a, month, categoryId, walletIds) + CategoryTotal(b, month, categoryId, walletIds)
    decreases |b|
  {
    if b == [] {
      assert a + b == a;
    } else {
      var init := b[..|b| - 1];
      assert (a + b)[..|a + b| - 1] == a + init;
      TotalOfConcat(a, init, month, categoryId, walletIds);
    }
  }

  /** Taking row `k` out of `b` takes its contribution out of every total. */
  lemma TotalWithout(b: seq<ChartTx>, k: int, month: int, categoryId: Id, walletIds: seq<Id>)
    requires 0 <= k < |b|
    ensures CategoryTotal(b, month, categoryId, walletIds)
      == CategoryTotal(b[..k] + b[k + 1..], month, categoryId, walletIds) + CategoryTotal([b[k]], month, categoryId, walletIds)
  {
    var front, back := b[..k], b[k + 1..];
    assert b == (front + [b[k]]) + back;
    TotalOfConcat(front + [b[k]], back, month, categoryId, walletIds);
    TotalOfConcat(front, [b[k]], month, categoryId, walletIds);
    TotalOfConcat(front, back, month, categoryId, walletIds);
  }

  /** Taking the last row of `a` and an equal row `k` of `b` out of two permutations of
      each other leaves permutations of each other. */
  lemma SameRowsWithout(a: seq<ChartTx>, b: seq<ChartTx>, k: int)
    requires multiset(a) == multiset(b) && a != [] && 0 <= k < |b| && b[k] == a[|a| - 1]
    ensures multiset(a[..|a| - 1]) == multiset(b[..k] + b[k + 1..])
  {
    var x, init, rest := b[k], a[..|a| - 1], b[..k] + b[k + 1..];
    assert a == init + [x];
    assert b == b[..k] + [x] + b[k + 1..];
    assert multiset(b) == multiset(b[..k]) + multiset{x} + multiset(b[k + 1..]);
    assert multiset(rest) == multiset(b[..k]) + multiset(b[k + 1..]);
    assert multiset(init) + multiset{x} == multiset(rest) + multiset{x};
    assert forall y :: (multiset(init) + multiset{x})[y] == multiset(init)[y] + multiset{x}[y];
  }

  /** The order in which the query returns the rows does not change any total. */
  lemma {:induction false} TotalIgnoresOrder(a: seq<ChartTx>, b: seq<ChartTx>, month: int, categoryId: Id, walletIds: seq<Id>)
    requires multiset(a) == multiset(b)
    ensures CategoryTotal(a, month, categoryId, walletIds) == CategoryTotal(b, month, categoryId, walletIds)
    decreases |a|
  {
    if a != [] {
      var x := a[|a| - 1];
      var init := a[..|a| - 1];
      assert a == init + [x];
      assert multiset(a) == multiset(init) + multiset{x};
      assert x in multiset(b);
      var k :| 0 <= k < |b| && b[k] == x;
      var rest := b[..k] + b[k + 1..];
      SameRowsWithout(a, b, k);
      TotalIgnoresOrder(init, rest, month, categoryId, walletIds);
      TotalWithout(b, k, month, categoryId, walletIds);
      TotalOfConcat(init, [x], month, categoryId, walletIds);
    }
  }

  /** Rows of other months or other categories leave a total unchanged. */
  lemma {:induction false} TotalIgnoresOthers(txs: seq<ChartTx>, month: int, categoryId: Id, walletIds: seq<Id>)
    requires forall k | 0 <= k < |txs| :: txs[k].month != month || txs[k].categoryId != categoryId
    ensures CategoryTotal(txs, month, categoryId, walletIds) == 0.0
  {
    if txs != [] {
      TotalIgnoresOthers(txs[..|txs| - 1], month, categoryId, walletIds);
    }
  }

  /** An internal transfer within the group costs its category only the fee: its expense
      row on the sending wallet counts as minus the fee and its amount never counts, and a
      transfer that leaves the group counts for nothing. */
  lemma TransferCountsOnlyItsFee(txs: seq<ChartTx>, tx: ChartTx, walletIds: seq<Id>)
    requires tx.transfer.Some?
    ensures WithinGroup(tx, walletIds) ==>
      CategoryTotal(txs + [tx], tx.month, tx.categoryId, walletIds)
        == CategoryTotal(txs, tx.month, tx.categoryId, walletIds) - tx.transfer.value.feeUSD
    ensures !WithinGroup(tx, walletIds) ==>
      CategoryTotal(txs + [tx], tx.month, tx.categoryId, walletIds) == CategoryTotal(txs, tx.month, tx.categoryId, walletIds)
  {
    assert (txs + [tx])[..|txs + [tx]| - 1] == txs;
  }

  /** `categories[i]` is the last category called `categories[i].name`, whose total stays
      under that key. */
  predicate LastNamed(categories: seq<Category>, i: int)
    requires 0 <= i < |categories|
  {
    forall j | i < j < |categories| :: categories[j].name != categories[i].name
  }

  /** The names of `categories`. */
  function Names(categories: seq<Category>): set<string> {
    set c | c in categories :: c.name
  }

  /** A month's entry is keyed by every category name and holds, under each, the absolute
      total of the last category with that name. */
  predicate MonthTotals(totals: map<string, real>, categories: seq<Category>, txs: seq<ChartTx>, month: int, walletIds: seq<Id>) {
    && totals.Keys == Names(categories)
    && forall i | 0 <= i < |categories| && LastNamed(categories, i) ::
         totals[categories[i].name] == Abs(CategoryTotal(txs, month, categories[i].id, walletIds))
  }

  /** `ExpensesOverview`: twelve entries in month order, each keyed by every EXPENSE
      category's name and holding the absolute total of that category in that month. */
  method Overview(allTransactions: seq<ChartTx>, allCategories: seq<Category>, walletIds: seq<Id>)
    returns (data: seq<MonthEntry>)
    ensures |data| == 12
    ensures forall m | 0 <= m < 12 :: data[m].month == m
    ensures forall m | 0 <= m < 12 ::
      MonthTotals(data[m].totals, ExpenseCategories(allCategories), ExpenseRows(allTransactions), m, walletIds)
  {
    var transactions := ExpenseRows(allTransactions);
    var categories := ExpenseCategories(allCategories);
    data := [];
    for i := 0 to 12
      invariant |data| == i
      invariant forall m | 0 <= m < i :: data[m].month == m
      invariant forall m | 0 <= m < i :: MonthTotals(data[m].totals, categories, transactions, m, walletIds)
    {
      var monthData: map<string, real> := map[];
      for j := 0 to |categories|
        invariant MonthTotals(monthData, categories[..j], transactions, i, walletIds)
      {
        var category := categories[j];
        ghost var before := monthData;
        monthData := monthData[category.name := 0.0];
        var total := MonthCategoryTotal(transactions, i, category, walletIds);
        monthData := monthData[category.name := Abs(total)];
        assert monthData == before[category.name := Abs(total)];
        KeyedByLastName(before, categories, j, transactions, i, walletIds);
      }
      assert categories[..|categories|] == categories;
      data := data + [MonthEntry(i, monthData)];
    }
  }

  /** The inner loop of `ExpensesOverview`: the running total of one category in one
      month. */
  method MonthCategoryTotal(transactions: seq<ChartTx>, month: int, category: Category, walletIds: seq<Id>)
    returns (total: real)
    ensures total == CategoryTotal(transactions, month, category.id, walletIds)
  {
    total := 0.0;
    for k := 0 to |transactions|
      invariant total == CategoryTotal(transactions[..k], month, category.id, walletIds)
    {
      var transaction := transactions[k];
      assert transactions[..k + 1][..k] == transactions[..k];
      if transaction.month == month && transaction.categoryId == category.id {
        match transaction.transfer
        case Some(transfer) =>
          var receiveTransaction := Counterpart(transfer.transactions, transaction.id);
          if receiveTransaction.Some? && receiveTransaction.value.walletId in walletIds {
            total := total - transfer.feeUSD;
          }
        case None =>
          total := total + transaction.amountUSD;
      }
    }
    assert transactions[..|transactions|] == transactions;
  }

  /** Writing category `j`'s total under its name extends `MonthTotals` by that category:
      a later category of the same name overwrites an earlier one. */
  lemma KeyedByLastName(before: map<string, real>, categories: seq<Category>, j: int,
                        txs: seq<ChartTx>, month: int, walletIds: seq<Id>)
    requires 0 <= j < |categories|
    requires MonthTotals(before, categories[..j], txs, month, walletIds)
    ensures MonthTotals(before[categories[j].name := Abs(CategoryTotal(txs, month, categories[j].id, walletIds))],
                        categories[..j + 1], txs, month, walletIds)
  {
    var category := categories[j];
    var after := before[category.name := Abs(CategoryTotal(txs, month, category.id, walletIds))];
    var done, next := categories[..j], categories[..j + 1];
    assert next == done + [category];
    NamesSnoc(done, category);
    forall k | 0 <= k < j + 1 && LastNamed(next, k)
      ensures after[next[k].name] == Abs(CategoryTotal(txs, month, next[k].id, walletIds))
    {
      if k < j {
        assert next[k] == done[k] && next[j] == category;
        assert LastNamed(done, k) by {
          forall l | k < l < j ensures done[l].name != done[k].name {
            assert next[l] == done[l];
          }
        }
      }
    }
  }

  lemma NamesSnoc(categories: seq<Category>, c: Category)
    ensures Names(categories + [c]) == Names(categories) + {c.name}
  {
    forall name | name in Names(categories + [c]) ensures name in Names(categories) + {c.name} {
      var d :| d in categories + [c] && d.name == name;
      if d != c { assert d in categories; }
    }
    forall name | name in Names(categories) ensures name in Names(categories + [c]) {
      var d :| d in categories && d.name == name;
      assert d in categories + [c];
    }
  }

  /** Every reported value is non-negative. */
  lemma TotalsNonNegative(totals: map<string, real>, categories: seq<Category>, txs: seq<ChartTx>, month: int, walletIds: seq<Id>)
    requires MonthTotals(totals, categories, txs, month, walletIds)
    ensures forall name | name in totals :: totals[name] >= 0.0
  {
    forall name | name in totals ensures totals[name] >= 0.0 {
      var i := LastIndexNamed(categories, name);
    }
  }

  /** The index of the last category called `name`. */
  function LastIndexNamed(categories: seq<Category>, name: string): (i: int)
    requires name in Names(categories)
    ensures 0 <= i < |categories| && categories[i].name == name && LastNamed(categories, i)
  {
    var last := categories[|categories| - 1];
    if last.name == name then |categories| - 1
    else
      var init := categories[..|categories| - 1];
      assert name in Names(init) by {
        var c :| c in categories && c.name == name;
        assert c in init;
      }
      LastIndexNamed(init, name)
  }
}
