/** The database the server actions share: the ledger tables (wallets, transactions,
    transfers) keyed by id, the category reference tables in insertion order, and the
    latest exchange-rate snapshot. */
module Store {
  import opened Ledger
  import opened Rates
  import opened LedgerSums

  class Db {
    var wallets: map<Id, Wallet>
    var transactions: map<Id, TxRow>
    var transfers: map<Id, TransferRow>
    var categories: seq<Category>
    var subcategories: seq<Subcategory>
    var latestRates: Snapshot
    /** the next identifier the database hands out */
    var nextId: Id

    /** A database with the given reference data, rate snapshot and no ledger rows. */
    constructor (categories: seq<Category>, subcategories: seq<Subcategory>, latestRates: Snapshot)
      ensures Valid() && Balanced() && NonNegative()
      ensures this.categories == categories && this.subcategories == subcategories
      ensures this.latestRates == latestRates
      ensures wallets == map[] && transactions == map[] && transfers == map[]
    {
      this.categories := categories;
      this.subcategories := subcategories;
      this.latestRates := latestRates;
      wallets, transactions, transfers := map[], map[], map[];
      nextId := 0;
    }

    /** Every identifier in use was handed out before `nextId`. */
    ghost predicate Valid()
      reads this
    {
      IdsBelow(State(), nextId)
    }

    /** The ledger invariant: each wallet's balance is the sum of its rows' amounts. */
    ghost predicate Balanced()
      reads this
    {
      LedgerSums.Balanced(wallets, transactions)
    }

    /** No wallet holds a negative balance. */
    predicate NonNegative()
      reads this
    {
      Ledger.NonNegative(wallets)
    }

    /** The ledger tables as one value. */
    function State(): Tables
      reads this
    {
      Tables(wallets, transactions, transfers)
    }

    /** Hands out a fresh identifier. */
    method NewId() returns (id: Id)
      requires Valid()
      modifies this`nextId
      ensures Valid()
      ensures id == old(nextId) && nextId == id + 1
    {
      id := nextId;
      nextId := nextId + 1;
    }
  }

  /** Every identifier in use, and every wallet or transfer a row refers to, is below
      `n`, so identifiers from `n` on never collide with existing rows. */
  ghost predicate IdsBelow(t: Tables, n: Id) {
    && (forall id | id in t.wallets :: id < n)
    && (forall id | id in t.transactions :: id < n && RefsBelow(t.transactions[id], n))
    && (forall id | id in t.transfers :: id < n)
  }

  /** The wallet and the transfer row `row` refers to are below `n`. */
  predicate RefsBelow(row: TxRow, n: Id) {
    row.walletId < n && (row.transferId.Some? ==> row.transferId.value < n)
  }

  /** `findFirst({where: {name}})`: the first subcategory row with that name. */
  function FindFirstByName(subs: seq<Subcategory>, name: string): (r: Option<Subcategory>)
    ensures r.None? <==> forall i | 0 <= i < |subs| :: subs[i].name != name
    ensures r.Some? ==> exists i | 0 <= i < |subs| ::
      subs[i] == r.value && r.value.name == name && forall j | 0 <= j < i :: subs[j].name != name
  {
    if subs == [] then None
    else if subs[0].name == name then Some(subs[0])
    else
      var r := FindFirstByName(subs[1..], name);
      assert r.Some? ==> exists i | 0 <= i < |subs[1..]| ::
        subs[1..][i] == r.value && forall j | 0 <= j < i :: subs[1..][j].name != name;
      assert r.Some? ==> exists i | 0 <= i < |subs| ::
        subs[i] == r.value && forall j | 0 <= j < i :: subs[j].name != name by {
        if r.Some? {
          var i :| 0 <= i < |subs[1..]| && subs[1..][i] == r.value && forall j | 0 <= j < i :: subs[1..][j].name != name;
          assert subs[i + 1] == r.value;
          assert forall j | 0 <= j < i + 1 :: subs[j].name != name by {
            forall j | 0 <= j < i + 1 ensures subs[j].name != name {
              if j > 0 { assert subs[j] == subs[1..][j - 1]; }
            }
          }
        }
      }
      r
  }

  /** The category row with identifier `id`, which `include: {category: true}` joins. */
  function FindCategory(cats: seq<Category>, id: Id): (r: Option<Category>)
    ensures r.None? <==> forall i | 0 <= i < |cats| :: cats[i].id != id
    ensures r.Some? ==> r.value in cats && r.value.id == id
  {
    if cats == [] then None
    else if cats[0].id == id then Some(cats[0])
    else FindCategory(cats[1..], id)
  }

  /** Whether subcategory `s` hangs under a category of type `t`. */
  predicate UnderType(cats: seq<Category>, s: Subcategory, t: TxType) {
    var c := FindCategory(cats, s.categoryId);
    c.Some? && c.value.txType == t
  }

  /** `findMany({where: {name}, include: {category: true}})` followed by
      `.find(s => s.category.type === t)`: the first row with that name whose category
      has type `t`. */
  function FindByNameAndType(subs: seq<Subcategory>, cats: seq<Category>, name: string, t: TxType): (r: Option<Subcategory>)
    ensures r.None? <==> forall i | 0 <= i < |subs| :: !(subs[i].name == name && UnderType(cats, subs[i], t))
    ensures r.Some? ==> r.value in subs && r.value.name == name && UnderType(cats, r.value, t)
  {
    if subs == [] then None
    else if subs[0].name == name && UnderType(cats, subs[0], t) then Some(subs[0])
    else
      var r := FindByNameAndType(subs[1..], cats, name, t);
      assert forall i | 1 <= i < |subs| :: subs[i] == subs[1..][i - 1];
      r
  }
}
