/** Shared vocabulary of the ledger: the persisted rows, the caller inputs of the
    server actions, and the error kinds the actions report as `{status: false, message}`. */
module Ledger {

  /** Row identifiers. The database generates them; the model draws them from a counter. */
  type Id = nat

  /** A currency code of the application's closed enumeration (its members are not
      listed in the files that make up this model, so any code is accepted). */
  type Currency = string

  /** A caller-supplied instant; no calendar arithmetic is modelled. */
  type Date = int

  datatype Option<+T> = None | Some(value: T) {
    function GetOr(default: T): T {
      match this
      case Some(v) => v
      case None => default
    }
  }

  datatype TxType = Income | Expense | Adjustment

  datatype Wallet = Wallet(
    userId: Id,
    name: string,
    platform: string,
    currency: Currency,
    balance: real)

  /** A row of the Transaction table. `previousBalance` and `newBalance` are only set
      by the wallet actions; `transferId` links the two rows of a transfer. */
  datatype TxRow = TxRow(
    walletId: Id,
    txType: TxType,
    amount: real,
    amountUSD: real,
    categoryId: Id,
    subcategoryId: Id,
    date: Date,
    entity: Option<string>,
    description: Option<string>,
    previousBalance: Option<real>,
    newBalance: Option<real>,
    transferId: Option<Id>)

  datatype TransferRow = TransferRow(fee: real, feeUSD: real)

  datatype Category = Category(id: Id, txType: TxType, name: string)

  datatype Subcategory = Subcategory(id: Id, categoryId: Id, name: string)

  /** The three ledger tables the actions write, keyed by row id. */
  datatype Tables = Tables(
    wallets: map<Id, Wallet>,
    transactions: map<Id, TxRow>,
    transfers: map<Id, TransferRow>)

  /** No wallet holds a negative balance. */
  predicate NonNegative(wallets: map<Id, Wallet>) {
    forall w | w in wallets :: wallets[w].balance >= 0.0
  }

  /** Why an action failed. */
  datatype Error =
    | WalletNotFound
    | ExchangeRateNotFound
    | InsufficientFunds
    | TransactionNotFound
    | SubcategoryNotFound
    | TransferSubcategoriesNotFound
      /** `prisma.wallet.delete` on an id that has no row */
    | RecordNotFound
      /** the stored row's wallet no longer exists, so reading its id fails */
    | WalletRelationMissing
      /** the stored amount is 0, so the proportional USD value is not a finite number */
    | UsdUndefined
      /** a row create names a column the table does not have (`amountUsd`) */
    | UnknownColumn

  /** The message carried by `{status: false, message}`. The first six are the texts
      the actions throw; the last four stand for errors raised by the database
      client or the JavaScript runtime. */
  function Message(e: Error): (m: string)
    ensures |m| > 0
  {
    match e
    case WalletNotFound => "Wallet not found"
    case ExchangeRateNotFound => "Exchange rate not found"
    case InsufficientFunds => "Insufficient funds"
    case TransactionNotFound => "Transaction not found"
    case SubcategoryNotFound => "Subcategory not found"
    case TransferSubcategoriesNotFound => "Internal transfer subcategories not found"
    case RecordNotFound => "Record to delete does not exist."
    case WalletRelationMissing => "Cannot read properties of null (reading 'id')"
    case UsdUndefined => "amountUSD is not a finite number"
    case UnknownColumn => "Unknown argument `amountUsd`. Did you mean `amountUSD`?"
  }

  datatype Result<+T> = Ok(value: T) | Err(error: Error)

  /** Sentinel subcategory names the actions look up by exact match. */
  const InitialBalanceName: string := "Balance Inicial"
  const WalletAdjustmentName: string := "Ajuste de Billetera"
  const InternalTransferName: string := "Transferencias Internas"

  function Abs(x: real): (r: real)
    ensures r >= 0.0 && (r == x || r == -x)
  {
    if x < 0.0 then -x else x
  }
}
