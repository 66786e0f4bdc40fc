/** Currency conversion against the latest exchange-rate snapshot. The snapshot maps a
    currency code to how many units of it one US dollar buys, so a native amount is
    converted to dollars by dividing by the rate. */
module Rates {
  import opened Ledger

  /** The latest snapshot, or None when no snapshot exists (or its data is null). */
  type Snapshot = Option<map<Currency, real>>

  /** The rate the actions use for `currency`: the code must be in the snapshot with a
      truthy value, so a missing code and a rate of 0 both mean "not found". */
  function RateToUsd(snapshot: Snapshot, currency: Currency): (r: Option<real>)
    ensures r.Some? <==> snapshot.Some? && currency in snapshot.value && snapshot.value[currency] != 0.0
    ensures r.Some? ==> r.value == snapshot.value[currency] && r.value != 0.0
  {
    if snapshot.Some? && currency in snapshot.value && snapshot.value[currency] != 0.0
    then Some(snapshot.value[currency])
    else None
  }

  /** Dollar value of a native amount at `rate`. */
  function ToUsd(amount: real, rate: real): (usd: real)
    requires rate != 0.0
    ensures usd * rate == amount
    ensures (usd == 0.0) == (amount == 0.0)
  {
    amount / rate
  }
}
