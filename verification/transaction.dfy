/** One card transaction of the export, with the validation its constructor
    performs. Amounts are integer cents (CHF, and the foreign currency). */
module Transactions {
  import opened Wrappers
  import opened Calendar

  datatype Transaction = Transaction(
    category: string,
    merchant: string,
    date: CalendarDate,
    time: Option<string>,
    location: Option<string>,
    amount: int,
    foreignAmount: Option<int>,
    foreignCurrency: Option<string>)
  {
    /** The `description` property is the merchant text itself. */
    function Description(): string {
      merchant
    }

    /** Both foreign fields present; a currency alone does not count. */
    predicate HasForeignCurrency() {
      foreignAmount.Some? && foreignCurrency.Some?
    }
  }

  /** The invariant every constructed transaction satisfies. */
  predicate Valid(t: Transaction) {
    t.amount != 0 && (t.foreignAmount.Some? ==> t.foreignCurrency.Some?)
  }

  datatype TransactionError = ZeroAmount | ForeignAmountWithoutCurrency

  /** The dataclass constructor followed by `__post_init__`: the zero check
      comes first, then the foreign-amount check. Negative amounts (payments)
      and a currency without an amount are accepted. */
  function NewTransaction(
    category: string, merchant: string, date: CalendarDate,
    time: Option<string>, location: Option<string>, amount: int,
    foreignAmount: Option<int>, foreignCurrency: Option<string>): (r: Result<Transaction, TransactionError>)
    ensures r.Ok? <==> amount != 0 && (foreignAmount.Some? ==> foreignCurrency.Some?)
    ensures amount == 0 ==> r == Err(ZeroAmount)
    ensures r.Ok? ==> Valid(r.value)
    ensures r.Ok? ==> r.value.category == category && r.value.merchant == merchant
                      && r.value.date == date && r.value.time == time
                      && r.value.location == location && r.value.amount == amount
                      && r.value.foreignAmount == foreignAmount
                      && r.value.foreignCurrency == foreignCurrency
  {
    if amount == 0 then Err(ZeroAmount)
    else if foreignAmount.Some? && foreignCurrency.None? then Err(ForeignAmountWithoutCurrency)
    else Ok(Transaction(category, merchant, date, time, location, amount, foreignAmount, foreignCurrency))
  }

  /** On a constructed transaction the currency is implied by the foreign
      amount, so `hasForeignCurrency` comes down to the amount alone. */
  lemma ForeignFlagOfValid(t: Transaction)
    requires Valid(t)
    ensures t.HasForeignCurrency() <==> t.foreignAmount.Some?
    ensures t.Description() == t.merchant
  {
  }

  /** A payment (negative amount) and a currency without an amount are
      accepted; an amount without a currency is refused. */
  lemma ConstructionExamples(d: CalendarDate)
    ensures NewTransaction("Refund", "Shop", d, None, None, -5000, None, None).Ok?
    ensures NewTransaction("Fuel", "Shell", d, None, None, 8000, None, Some("EUR")).Ok?
    ensures NewTransaction("Fuel", "Shell", d, None, None, 8000, Some(7500), None) == Err(ForeignAmountWithoutCurrency)
    ensures NewTransaction("Fuel", "Shell", d, None, None, 0, Some(7500), None) == Err(ZeroAmount)
  {
  }
}
