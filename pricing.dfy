/** The pricing rule applied when an order is created: the unit price is
    `price_per_month || price_per_year || 0` and the total is the unit price
    times the quantity, which defaults to 1 when the request omits it.
    Prices are whole numbers (cents, say); an absent or `null` price is `None`. */
module Pricing {
  import opened JsValues

  /** A price field is truthy when it is present and non-zero. */
  predicate IsSet(price: Option<int>) {
    price.Some? && price.value != 0
  }

  /** `price_per_month || price_per_year || 0`: the first truthy price. */
  function UnitPrice(month: Option<int>, year: Option<int>): (u: int)
    ensures IsSet(month) ==> u == month.value
    ensures !IsSet(month) && IsSet(year) ==> u == year.value
    ensures u == 0 <==> !IsSet(month) && !IsSet(year)
  {
    if IsSet(month) then month.value
    else if IsSet(year) then year.value
    else 0
  }

  /** The destructuring default `quantity = 1`: only an omitted quantity
      becomes 1; a given quantity is taken as it is, unvalidated. */
  function OrderedQuantity(quantity: Option<int>): (q: int)
    ensures quantity.None? ==> q == 1
    ensures quantity.Some? ==> q == quantity.value
  {
    match quantity
    case None => 1
    case Some(n) => n
  }

  /** `unitPrice * quantity`. */
  function TotalPrice(month: Option<int>, year: Option<int>, quantity: Option<int>): (t: int)
    ensures IsSet(month) ==> t == month.value * OrderedQuantity(quantity)
    ensures !IsSet(month) && IsSet(year) ==> t == year.value * OrderedQuantity(quantity)
    ensures !IsSet(month) && !IsSet(year) ==> t == 0
    ensures quantity.None? ==> t == UnitPrice(month, year)
  {
    UnitPrice(month, year) * OrderedQuantity(quantity)
  }
}
