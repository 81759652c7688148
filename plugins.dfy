/** The optional shipping and voucher modules a cart consults
    (get_shipping_module and get_vouchers_module). Their internals are not
    part of this model: each is a record of uninterpreted functions over
    what a module is shown of the cart. Amounts are integer cents. */
module Plugins {
  import opened Wrappers
  import opened Lines

  /** What a module is shown of a cart: its stored lines and its voucher codes. */
  datatype CartView = CartView(lines: seq<Line>, voucherCodes: seq<string>)

  /** One discount a voucher module grants. */
  datatype Discount = Discount(amount: int)

  /** A shipping module: the cost of shipping a cart, and its complaints. */
  datatype ShippingModule = ShippingModule(
    calculate: CartView -> int,
    getErrors: CartView -> seq<string>)

  /** A voucher module: given a cart, its voucher codes and whether shipping
      is discountable, the discounts granted and possibly an invalid code. */
  datatype VoucherModule = VoucherModule(
    calculateDiscounts: (CartView, seq<string>, bool) -> (seq<Discount>, Option<string>))

  /** Which optional modules are installed. */
  datatype Settings = Settings(shipping: Option<ShippingModule>, vouchers: Option<VoucherModule>)

  /** The sum of the discount amounts. */
  function SumAmounts(ds: seq<Discount>): int
  {
    if ds == [] then 0 else ds[0].amount + SumAmounts(ds[1..])
  }

  /** When no discount is negative, the total is at least every single
      discount, and so never negative. */
  lemma {:induction false} SumAmountsBounds(ds: seq<Discount>)
    ensures (forall d :: d in ds ==> d.amount >= 0) ==>
              SumAmounts(ds) >= 0 && forall d :: d in ds ==> d.amount <= SumAmounts(ds)
  {
    if ds != [] && forall d :: d in ds ==> d.amount >= 0 {
      assert forall d :: d in ds[1..] ==> d in ds;
      SumAmountsBounds(ds[1..]);
      assert forall d :: d in ds ==> d == ds[0] || d in ds[1..];
    }
  }
}
