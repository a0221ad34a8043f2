/** The decisions of the order handlers: the stock check and decrement behind
    `POST /order`, the order total, and the one-way payment transition behind
    `POST /order/pay`. */
module Inventory {
  import opened Tables

  const Unpaid: string := "unpaid"
  const Paid: string := "paid"

  // ---------------------------------------------------------------------------
  // Reserving stock, as written

  /** The handler's `if product.Stock < order.Quantity` followed by
      `product.Stock -= order.Quantity`, in 64-bit arithmetic. Nothing rejects a
      quantity of zero or below. */
  function ReserveAsWritten(p: Product, quantity: Int64): (r: Result<Product>)
    ensures r.Err? <==> p.stock < quantity
    ensures r.Err? ==> r.error == InsufficientStock
    ensures r.Ok? ==> r.value == p.(stock := r.value.stock)
    ensures r.Ok? ==> r.value.stock == (if p.stock - quantity < -MinInt64 then p.stock - quantity
                                        else p.stock - quantity - TwoTo64)
  {
    if p.stock < quantity then Err(InsufficientStock)
    else Ok(p.(stock := Wrap64(p.stock - quantity)))
  }

  /** A negative quantity passes the stock check and raises the stock. */
  lemma NegativeQuantityRestocks()
    ensures var p := Product(1, "pen", "office", 200, 10);
            && ReserveAsWritten(p, -3) == Ok(p.(stock := 13))
            && OrderTotal(-3, p.price) < 0
  {
  }

  /** With 64-bit wrap-around, a large negative quantity drives the stock below zero. */
  lemma NegativeQuantityWrapsStock()
    ensures var p := Product(1, "pen", "office", 200, 1);
            var r := ReserveAsWritten(p, MinInt64 + 1);
            r.Ok? && r.value.stock < 0
  {
    var p := Product(1, "pen", "office", 200, 1);
    assert p.stock - (MinInt64 + 1) == MinInt64 + TwoTo64;
  }

  // ---------------------------------------------------------------------------
  // Reserving stock, corrected: an order asks for at least one unit

  function Reserve(p: Product, quantity: Int64): (r: Result<Product>)
    ensures r.Ok? <==> 0 < quantity <= p.stock
    ensures r.Err? ==> r.error == (if quantity <= 0 then InvalidQuantity else InsufficientStock)
    ensures r.Ok? ==> r.value == p.(stock := p.stock - quantity) && 0 <= r.value.stock < p.stock
  {
    if quantity <= 0 then Err(InvalidQuantity)
    else if p.stock < quantity then Err(InsufficientStock)
    else Ok(p.(stock := Wrap64(p.stock - quantity)))
  }

  /** `order.Total = float64(order.Quantity) * product.Price`, in cents. */
  function OrderTotal(quantity: int, price: int): (total: int)
    ensures quantity > 0 && price >= 0 ==> total >= price
    ensures price > 0 ==> (total < 0 <==> quantity < 0)
  {
    quantity * price
  }

  /** Orders for one product taken one after another: the product afterwards and
      the number of units sold. A rejected order changes nothing. */
  function ReserveEach(p: Product, quantities: seq<Int64>): (Product, nat)
    decreases |quantities|
  {
    if |quantities| == 0 then (p, 0)
    else match Reserve(p, quantities[0])
      case Err(_) => ReserveEach(p, quantities[1..])
      case Ok(q) =>
        var (last, sold) := ReserveEach(q, quantities[1..]);
        (last, sold + quantities[0])
  }

  /** The order path never drives stock negative, and every unit that leaves the
      stock is accounted for by an accepted order. */
  lemma {:induction false} ReserveEachConserves(p: Product, quantities: seq<Int64>)
    ensures var (last, sold) := ReserveEach(p, quantities);
            && last == p.(stock := last.stock)
            && last.stock + sold == p.stock
            && (p.stock >= 0 ==> last.stock >= 0)
    decreases |quantities|
  {
    if |quantities| > 0 {
      match Reserve(p, quantities[0])
      case Err(_) => ReserveEachConserves(p, quantities[1..]);
      case Ok(q) => ReserveEachConserves(q, quantities[1..]);
    }
  }

  /** Stock 10 at 2.00: an order for 3 costs 6.00 and leaves 7, after which an
      order for 8 is turned down. */
  lemma SecondOrderRejected()
    ensures var p := Product(1, "pen", "office", 200, 10);
            && Reserve(p, 3) == Ok(p.(stock := 7))
            && OrderTotal(3, p.price) == 600
            && Reserve(p.(stock := 7), 8) == Err(InsufficientStock)
            && ReserveEach(p, [3, 8]) == (p.(stock := 7), 3)
  {
    var p := Product(1, "pen", "office", 200, 10);
    assert [3, 8][1..] == [8];
    assert [8][1..] == [];
  }

  // ---------------------------------------------------------------------------
  // Payment

  /** `if order.Status != "unpaid"` reject, else `order.Status = "paid"`. */
  function Pay(status: string): (r: Result<string>)
    ensures r.Ok? <==> status == Unpaid
    ensures r.Ok? ==> r.value == Paid
    ensures r.Err? ==> r.error == AlreadyPaid
  {
    if status != Unpaid then Err(AlreadyPaid) else Ok(Paid)
  }

  /** An order is paid at most once: paying again is refused. */
  lemma {:induction false} PayAtMostOnce(status: string)
    ensures Pay(status).Ok? ==> Pay(Pay(status).value) == Err(AlreadyPaid)
  {
  }
}
