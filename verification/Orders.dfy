/** A limit order: its value, the arithmetic of one execution, and the mutable object that
    holds it (`source/order_matcher/order.h`, `source/order_matcher/order.cpp`). */
module Orders {
  import opened Wrappers

  datatype Side = NonSupported | Buy | Sell

  /** The fields of an order. `average` is None where the program would compute 0/0. */
  datatype OrderState = OrderState(
    id: nat,
    clientId: string,
    security: nat,
    session: nat,
    side: Side,
    price: real,
    quantity: int,
    open: int,
    executed: int,
    cancelled: bool,
    average: Option<real>,
    lastPrice: real,
    lastQuantity: int)

  predicate Filled(o: OrderState) {
    o.executed == o.quantity
  }

  predicate Balanced(o: OrderState) {
    o.executed + o.open == o.quantity
  }

  /** An order as the constructor leaves it: nothing executed, everything open. */
  predicate IsNew(o: OrderState) {
    o.open == o.quantity && o.executed == 0 && !o.cancelled && o.average == Some(0.0)
  }

  function Quotient(total: real, count: int): Option<real> {
    if count == 0 then None else Some(total / count as real)
  }

  /** The running average after one more execution. */
  function NextAverage(o: OrderState, price: real, quantity: int): Option<real> {
    if o.average.None? then None
    else Quotient(o.average.value * o.executed as real + price * quantity as real, quantity + o.executed)
  }

  function Executed(o: OrderState, price: real, quantity: int): OrderState {
    o.(average := NextAverage(o, price, quantity),
       open := o.open - quantity,
       executed := o.executed + quantity,
       lastPrice := price,
       lastQuantity := quantity)
  }

  /** The average times the executed quantity: what the order has traded for so far. */
  ghost predicate Paid(o: OrderState, amount: real) {
    o.average.Some? && o.average.value * o.executed as real == amount
  }

  /** One execution adds exactly price times quantity to what the average stands for. */
  lemma ExecutedPaid(o: OrderState, price: real, quantity: int, amount: real)
    requires Paid(o, amount) && o.executed >= 0 && quantity > 0
    ensures Paid(Executed(o, price, quantity), amount + price * quantity as real)
  {
    var total := amount + price * quantity as real;
    var n := (quantity + o.executed) as real;
    assert NextAverage(o, price, quantity) == Quotient(total, quantity + o.executed);
    assert total / n * n == total;
  }

  /** The mutable order object. */
  class Order {
    var id: nat
    var clientId: string
    var security: nat
    var session: nat
    var side: Side
    var price: real
    var quantity: int
    var open: int
    var executed: int
    var cancelled: bool
    var average: Option<real>
    var lastPrice: real
    var lastQuantity: int

    function View(): OrderState
      reads this
    {
      OrderState(id, clientId, security, session, side, price, quantity, open, executed,
                 cancelled, average, lastPrice, lastQuantity)
    }

    constructor (id: nat, clientId: string, security: nat, session: nat, side: Side, price: real, quantity: int)
      ensures IsNew(View()) && Balanced(View())
      ensures View() == OrderState(id, clientId, security, session, side, price, quantity, quantity, 0,
                                   false, Some(0.0), 0.0, 0)
    {
      this.id, this.clientId, this.security, this.session := id, clientId, security, session;
      this.side, this.price, this.quantity := side, price, quantity;
      open := quantity;
      executed := 0;
      cancelled := false;
      average := Some(0.0);
      lastPrice := 0.0;
      lastQuantity := 0;
    }

    /** The copy a container makes when an order is inserted by value. */
    constructor Copy(o: OrderState)
      ensures View() == o
    {
      id, clientId, security, session := o.id, o.clientId, o.security, o.session;
      side, price, quantity, open := o.side, o.price, o.quantity, o.open;
      executed, cancelled, average := o.executed, o.cancelled, o.average;
      lastPrice, lastQuantity := o.lastPrice, o.lastQuantity;
    }

    method Execute(tradePrice: real, tradeQuantity: int)
      modifies this
      ensures View() == Executed(old(View()), tradePrice, tradeQuantity)
    {
      if average.Some? {
        var total := average.value * executed as real;
        total := total + tradePrice * tradeQuantity as real;
        average := Quotient(total, tradeQuantity + executed);
        assert total == old(View()).average.value * old(View()).executed as real + tradePrice * tradeQuantity as real;
      }
      open := open - tradeQuantity;
      executed := executed + tradeQuantity;
      lastPrice := tradePrice;
      lastQuantity := tradeQuantity;
    }

    method Cancel()
      modifies this
      ensures View() == old(View()).(cancelled := true)
    {
      cancelled := true;
    }
  }
}
