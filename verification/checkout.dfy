/** The checkout page: a three-step flow (shipping, payment, confirmation)
    that turns the cart into an archived order. The 3.5-second delay before
    the order is recorded is modelled as a separate `Settle` event. */
module CheckoutPage {
  import opened Prelude
  import opened Types
  import Store
  import CartPage

  datatype Stage = Shipping | Payment | Confirmation
  {
    /** Position in the flow. */
    function Rank(): nat
    {
      match this
      case Shipping => 0
      case Payment => 1
      case Confirmation => 2
    }
  }

  /** The page's own state: the step, whether an authorisation is in flight,
      and the order waiting to be recorded when it completes. */
  datatype Checkout = Checkout(step: Stage, isProcessing: bool, pending: Option<Order>)

  const InitialCheckout: Checkout := Checkout(Shipping, false, None)

  /** The prefix of every order id; the random suffix is an input. */
  const OrderPrefix: string := "SA-ORD-"

  /** An order's total is what its own lines add up to. */
  predicate TotalMatchesItems(o: Order)
  {
    o.total == CartPage.Subtotal(o.items)
  }

  /** The order handleFinalize builds from the cart. */
  function NewOrder(cart: seq<CartItem>, suffix: string, date: string): (o: Order)
    ensures TotalMatchesItems(o)
    ensures o.items == cart && o.status == ARCHIVED
    ensures StartsWith(o.id, OrderPrefix) && o.id[|OrderPrefix|..] == suffix
  {
    Order(OrderPrefix + suffix, date, cart, CartPage.Subtotal(cart), ARCHIVED)
  }

  /** With an empty cart, before confirmation, the page shows
      NO_ACQUISITION_ACTIVE and none of its buttons. */
  predicate ShowsNoAcquisition(c: Checkout, cart: seq<CartItem>)
  {
    |cart| == 0 && c.step != Confirmation
  }

  datatype Event =
    | InitializePayment
    | Authorize(suffix: string, date: string)
    | Settle

  /** Initialize_Payment is rendered only on the shipping step. */
  predicate CanInitializePayment(c: Checkout, cart: seq<CartItem>)
  {
    !ShowsNoAcquisition(c, cart) && c.step == Shipping
  }

  /** AUTHORIZE_TRANSACTION is rendered only on the payment step and is
      disabled while processing. */
  predicate CanAuthorize(c: Checkout, cart: seq<CartItem>)
  {
    !ShowsNoAcquisition(c, cart) && c.step == Payment && !c.isProcessing
  }

  /** One event on the page together with the session it reads and writes. */
  function Next(c: Checkout, s: Store.Session, e: Event): (r: (Checkout, Store.Session))
    ensures r.0.step != c.step ==> r.0.step == Confirmation || (c.step == Shipping && r.0.step == Payment)
    ensures r.0.step == Payment && c.step != Payment ==> r.1 == s
  {
    match e
    case InitializePayment =>
      if CanInitializePayment(c, s.cart) then (c.(step := Payment), s) else (c, s)
    case Authorize(suffix, date) =>
      if CanAuthorize(c, s.cart) then (Checkout(Payment, true, Some(NewOrder(s.cart, suffix, date))), s)
      else (c, s)
    case Settle =>
      match c.pending
      case None => (c, s)
      case Some(o) =>
        var s1 := Store.Step(Store.Step(s, Store.AddOrderA(o)), Store.ClearCartA);
        (Checkout(Confirmation, false, None), s1)
  }

  /** Replays a series of events from a starting point. */
  function Run(c: Checkout, s: Store.Session, events: seq<Event>): (Checkout, Store.Session)
    decreases |events|
  {
    if events == [] then (c, s)
    else
      var r := Next(c, s, events[0]);
      Run(r.0, r.1, events[1..])
  }

  /** Authorising captures the cart as it is and starts processing. */
  lemma AuthorizeCapturesCart(c: Checkout, s: Store.Session, suffix: string, date: string)
    requires CanAuthorize(c, s.cart)
    ensures var r := Next(c, s, Authorize(suffix, date));
      r.0.isProcessing && r.0.pending == Some(NewOrder(s.cart, suffix, date)) && r.1 == s
    ensures !CanAuthorize(Next(c, s, Authorize(suffix, date)).0, s.cart)
  {
  }

  /** When the delay ends the pending order heads the order list, the cart
      is empty, processing has stopped and the page shows the confirmation. */
  lemma SettleRecordsOrder(c: Checkout, s: Store.Session, o: Order)
    requires c.pending == Some(o)
    ensures var r := Next(c, s, Settle);
      r.1.orders == [o] + s.orders && r.1.cart == []
      && r.0.step == Confirmation && !r.0.isProcessing && r.0.pending == None
    ensures !ShowsNoAcquisition(Next(c, s, Settle).0, [])
  {
  }

  /** What holds at every point of the flow: a pending order exists exactly
      while processing, and every order (pending or recorded) totals its lines. */
  predicate Consistent(c: Checkout, s: Store.Session)
  {
    (c.pending.Some? <==> c.isProcessing)
    && (c.pending.Some? ==> c.step == Payment && TotalMatchesItems(c.pending.value))
    && forall i :: 0 <= i < |s.orders| ==> TotalMatchesItems(s.orders[i])
  }

  /** Every event keeps the flow consistent, and in a consistent flow the
      step only moves shipping → payment → confirmation, one step at a time. */
  lemma NextKeepsConsistent(c: Checkout, s: Store.Session, e: Event)
    requires Consistent(c, s)
    ensures Consistent(Next(c, s, e).0, Next(c, s, e).1)
    ensures var k := Next(c, s, e).0.step.Rank(); k == c.step.Rank() || k == c.step.Rank() + 1
  {
    if e.Settle? && c.pending.Some? {
      var r := Next(c, s, e);
      assert r.1.orders == [c.pending.value] + s.orders;
      forall i | 0 <= i < |r.1.orders| ensures TotalMatchesItems(r.1.orders[i]) {
        if i > 0 {
          assert r.1.orders[i] == s.orders[i - 1];
        }
      }
    }
  }

  /** From the initial page, with any session whose orders are consistent,
      every order ever recorded totals its own lines and the step only ever
      moves forward. */
  lemma {:induction false} RunKeepsConsistent(c: Checkout, s: Store.Session, events: seq<Event>)
    requires Consistent(c, s)
    ensures Consistent(Run(c, s, events).0, Run(c, s, events).1)
    ensures Run(c, s, events).0.step.Rank() >= c.step.Rank()
    decreases |events|
  {
    if events != [] {
      var r := Next(c, s, events[0]);
      NextKeepsConsistent(c, s, events[0]);
      RunKeepsConsistent(r.0, r.1, events[1..]);
    }
  }

  /** The initial page is consistent whenever the recorded orders are. */
  lemma InitialIsConsistent(s: Store.Session)
    requires forall i :: 0 <= i < |s.orders| ==> TotalMatchesItems(s.orders[i])
    ensures Consistent(InitialCheckout, s)
    ensures InitialCheckout.step == Shipping
  {
  }
}
