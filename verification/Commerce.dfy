/** Orders, stock, events and conversations as one explicit state, with every
    database transaction and queue delivery as one atomic step on it.

    An order's fresh id is its index in `orders`. Money is in minor units. */
module Commerce {
  import opened Common
  import C = Conversations

  const INT32_MIN: int := -0x8000_0000
  const INT32_MAX: int := 0x7fff_ffff

  datatype OrderStatus =
    Pending | Confirmed | PaymentPending | Paid | Processing | Shipped | Delivered | Cancelled

  datatype Item = Item(product: string, price: int, quantity: int)

  datatype Order = Order(
    conversation: string, customer: string, key: string, total: int, items: seq<Item>,
    status: OrderStatus, stockRestored: bool, statsRecorded: bool)

  datatype EventKind = OrderCreated | OrderCancelled
  datatype Event = Event(order: nat, kind: EventKind, customer: string, total: int)

  /** Queue tasks whose consumers touch this state. */
  datatype Task = Restock(order: nat) | ProfileStats(order: nat, customer: string, total: int)

  datatype Profile = Profile(totalOrders: int, totalSpent: int)

  datatype World = World(
    stock: map<string, int>,
    orders: seq<Order>,
    conversations: C.Table,
    events: seq<Event>,
    tasks: set<Task>,          // everything ever enqueued: delivery is at least once
    settling: set<nat>,        // marked PAID, conversation not yet moved
    profiles: map<string, Profile>)

  /** The business row the checkout job looks up. */
  datatype Business = NoBusiness | Business(currency: string)

  datatype CheckoutJob = CheckoutJob(
    conversation: string, customer: string, sourceMessage: string, business: Business, items: seq<Item>)

  datatype Outcome =
    Created | NothingResolved | NoCurrency | NotOrderable | Duplicate | InsufficientStock | StockOutOfRange

  // ---- quantities -----------------------------------------------------------

  /** Two's-complement truncation to 32 bits: Go's int32(...) conversion. */
  function ToInt32(x: int): (r: int)
    ensures INT32_MIN <= r <= INT32_MAX
    ensures FitsInt32(x) <==> r == x
    ensures (x - r) % 0x1_0000_0000 == 0
  {
    (x - INT32_MIN) % 0x1_0000_0000 + INT32_MIN
  }

  predicate FitsInt32(x: int) { INT32_MIN <= x <= INT32_MAX }

  function QuantityOf(product: string): Item -> int {
    (item: Item) => if item.product == product then item.quantity else 0
  }

  /** The combined quantity of one product over all lines. */
  function Quantity(items: seq<Item>, product: string): int { Sum(items, QuantityOf(product)) }

  function LineTotal(item: Item): int { item.price * item.quantity }

  function Total(items: seq<Item>): int { Sum(items, (item: Item) => LineTotal(item)) }

  predicate Mentions(items: seq<Item>, product: string) {
    exists i :: 0 <= i < |items| && items[i].product == product
  }

  lemma {:induction false} UnmentionedIsZero(items: seq<Item>, product: string)
    requires !Mentions(items, product)
    ensures Quantity(items, product) == 0
  {
    if items != [] {
      var front := items[..|items| - 1];
      assert forall i :: 0 <= i < |front| ==> front[i] == items[i];
      UnmentionedIsZero(front, product);
    }
  }

  // ---- domain events --------------------------------------------------------

  function Count(events: seq<Event>, order: nat, kind: EventKind): nat {
    if events == [] then 0
    else
      var last := events[|events| - 1];
      Count(events[..|events| - 1], order, kind) + (if last.order == order && last.kind == kind then 1 else 0)
  }

  predicate HasEvent(events: seq<Event>, order: nat, kind: EventKind) {
    exists e <- events :: e.order == order && e.kind == kind
  }

  /** INSERT ... ON CONFLICT (aggregate, type) DO NOTHING. */
  function InsertEvent(events: seq<Event>, e: Event): seq<Event> {
    if HasEvent(events, e.order, e.kind) then events else events + [e]
  }

  /** The tasks one event fans out to, restricted to the consumers modelled here. */
  function Subscribers(e: Event): set<Task> {
    match e.kind
    case OrderCreated => {ProfileStats(e.order, e.customer, e.total)}
    case OrderCancelled => {Restock(e.order)}
  }

  // ---- transactions ---------------------------------------------------------

  predicate Open(status: OrderStatus) { status in {Confirmed, PaymentPending} }

  const ORDERABLE: seq<C.State> := [C.State.Browsing, C.State.Checkout, C.State.Support, C.State.Lead]

  /** One conditional UPDATE over the aggregated entries: None is an integer
      out-of-range error; otherwise the rows that held enough and the new stock. */
  predicate Affords(stock: map<string, int>, items: seq<Item>, product: string) {
    product in stock && ToInt32(Quantity(items, product)) <= stock[product]
  }

  predicate DecrementOverflows(stock: map<string, int>, items: seq<Item>) {
    exists p <- stock :: Mentions(items, p) && Affords(stock, items, p)
      && !FitsInt32(stock[p] - ToInt32(Quantity(items, p)))
  }

  predicate AllAfford(stock: map<string, int>, items: seq<Item>) {
    forall i :: 0 <= i < |items| ==> Affords(stock, items, items[i].product)
  }

  function Decremented(stock: map<string, int>, items: seq<Item>): map<string, int> {
    map p | p in stock :: if Mentions(items, p) then stock[p] - ToInt32(Quantity(items, p)) else stock[p]
  }

  predicate KeyTaken(orders: seq<Order>, key: string) {
    key != "" && exists o <- orders :: o.key == key
  }

  function NewOrder(job: CheckoutJob): Order {
    Order(job.conversation, job.customer, job.sourceMessage, Total(job.items), job.items, Confirmed, false, false)
  }

  function CheckoutOutcome(w: World, job: CheckoutJob): Outcome {
    if job.items == [] then NothingResolved
    else if job.business == Business("") then NoCurrency
    else if !C.TransitionTo(w.conversations, job.conversation, ORDERABLE, C.State.Invoicing).0 then NotOrderable
    else if KeyTaken(w.orders, job.sourceMessage) then Duplicate
    else if DecrementOverflows(w.stock, job.items) then StockOutOfRange
    else if !AllAfford(w.stock, job.items) then InsufficientStock
    else Created
  }

  function Checkout(w: World, job: CheckoutJob): World {
    if CheckoutOutcome(w, job) == Created then
      var o := NewOrder(job);
      w.(conversations := C.TransitionTo(w.conversations, job.conversation, ORDERABLE, C.State.Invoicing).1,
         orders := w.orders + [o],
         stock := Decremented(w.stock, job.items),
         events := InsertEvent(w.events, Event(|w.orders|, OrderCreated, o.customer, o.total)))
    else w
  }

  /** The currency drops an order exactly when the business row exists and leaves it
      empty; a missing row is as good as one with a currency. */
  lemma CurrencyDropsExactly(w: World, job: CheckoutJob, currency: string)
    requires currency != ""
    ensures CheckoutOutcome(w, job) == NoCurrency <==> job.items != [] && job.business == Business("")
    ensures CheckoutOutcome(w, job.(business := NoBusiness)) == CheckoutOutcome(w, job.(business := Business(currency)))
  {
  }

  /** First half of settling a payment: the order becomes PAID whatever it was. */
  function MarkPaid(w: World, i: nat): World {
    if i < |w.orders| then
      w.(orders := w.orders[i := w.orders[i].(status := Paid)], settling := w.settling + {i})
    else w
  }

  /** Second half: move the order's conversation INVOICING -> PAID. */
  function FinishPaid(w: World, i: nat): World {
    if i in w.settling && i < |w.orders| then
      w.(conversations := C.Transition(w.conversations, w.orders[i].conversation, C.State.Invoicing, C.State.Paid),
         settling := w.settling - {i})
    else w
  }

  function Cancel(w: World, i: nat): World {
    if i < |w.orders| && Open(w.orders[i].status) then
      var o := w.orders[i];
      w.(orders := w.orders[i := o.(status := Cancelled)],
         conversations := C.Transition(w.conversations, o.conversation, C.State.Invoicing, C.State.Cancelled),
         events := InsertEvent(w.events, Event(i, OrderCancelled, o.customer, o.total)))
    else w
  }

  function Restored(stock: map<string, int>, items: seq<Item>): map<string, int> {
    map p | p in stock :: if Mentions(items, p) then stock[p] + Quantity(items, p) else stock[p]
  }

  /** Claim stock_restored_at, then add the aggregated quantities back; an
      out-of-range sum rolls the claim back too. */
  predicate RestockCommits(w: World, i: nat) {
    && i < |w.orders| && !w.orders[i].stockRestored
    && forall p <- w.stock :: Mentions(w.orders[i].items, p) ==>
         FitsInt32(w.stock[p] + Quantity(w.orders[i].items, p))
  }

  function HandleRestock(w: World, i: nat): World {
    if RestockCommits(w, i) then
      w.(orders := w.orders[i := w.orders[i].(stockRestored := true)],
         stock := Restored(w.stock, w.orders[i].items))
    else w
  }

  /** Claim stats_recorded_at, then add the order to its customer's profile. */
  function HandleProfileStats(w: World, i: nat, customer: string, total: int): World {
    if i < |w.orders| && !w.orders[i].statsRecorded then
      w.(orders := w.orders[i := w.orders[i].(statsRecorded := true)],
         profiles := if customer !in w.profiles then w.profiles else
           var p := w.profiles[customer];
           w.profiles[customer := Profile(p.totalOrders + 1, p.totalSpent + total)])
    else w
  }

  // ---- steps ----------------------------------------------------------------

  datatype Step =
    | DoCheckout(job: CheckoutJob)
    | DoMarkPaid(order: nat)
    | DoFinishPaid(order: nat)
    | DoCancel(order: nat)                      // failed payment or expiry sweep
    | DoPatch(order: nat, status: OrderStatus)  // vendor fulfilment endpoint
    | DoPublish(event: nat, tasks: set<Task>)   // any part of one event's fan-out
    | DoDeliver(task: Task)                     // first delivery or redelivery
    | DoConverse(conversation: string, read: C.State, intent: C.Intent)
    | DoFirstContact(conversation: string)
    | DoTakeOver(conversation: string)          // vendor takeover or escalation
    | DoRelease(conversation: string)

  function Apply(w: World, step: Step): World {
    match step
    case DoCheckout(job) => Checkout(w, job)
    case DoMarkPaid(i) => MarkPaid(w, i)
    case DoFinishPaid(i) => FinishPaid(w, i)
    case DoCancel(i) => Cancel(w, i)
    case DoPatch(i, status) =>
      if i < |w.orders| then w.(orders := w.orders[i := w.orders[i].(status := status)]) else w
    case DoPublish(k, tasks) =>
      if k < |w.events| then w.(tasks := w.tasks + tasks * Subscribers(w.events[k])) else w
    case DoDeliver(task) =>
      if task !in w.tasks then w
      else (
        match task
        case Restock(i) => HandleRestock(w, i)
        case ProfileStats(i, customer, total) => HandleProfileStats(w, i, customer, total))
    case DoConverse(c, read, intent) => w.(conversations := C.Converse(w.conversations, c, read, intent))
    case DoFirstContact(c) =>
      if c in w.conversations then w else w.(conversations := w.conversations[c := C.State.Lead])
    case DoTakeOver(c) =>
      if c in w.conversations then w.(conversations := w.conversations[c := C.State.Escalated]) else w
    case DoRelease(c) =>
      if c in w.conversations then w.(conversations := w.conversations[c := C.State.Lead]) else w
  }

  function Run(w: World, steps: seq<Step>): World {
    if steps == [] then w else Apply(Run(w, steps[..|steps| - 1]), steps[|steps| - 1])
  }

  /** A shop before its first order. */
  predicate Initial(w: World) {
    && w.orders == [] && w.events == [] && w.tasks == {} && w.settling == {}
    && (forall c <- w.profiles :: w.profiles[c] == Profile(0, 0))
    && (forall c <- w.conversations :: w.conversations[c] != C.State.Invoicing)
  }
}
