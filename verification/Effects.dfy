/** Exactly-once effects from at-least-once delivery: order events, restocks and
    profile counters over every run of the shop. */
module Effects {
  import opened Common
  import opened Commerce

  lemma CountAppend(events: seq<Event>, e: Event, i: nat, kind: EventKind)
    ensures Count(events + [e], i, kind)
            == Count(events, i, kind) + (if e.order == i && e.kind == kind then 1 else 0)
  {
    assert (events + [e])[..|events|] == events;
  }

  lemma {:induction false} CountPositive(events: seq<Event>, i: nat, kind: EventKind)
    ensures 0 < Count(events, i, kind) <==> HasEvent(events, i, kind)
  {
    if events != [] {
      var n := |events| - 1;
      CountPositive(events[..n], i, kind);
      assert events == events[..n] + [events[n]];
    }
  }

  /** The unique index at work: insertion brings the count to one and touches no other key. */
  lemma InsertCounts(events: seq<Event>, e: Event, i: nat, kind: EventKind)
    requires Count(events, e.order, e.kind) <= 1
    ensures var after := InsertEvent(events, e);
            Count(after, i, kind) == if e.order == i && e.kind == kind then 1 else Count(events, i, kind)
  {
    CountPositive(events, e.order, e.kind);
    CountAppend(events, e, i, kind);
  }

  // ---- profile counters --------------------------------------------------------

  function RecordedOf(customer: string): Order -> int {
    (o: Order) => if o.statsRecorded && o.customer == customer then 1 else 0
  }

  function SpentOf(customer: string): Order -> int {
    (o: Order) => if o.statsRecorded && o.customer == customer then o.total else 0
  }

  predicate ProfilesAgree(w: World) {
    forall c <- w.profiles ::
      w.profiles[c] == Profile(Sum(w.orders, RecordedOf(c)), Sum(w.orders, SpentOf(c)))
  }

  /** A rewrite of one order that keeps owner, total and marker keeps every counter. */
  lemma SameCounters(w: World, i: nat, o: Order)
    requires i < |w.orders| && ProfilesAgree(w)
    requires o.customer == w.orders[i].customer && o.total == w.orders[i].total
    requires o.statsRecorded == w.orders[i].statsRecorded
    ensures ProfilesAgree(w.(orders := w.orders[i := o]))
  {
    forall c <- w.profiles
      ensures Sum(w.orders[i := o], RecordedOf(c)) == Sum(w.orders, RecordedOf(c))
      ensures Sum(w.orders[i := o], SpentOf(c)) == Sum(w.orders, SpentOf(c))
    {
      SumUpdate(w.orders, i, o, RecordedOf(c));
      SumUpdate(w.orders, i, o, SpentOf(c));
    }
  }

  lemma CheckoutCounters(w: World, job: CheckoutJob)
    requires ProfilesAgree(w)
    ensures ProfilesAgree(Checkout(w, job))
  {
    forall c <- w.profiles
      ensures Sum(w.orders + [NewOrder(job)], RecordedOf(c)) == Sum(w.orders, RecordedOf(c))
      ensures Sum(w.orders + [NewOrder(job)], SpentOf(c)) == Sum(w.orders, SpentOf(c))
    {
      SumAppend(w.orders, NewOrder(job), RecordedOf(c));
      SumAppend(w.orders, NewOrder(job), SpentOf(c));
    }
  }

  lemma StatsCounters(w: World, i: nat)
    requires ProfilesAgree(w) && i < |w.orders|
    ensures ProfilesAgree(HandleProfileStats(w, i, w.orders[i].customer, w.orders[i].total))
  {
    var u := HandleProfileStats(w, i, w.orders[i].customer, w.orders[i].total);
    forall c <- u.profiles ensures u.profiles[c] == Profile(Sum(u.orders, RecordedOf(c)), Sum(u.orders, SpentOf(c))) {
      if !w.orders[i].statsRecorded {
        RecordedOnce(w.orders, i, c);
      }
    }
  }

  lemma RecordedOnce(orders: seq<Order>, i: nat, c: string)
    requires i < |orders| && !orders[i].statsRecorded
    ensures var later := orders[i := orders[i].(statsRecorded := true)];
            var own := orders[i].customer == c;
            && Sum(later, RecordedOf(c)) == Sum(orders, RecordedOf(c)) + (if own then 1 else 0)
            && Sum(later, SpentOf(c)) == Sum(orders, SpentOf(c)) + if own then orders[i].total else 0
  {
    SumUpdate(orders, i, orders[i].(statsRecorded := true), RecordedOf(c));
    SumUpdate(orders, i, orders[i].(statsRecorded := true), SpentOf(c));
  }

  // ---- the invariant -------------------------------------------------------------

  ghost predicate EventsMatch(w: World) {
    && (forall e <- w.events :: e.order < |w.orders|
          && e.customer == w.orders[e.order].customer && e.total == w.orders[e.order].total)
    && (forall i :: 0 <= i < |w.orders| ==> Count(w.events, i, OrderCreated) == 1)
    && (forall i: nat, kind :: Count(w.events, i, kind) <= 1)
  }

  predicate TaskMatches(w: World, task: Task) {
    && task.order < |w.orders|
    && (task.Restock? ==> HasEvent(w.events, task.order, OrderCancelled))
    && (task.ProfileStats? ==>
          task.customer == w.orders[task.order].customer && task.total == w.orders[task.order].total)
  }

  predicate TasksMatch(w: World) {
    && (forall task <- w.tasks :: TaskMatches(w, task))
    && (forall i :: 0 <= i < |w.orders| && w.orders[i].stockRestored ==> HasEvent(w.events, i, OrderCancelled))
  }

  ghost predicate ExactlyOnce(w: World) {
    EventsMatch(w) && TasksMatch(w) && ProfilesAgree(w)
  }

  lemma CheckoutExact(w: World, job: CheckoutJob)
    requires ExactlyOnce(w)
    ensures ExactlyOnce(Checkout(w, job))
  {
    var u := Checkout(w, job);
    CheckoutCounters(w, job);
    if CheckoutOutcome(w, job) == Created {
      var o := NewOrder(job);
      var e := Event(|w.orders|, OrderCreated, o.customer, o.total);
      forall i: nat, kind
        ensures Count(u.events, i, kind)
                == if i == e.order && kind == OrderCreated then 1 else Count(w.events, i, kind)
      {
        InsertCounts(w.events, e, i, kind);
      }
      forall f <- w.events ensures f in u.events {}
    }
  }

  lemma CancelExact(w: World, i: nat)
    requires ExactlyOnce(w)
    ensures ExactlyOnce(Cancel(w, i))
  {
    var u := Cancel(w, i);
    if i < |w.orders| && Open(w.orders[i].status) {
      var o := w.orders[i];
      SameCounters(w, i, o.(status := Cancelled));
      var e := Event(i, OrderCancelled, o.customer, o.total);
      forall j: nat, kind
        ensures Count(u.events, j, kind)
                == if j == i && kind == OrderCancelled then 1 else Count(w.events, j, kind)
      {
        InsertCounts(w.events, e, j, kind);
      }
      forall f <- w.events ensures f in u.events {}
      assert ProfilesAgree(u);
    }
  }

  lemma RestockExact(w: World, i: nat)
    requires ExactlyOnce(w) && Restock(i) in w.tasks
    ensures ExactlyOnce(HandleRestock(w, i))
  {
    assert TaskMatches(w, Restock(i));
    SameCounters(w, i, w.orders[i].(stockRestored := true));
    assert HasEvent(w.events, i, OrderCancelled);
    assert ProfilesAgree(HandleRestock(w, i));
  }

  lemma StatsExact(w: World, task: Task)
    requires ExactlyOnce(w) && task in w.tasks && task.ProfileStats?
    ensures ExactlyOnce(HandleProfileStats(w, task.order, task.customer, task.total))
  {
    assert TaskMatches(w, task);
    StatsCounters(w, task.order);
  }

  lemma DeliverExact(w: World, task: Task)
    requires ExactlyOnce(w) && task in w.tasks
    ensures ExactlyOnce(Apply(w, DoDeliver(task)))
  {
    match task
    case Restock(i) => RestockExact(w, i);
    case ProfileStats(_, _, _) => StatsExact(w, task);
  }

  lemma PaidExact(w: World, i: nat)
    requires ExactlyOnce(w)
    ensures ExactlyOnce(MarkPaid(w, i))
  {
    if i < |w.orders| {
      SameCounters(w, i, w.orders[i].(status := Paid));
      assert ProfilesAgree(MarkPaid(w, i));
    }
  }

  lemma PatchExact(w: World, i: nat, status: OrderStatus)
    requires ExactlyOnce(w)
    ensures ExactlyOnce(Apply(w, DoPatch(i, status)))
  {
    if i < |w.orders| {
      SameCounters(w, i, w.orders[i].(status := status));
    }
  }

  lemma PublishExact(w: World, k: nat, tasks: set<Task>)
    requires ExactlyOnce(w)
    ensures ExactlyOnce(Apply(w, DoPublish(k, tasks)))
  {
    if k < |w.events| {
      assert w.events[k] in w.events;
    }
  }

  lemma StepExact(w: World, step: Step)
    requires ExactlyOnce(w)
    ensures ExactlyOnce(Apply(w, step))
  {
    match step
    case DoCheckout(job) => CheckoutExact(w, job);
    case DoMarkPaid(i) => PaidExact(w, i);
    case DoFinishPaid(i) =>
    case DoCancel(i) => CancelExact(w, i);
    case DoPatch(i, status) => PatchExact(w, i, status);
    case DoPublish(k, tasks) => PublishExact(w, k, tasks);
    case DoDeliver(task) =>
      if task in w.tasks { DeliverExact(w, task); }
    case _ =>
  }

  /** On every run from an empty shop: each order has exactly one order.created
      event and at most one order.cancelled event, only orders with a cancelled
      event were restocked, and each profile counts and sums exactly its
      customer's recorded orders. */
  lemma {:induction false} RunExact(w: World, steps: seq<Step>)
    requires Initial(w)
    ensures ExactlyOnce(Run(w, steps))
  {
    if steps != [] {
      RunExact(w, steps[..|steps| - 1]);
      StepExact(Run(w, steps[..|steps| - 1]), steps[|steps| - 1]);
    }
  }

  // ---- history of a run ------------------------------------------------------------

  /** Step `k` of the run is the cancellation that closed open order `i`. */
  predicate CancelsAt(w: World, steps: seq<Step>, k: nat, i: nat)
    requires k < |steps|
  {
    var before := Run(w, steps[..k]);
    steps[k] == DoCancel(i) && i < |before.orders| && Open(before.orders[i].status)
  }

  /** Step `k` of the run is the delivery that put order `i`'s stock back. */
  predicate RestoresAt(w: World, steps: seq<Step>, k: nat, i: nat)
    requires k < |steps|
  {
    var before, after := Run(w, steps[..k]), Run(w, steps[..k + 1]);
    && i < |before.orders| && i < |after.orders|
    && !before.orders[i].stockRestored && after.orders[i].stockRestored
  }

  /** A step adds a cancelled event for `i` only by cancelling open order `i`. */
  lemma OnlyCancelAddsCancelled(w: World, step: Step, i: nat)
    requires !HasEvent(w.events, i, OrderCancelled) && HasEvent(Apply(w, step).events, i, OrderCancelled)
    ensures step == DoCancel(i) && i < |w.orders| && Open(w.orders[i].status)
  {
  }

  /** Cancelling an open order always emits its event. */
  lemma CancelEmits(w: World, step: Step, i: nat)
    ensures step == DoCancel(i) && i < |w.orders| && Open(w.orders[i].status) ==> HasEvent(Apply(w, step).events, i, OrderCancelled)
    ensures HasEvent(w.events, i, OrderCancelled) ==> HasEvent(Apply(w, step).events, i, OrderCancelled)
  {
    if e :| e in w.events && e.order == i && e.kind == OrderCancelled {
      assert e in Apply(w, step).events;
    }
    if step == DoCancel(i) && i < |w.orders| && Open(w.orders[i].status) && !HasEvent(w.events, i, OrderCancelled) {
      var o := w.orders[i];
      assert Event(i, OrderCancelled, o.customer, o.total) in Apply(w, step).events;
    }
  }

  /** An order has an order.cancelled event if and only if some step of the run
      cancelled it while it was open. */
  lemma {:induction false} CancelledEventExactly(w: World, steps: seq<Step>, i: nat)
    requires Initial(w)
    ensures HasEvent(Run(w, steps).events, i, OrderCancelled) <==> exists k :: 0 <= k < |steps| && CancelsAt(w, steps, k, i)
  {
    if HasEvent(Run(w, steps).events, i, OrderCancelled) {
      CancelledEventHasCause(w, steps, i);
    } else if steps != [] {
      var n := |steps| - 1;
      CancelledEventExactly(w, steps[..n], i);
      CancelEmits(Run(w, steps[..n]), steps[n], i);
      forall k | 0 <= k < |steps| ensures !CancelsAt(w, steps, k, i) {
        if k < n {
          assert steps[..n][..k] == steps[..k];
          assert !CancelsAt(w, steps[..n], k, i);
        }
      }
    }
  }

  lemma {:induction false} CancelledEventHasCause(w: World, steps: seq<Step>, i: nat)
    requires Initial(w) && HasEvent(Run(w, steps).events, i, OrderCancelled)
    ensures exists k :: 0 <= k < |steps| && CancelsAt(w, steps, k, i)
  {
    var n := |steps| - 1;
    if HasEvent(Run(w, steps[..n]).events, i, OrderCancelled) {
      CancelledEventHasCause(w, steps[..n], i);
      var k :| 0 <= k < n && CancelsAt(w, steps[..n], k, i);
      assert steps[..n][..k] == steps[..k];
      assert CancelsAt(w, steps, k, i);
    } else {
      OnlyCancelAddsCancelled(Run(w, steps[..n]), steps[n], i);
      assert CancelsAt(w, steps, n, i);
    }
  }

  /** Restored stock is always traced back to a cancellation of that very order. */
  lemma RestoredOnlyIfCancelled(w: World, steps: seq<Step>, i: nat)
    requires Initial(w)
    requires i < |Run(w, steps).orders| && Run(w, steps).orders[i].stockRestored
    ensures exists k :: 0 <= k < |steps| && CancelsAt(w, steps, k, i)
  {
    RunExact(w, steps);
    CancelledEventHasCause(w, steps, i);
  }

  /** Once set, the claim markers stay set and orders keep their lines. */
  lemma MarkersStick(w: World, step: Step, i: nat)
    requires i < |w.orders|
    ensures var u := Apply(w, step);
            && i < |u.orders| && u.orders[i].items == w.orders[i].items
            && (w.orders[i].stockRestored ==> u.orders[i].stockRestored)
            && (w.orders[i].statsRecorded ==> u.orders[i].statsRecorded)
  {
  }

  lemma {:induction false} MarkersStickOnRun(w: World, steps: seq<Step>, k: nat, i: nat)
    requires k <= |steps| && i < |Run(w, steps[..k]).orders|
    ensures i < |Run(w, steps).orders|
    ensures Run(w, steps[..k]).orders[i].stockRestored ==> Run(w, steps).orders[i].stockRestored
    decreases |steps|
  {
    if k == |steps| {
      assert steps[..k] == steps;
    } else {
      var n := |steps| - 1;
      assert steps[..n][..k] == steps[..k];
      MarkersStickOnRun(w, steps[..n], k, i);
      MarkersStick(Run(w, steps[..n]), steps[n], i);
    }
  }

  /** However often the task is redelivered, stock goes back at most once per order. */
  lemma RestoredAtMostOnce(w: World, steps: seq<Step>, j: nat, k: nat, i: nat)
    requires j < |steps| && k < |steps|
    requires RestoresAt(w, steps, j, i) && RestoresAt(w, steps, k, i)
    ensures j == k
  {
    if j < k {
      assert steps[..k][..j + 1] == steps[..j + 1];
      MarkersStickOnRun(w, steps[..k], j + 1, i);
    } else if k < j {
      assert steps[..j][..k + 1] == steps[..k + 1];
      MarkersStickOnRun(w, steps[..j], k + 1, i);
    }
  }

  /** A delivery that restores an order adds exactly its combined quantities, and
      a delivery that does not restore one leaves the shelf alone. */
  lemma RestoreIsExact(w: World, i: nat, p: string)
    requires i < |w.orders| && p in w.stock && Restock(i) in w.tasks
    ensures var u := Apply(w, DoDeliver(Restock(i)));
            u.stock[p] - w.stock[p]
            == if u.orders[i].stockRestored && !w.orders[i].stockRestored then Quantity(w.orders[i].items, p) else 0
  {
    if RestockCommits(w, i) && !Mentions(w.orders[i].items, p) {
      UnmentionedIsZero(w.orders[i].items, p);
    }
  }

  // ---- one order per message ---------------------------------------------------------

  /** The unique index on the idempotency key. */
  predicate KeysUnique(orders: seq<Order>) {
    forall i, j :: 0 <= i < j < |orders| && orders[i].key != "" ==> orders[i].key != orders[j].key
  }

  predicate SameKeys(orders: seq<Order>, later: seq<Order>) {
    |orders| <= |later| && forall i :: 0 <= i < |orders| ==> later[i].key == orders[i].key
  }

  lemma CheckoutKeepsKeys(w: World, job: CheckoutJob)
    ensures SameKeys(w.orders, Checkout(w, job).orders)
    ensures KeysUnique(w.orders) ==> KeysUnique(Checkout(w, job).orders)
  {
  }

  lemma StepKeepsKeys(w: World, step: Step)
    ensures SameKeys(w.orders, Apply(w, step).orders)
    ensures KeysUnique(w.orders) ==> KeysUnique(Apply(w, step).orders)
  {
    if step.DoCheckout? {
      CheckoutKeepsKeys(w, step.job);
    } else {
      assert SameKeys(w.orders, Apply(w, step).orders) && |Apply(w, step).orders| == |w.orders|;
    }
  }

  lemma {:induction false} RunKeepsKeys(w: World, steps: seq<Step>)
    requires KeysUnique(w.orders)
    ensures KeysUnique(Run(w, steps).orders)
  {
    if steps != [] {
      RunKeepsKeys(w, steps[..|steps| - 1]);
      StepKeepsKeys(Run(w, steps[..|steps| - 1]), steps[|steps| - 1]);
    }
  }

  /** However often a message's checkout job is delivered, it has at most one order. */
  lemma OneOrderPerMessage(w: World, steps: seq<Step>, i: nat, j: nat)
    requires Initial(w)
    requires var orders := Run(w, steps).orders;
             i < |orders| && j < |orders| && orders[i].key == orders[j].key != ""
    ensures i == j
  {
    RunKeepsKeys(w, steps);
  }

  /** A job whose message some order carries, whatever became of that order, changes
      nothing; a job whose message no order carries is never taken for a duplicate. */
  lemma DuplicateExactly(w: World, job: CheckoutJob)
    ensures job.sourceMessage != "" && (exists i :: 0 <= i < |w.orders| && w.orders[i].key == job.sourceMessage) ==>
      Checkout(w, job) == w && CheckoutOutcome(w, job) in {NothingResolved, NoCurrency, NotOrderable, Duplicate}
    ensures CheckoutOutcome(w, job) == Duplicate ==>
      job.sourceMessage != "" && exists i :: 0 <= i < |w.orders| && w.orders[i].key == job.sourceMessage
  {
    if i :| 0 <= i < |w.orders| && w.orders[i].key == job.sourceMessage {
      assert w.orders[i] in w.orders;
    }
  }

  /** Once a message has its order, redelivering its job changes nothing in any
      later state, cancelled and paid orders included. */
  lemma {:induction false} RedeliveryChangesNothing(w: World, i: nat, steps: seq<Step>, job: CheckoutJob)
    requires i < |w.orders| && w.orders[i].key == job.sourceMessage != ""
    ensures var u := Run(w, steps);
            i < |u.orders| && u.orders[i].key == job.sourceMessage && Apply(u, DoCheckout(job)) == u
  {
    if steps != [] {
      RedeliveryChangesNothing(w, i, steps[..|steps| - 1], job);
      StepKeepsKeys(Run(w, steps[..|steps| - 1]), steps[|steps| - 1]);
    }
    DuplicateExactly(Run(w, steps), job);
  }

  /** When a checkout creates an order: each guard by itself. */
  lemma CreatesExactly(w: World, job: CheckoutJob)
    ensures CheckoutOutcome(w, job) == Created <==>
      && job.items != [] && job.business != Business("")
      && job.conversation in w.conversations
      && w.conversations[job.conversation] in {C.State.Lead, C.State.Browsing, C.State.Checkout, C.State.Support}
      && (job.sourceMessage == "" || forall i :: 0 <= i < |w.orders| ==> w.orders[i].key != job.sourceMessage)
      && forall k :: 0 <= k < |job.items| ==>
           var p := job.items[k].product;
           var quantity := ToInt32(Quantity(job.items, p));
           p in w.stock && quantity <= w.stock[p] && w.stock[p] - quantity <= 0x7fff_ffff
                && -0x8000_0000 <= w.stock[p] - quantity
  {
    Orderable(w, job);
    DuplicateExactly(w, job);
    OverflowsSomewhere(w.stock, job.items);
    if job.sourceMessage != "" && !KeyTaken(w.orders, job.sourceMessage) {
      forall i | 0 <= i < |w.orders| ensures w.orders[i].key != job.sourceMessage {
        assert w.orders[i] in w.orders;
      }
    }
  }

  /** Line `k` asks for a product that is missing or short. */
  predicate Lacks(stock: map<string, int>, items: seq<Item>, k: nat)
    requires k < |items|
  {
    items[k].product !in stock || ToInt32(Quantity(items, items[k].product)) > stock[items[k].product]
  }

  /** Line `k` asks for a product that is there, but decrementing it leaves 32 bits. */
  predicate LeavesRange(stock: map<string, int>, items: seq<Item>, k: nat)
    requires k < |items|
  {
    !Lacks(stock, items, k)
    && !(-0x8000_0000 <= stock[items[k].product] - ToInt32(Quantity(items, items[k].product)) <= 0x7fff_ffff)
  }

  /** Why a job that gets as far as the stock is turned away: a decrement that leaves 32
      bits is an error, and else a product that is missing or short is a rejection. */
  lemma StockRejectsExactly(w: World, job: CheckoutJob)
    requires CheckoutOutcome(w, job) !in {NothingResolved, NoCurrency, NotOrderable, Duplicate}
    ensures CheckoutOutcome(w, job) == StockOutOfRange <==> exists k :: 0 <= k < |job.items| && LeavesRange(w.stock, job.items, k)
    ensures CheckoutOutcome(w, job) == InsufficientStock <==>
      && (exists k :: 0 <= k < |job.items| && Lacks(w.stock, job.items, k))
      && !exists k :: 0 <= k < |job.items| && LeavesRange(w.stock, job.items, k)
  {
    if DecrementOverflows(w.stock, job.items) {
      var p :| p in w.stock && Mentions(job.items, p) && Affords(w.stock, job.items, p)
               && !FitsInt32(w.stock[p] - ToInt32(Quantity(job.items, p)));
      var k :| 0 <= k < |job.items| && job.items[k].product == p;
      assert LeavesRange(w.stock, job.items, k);
    }
    forall k | 0 <= k < |job.items|
      ensures Lacks(w.stock, job.items, k) <==> !Affords(w.stock, job.items, job.items[k].product)
      ensures LeavesRange(w.stock, job.items, k) ==> DecrementOverflows(w.stock, job.items)
    {
      var p := job.items[k].product;
      assert Mentions(job.items, p);
    }
    if k :| 0 <= k < |job.items| && Lacks(w.stock, job.items, k) {
      assert !AllAfford(w.stock, job.items);
    }
    if !AllAfford(w.stock, job.items) {
      var k :| 0 <= k < |job.items| && !Affords(w.stock, job.items, job.items[k].product);
      assert Lacks(w.stock, job.items, k);
    }
  }

  lemma Orderable(w: World, job: CheckoutJob)
    ensures C.TransitionTo(w.conversations, job.conversation, ORDERABLE, C.State.Invoicing).0 <==>
      && job.conversation in w.conversations
      && w.conversations[job.conversation] in {C.State.Lead, C.State.Browsing, C.State.Checkout, C.State.Support}
  {
  }

  lemma OverflowsSomewhere(stock: map<string, int>, items: seq<Item>)
    ensures AllAfford(stock, items) && !DecrementOverflows(stock, items) <==>
      forall k :: 0 <= k < |items| ==>
        var p := items[k].product;
        p in stock && ToInt32(Quantity(items, p)) <= stock[p] && FitsInt32(stock[p] - ToInt32(Quantity(items, p)))
  {
    if AllAfford(stock, items) && !DecrementOverflows(stock, items) {
      forall k | 0 <= k < |items|
        ensures var p := items[k].product; p in stock && FitsInt32(stock[p] - ToInt32(Quantity(items, p)))
      {
        assert Affords(stock, items, items[k].product) && Mentions(items, items[k].product);
      }
    }
  }

  /** What is created: one open order with the job's own data, its stock taken, its
      conversation INVOICING and its event emitted. */
  lemma CreatedOrder(w: World, job: CheckoutJob)
    requires CheckoutOutcome(w, job) == Created && EventsMatch(w)
    ensures var u, n := Checkout(w, job), |w.orders|;
            && |u.orders| == n + 1 && u.orders[..n] == w.orders
            && u.orders[n].conversation == job.conversation && u.orders[n].customer == job.customer
            && u.orders[n].key == job.sourceMessage && u.orders[n].items == job.items
            && u.orders[n].total == Total(job.items)
            && u.orders[n].status == Confirmed && !u.orders[n].stockRestored && !u.orders[n].statsRecorded
            && u.conversations == w.conversations[job.conversation := C.State.Invoicing]
            && u.events == w.events + [Event(n, OrderCreated, job.customer, Total(job.items))]
  {
  }

  // ---- every effect happens ---------------------------------------------------------------

  /** Publishing and delivering an event's task carries out its effect: an order is
      recorded, and a cancelled one restocked unless a sum leaves 32 bits. */
  lemma EffectsHappen(w: World, k: nat)
    requires ExactlyOnce(w) && k < |w.events|
    ensures var e := w.events[k];
            var task := ProfileStats(e.order, e.customer, e.total);
            e.kind == OrderCreated ==>
              Apply(Apply(w, DoPublish(k, {task})), DoDeliver(task)).orders[e.order].statsRecorded
    ensures var e := w.events[k];
            var items := w.orders[e.order].items;
            e.kind == OrderCancelled ==>
              (Apply(Apply(w, DoPublish(k, {Restock(e.order)})), DoDeliver(Restock(e.order))).orders[e.order].stockRestored
               <==> w.orders[e.order].stockRestored || forall p <- w.stock ::
                      Mentions(items, p) ==> -0x8000_0000 <= w.stock[p] + Quantity(items, p) <= 0x7fff_ffff)
  {
    assert w.events[k] in w.events;
  }
}
