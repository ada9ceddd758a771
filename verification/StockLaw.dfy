/** Conservation of stock over every run of the shop. */
module StockLaw {
  import opened Common
  import opened Commerce

  /** What an order still holds of a product: nothing once it was restocked. */
  function HeldOf(product: string): Order -> int {
    (o: Order) => if o.stockRestored then 0 else Quantity(o.items, product)
  }

  /** What truncating the aggregated quantity to 32 bits left undecremented. */
  function DriftOf(product: string): Order -> int {
    (o: Order) => Quantity(o.items, product) - ToInt32(Quantity(o.items, product))
  }

  /** The net amount an order has taken from the stock column. */
  function TakenOf(product: string): Order -> int {
    (o: Order) => ToInt32(Quantity(o.items, product)) - (if o.stockRestored then Quantity(o.items, product) else 0)
  }

  /** Replacing an order by one with the same lines and claim leaves the account alone. */
  lemma SameAccount(orders: seq<Order>, i: nat, o: Order, product: string)
    requires i < |orders| && o.items == orders[i].items && o.stockRestored == orders[i].stockRestored
    ensures Sum(orders[i := o], TakenOf(product)) == Sum(orders, TakenOf(product))
  {
    SumUpdate(orders, i, o, TakenOf(product));
  }

  /** Column plus net amounts taken: the quantity every step leaves unchanged. */
  function Account(w: World, product: string): int
    requires product in w.stock
  {
    w.stock[product] + Sum(w.orders, TakenOf(product))
  }

  lemma CheckoutKeepsAccount(w: World, job: CheckoutJob, product: string)
    requires product in w.stock
    ensures Checkout(w, job).stock.Keys == w.stock.Keys
    ensures Account(Checkout(w, job), product) == Account(w, product)
  {
    if CheckoutOutcome(w, job) == Created {
      SumAppend(w.orders, NewOrder(job), TakenOf(product));
      if !Mentions(job.items, product) {
        UnmentionedIsZero(job.items, product);
      }
    }
  }

  lemma RestockKeepsAccount(w: World, i: nat, product: string)
    requires product in w.stock
    ensures HandleRestock(w, i).stock.Keys == w.stock.Keys
    ensures Account(HandleRestock(w, i), product) == Account(w, product)
  {
    if RestockCommits(w, i) {
      var o := w.orders[i];
      SumUpdate(w.orders, i, o.(stockRestored := true), TakenOf(product));
      if !Mentions(o.items, product) {
        UnmentionedIsZero(o.items, product);
      }
    }
  }

  /** Status changes, claims of statistics and conversation moves leave the
      account alone. */
  lemma RelabelKeepsAccount(w: World, i: nat, status: OrderStatus, product: string)
    requires product in w.stock
    ensures Account(MarkPaid(w, i), product) == Account(Cancel(w, i), product) == Account(w, product)
    ensures Account(Apply(w, DoPatch(i, status)), product) == Account(w, product)
  {
    if i < |w.orders| {
      SameAccount(w.orders, i, w.orders[i].(status := Paid), product);
      SameAccount(w.orders, i, w.orders[i].(status := Cancelled), product);
      SameAccount(w.orders, i, w.orders[i].(status := status), product);
    }
  }

  lemma DeliverKeepsAccount(w: World, task: Task, product: string)
    requires product in w.stock
    ensures var u := Apply(w, DoDeliver(task));
            u.stock.Keys == w.stock.Keys && Account(u, product) == Account(w, product)
  {
    match task
    case Restock(i) => RestockKeepsAccount(w, i, product);
    case ProfileStats(i, _, _) =>
      if i < |w.orders| { SameAccount(w.orders, i, w.orders[i].(statsRecorded := true), product); }
  }

  lemma StepKeepsAccount(w: World, step: Step, product: string)
    requires product in w.stock
    ensures Apply(w, step).stock.Keys == w.stock.Keys
    ensures Account(Apply(w, step), product) == Account(w, product)
  {
    match step
    case DoCheckout(job) => CheckoutKeepsAccount(w, job, product);
    case DoMarkPaid(i) => RelabelKeepsAccount(w, i, Paid, product);
    case DoCancel(i) => RelabelKeepsAccount(w, i, Paid, product);
    case DoPatch(i, status) => RelabelKeepsAccount(w, i, status, product);
    case DoDeliver(task) => DeliverKeepsAccount(w, task, product);
    case _ =>
  }

  lemma {:induction false} RunKeepsAccount(w: World, steps: seq<Step>, product: string)
    requires product in w.stock
    ensures Run(w, steps).stock.Keys == w.stock.Keys
    ensures Account(Run(w, steps), product) == Account(w, product)
  {
    if steps != [] {
      RunKeepsAccount(w, steps[..|steps| - 1], product);
      StepKeepsAccount(Run(w, steps[..|steps| - 1]), steps[|steps| - 1], product);
    }
  }

  /** Over every interleaving, what is on the shelf plus what unrestored orders
      hold is the initial stock plus the truncation drift of all orders. */
  lemma StockLaw(w: World, steps: seq<Step>, product: string)
    requires Initial(w) && product in w.stock
    ensures var u := Run(w, steps);
            && product in u.stock
            && u.stock[product] + Sum(u.orders, HeldOf(product))
               == w.stock[product] + Sum(u.orders, DriftOf(product))
  {
    var u := Run(w, steps);
    RunKeepsAccount(w, steps, product);
    SumOfSums(u.orders, TakenOf(product), DriftOf(product), HeldOf(product));
  }

  /** Cancelling an order and delivering its restock undoes its checkout: every
      product is back where it was, if and only if the order's combined quantity
      of it fits the 32-bit decrement. */
  lemma RestockUndoesCheckout(w: World, job: CheckoutJob, product: string)
    requires CheckoutOutcome(w, job) == Created && product in w.stock
    requires RestockCommits(Cancel(Checkout(w, job), |w.orders|), |w.orders|)
    ensures var u := HandleRestock(Cancel(Checkout(w, job), |w.orders|), |w.orders|);
            && product in u.stock
            && (u.stock[product] == w.stock[product] <==> FitsInt32(Quantity(job.items, product)))
  {
    if !Mentions(job.items, product) {
      UnmentionedIsZero(job.items, product);
    }
  }

  // ---- positive quantities ---------------------------------------------------

  predicate PositiveItems(items: seq<Item>) {
    forall i :: 0 <= i < |items| ==> 0 < items[i].quantity
  }

  predicate PositiveStep(step: Step) { step.DoCheckout? ==> PositiveItems(step.job.items) }

  predicate PositiveSteps(steps: seq<Step>) { forall step <- steps :: PositiveStep(step) }

  lemma PositiveQuantity(items: seq<Item>, product: string)
    requires PositiveItems(items)
    ensures 0 <= Quantity(items, product)
    ensures 0 <= Quantity(items, product) - ToInt32(Quantity(items, product))
  {
    SumNonNegative(items, QuantityOf(product));
  }

  predicate Stocked(w: World) {
    (forall o <- w.orders :: PositiveItems(o.items)) && NonNegative(w.stock)
  }

  lemma OrdersStayPositive(w: World, step: Step)
    requires Stocked(w) && PositiveStep(step)
    ensures forall o <- Apply(w, step).orders :: PositiveItems(o.items)
  {
  }

  lemma PositiveNeverOverdraws(w: World, i: nat)
    requires Stocked(w)
    ensures !Overdraws(w, i)
  {
    if i < |w.orders| {
      forall p ensures 0 <= Quantity(w.orders[i].items, p) {
        PositiveQuantity(w.orders[i].items, p);
      }
    }
  }

  lemma StepKeepsStocked(w: World, step: Step)
    requires Stocked(w) && PositiveStep(step)
    ensures Stocked(Apply(w, step))
  {
    OrdersStayPositive(w, step);
    if step.DoDeliver? {
      PositiveNeverOverdraws(w, step.task.order);
    }
    BelowZeroExactly(w, step);
  }

  /** With positive quantities no product's stock is ever negative. */
  lemma {:induction false} StockNeverNegative(w: World, steps: seq<Step>)
    requires Initial(w) && PositiveSteps(steps)
    requires forall p <- w.stock :: 0 <= w.stock[p]
    ensures Stocked(Run(w, steps))
  {
    if steps != [] {
      var front := steps[..|steps| - 1];
      assert forall step <- front :: step in steps;
      StockNeverNegative(w, front);
      StepKeepsStocked(Run(w, front), steps[|steps| - 1]);
    }
  }

  predicate NonNegative(stock: map<string, int>) { forall p <- stock :: 0 <= stock[p] }

  /** The restock of order `i` commits and adds a negative combined quantity larger
      than what is left of some product. */
  predicate Overdraws(w: World, i: nat) {
    RestockCommits(w, i)
    && exists p <- w.stock :: Mentions(w.orders[i].items, p) && w.stock[p] + Quantity(w.orders[i].items, p) < 0
  }

  predicate DeliversOverdraft(w: World, step: Step) {
    step.DoDeliver? && step.task in w.tasks && step.task.Restock? && Overdraws(w, step.task.order)
  }

  lemma CheckoutStaysNonNegative(w: World, job: CheckoutJob)
    requires NonNegative(w.stock)
    ensures NonNegative(Checkout(w, job).stock)
  {
    var u := Checkout(w, job);
    forall p <- u.stock ensures 0 <= u.stock[p] {
      if CheckoutOutcome(w, job) == Created && Mentions(job.items, p) {
        assert Affords(w.stock, job.items, p);
      }
    }
  }

  lemma RestockBelowZero(w: World, i: nat)
    requires NonNegative(w.stock)
    ensures !NonNegative(HandleRestock(w, i).stock) <==> Overdraws(w, i)
  {
    var u := HandleRestock(w, i);
    if RestockCommits(w, i) {
      if p :| p in w.stock && Mentions(w.orders[i].items, p) && w.stock[p] + Quantity(w.orders[i].items, p) < 0 {
        assert u.stock[p] < 0;
      }
    }
  }

  /** Stock that is nowhere negative goes below zero in exactly one way, whatever
      the quantities ordered: a delivery of such a restock. */
  lemma BelowZeroExactly(w: World, step: Step)
    requires NonNegative(w.stock)
    ensures !NonNegative(Apply(w, step).stock)
            <==> DeliversOverdraft(w, step)
  {
    match step
    case DoCheckout(job) => CheckoutStaysNonNegative(w, job);
    case DoDeliver(task) => RestockBelowZero(w, task.order);
    case _ =>
  }

  /** After every prefix of the run. */
  predicate AlwaysNonNegative(w: World, steps: seq<Step>) {
    NonNegative(Run(w, steps).stock) && (steps != [] ==> AlwaysNonNegative(w, steps[..|steps| - 1]))
  }

  predicate NoOverdraft(w: World, steps: seq<Step>) {
    steps != [] ==>
      var n := |steps| - 1;
      NoOverdraft(w, steps[..n]) && !DeliversOverdraft(Run(w, steps[..n]), steps[n])
  }

  /** Stock is non-negative all along a run if and only if no delivery of the run
      is such a restock. */
  lemma {:induction false} NeverNegativeExactly(w: World, steps: seq<Step>)
    requires NonNegative(w.stock)
    ensures AlwaysNonNegative(w, steps) <==> NoOverdraft(w, steps)
  {
    if steps != [] {
      var n := |steps| - 1;
      NeverNegativeExactly(w, steps[..n]);
      if AlwaysNonNegative(w, steps[..n]) {
        BelowZeroExactly(Run(w, steps[..n]), steps[n]);
      }
    }
  }

  /** Conservation holds of a product exactly when no order's combined quantity
      of it overflowed the 32-bit decrement. */
  lemma ConservedExactlyWhenNoOverflow(w: World, steps: seq<Step>, product: string)
    requires Initial(w) && PositiveSteps(steps) && product in w.stock
    requires forall p <- w.stock :: 0 <= w.stock[p]
    ensures var u := Run(w, steps);
            && product in u.stock
            && (u.stock[product] + Sum(u.orders, HeldOf(product)) == w.stock[product]
                <==> forall o <- u.orders :: FitsInt32(Quantity(o.items, product)))
  {
    var u := Run(w, steps);
    StockLaw(w, steps, product);
    StockNeverNegative(w, steps);
    forall o <- u.orders
      ensures 0 <= DriftOf(product)(o)
      ensures DriftOf(product)(o) == 0 <==> FitsInt32(Quantity(o.items, product))
    {
      PositiveQuantity(o.items, product);
    }
    SumZero(u.orders, DriftOf(product));
  }

  // ---- what goes wrong outside those bounds ----------------------------------

  const SHOP: World :=
    World(map["p" := 0], [], map["c" := C.State.Lead, "d" := C.State.Lead], [], {}, {}, map[])

  function Ordering(conversation: string, items: seq<Item>): CheckoutJob {
    CheckoutJob(conversation, "ama", "", Business("GHS"), items)
  }

  lemma OneLine(line: Item)
    ensures Quantity([line], line.product) == line.quantity
  {
    SumAppend([], line, QuantityOf(line.product));
    assert [] + [line] == [line];
  }

  lemma FourLines(line: Item)
    ensures Quantity([line, line, line, line], line.product) == 4 * line.quantity
  {
    var f := QuantityOf(line.product);
    OneLine(line);
    SumAppend([line], line, f);
    SumAppend([line] + [line], line, f);
    SumAppend([line] + [line] + [line], line, f);
    assert [line] + [line] + [line] + [line] == [line, line, line, line];
  }

  lemma RunOne(w: World, step: Step)
    ensures Run(w, [step]) == Apply(w, step)
  {
    assert [step][..0] == [];
  }

  lemma RunMore(w: World, steps: seq<Step>, step: Step)
    ensures Run(w, steps + [step]) == Apply(Run(w, steps), step)
  {
    assert (steps + [step])[..|steps|] == steps;
  }

  /** Four lines of 2^30 add up to 2^32, which truncates to nothing: the order
      is created from an empty shelf and nothing is decremented for it. */
  lemma OverflowOversells()
    ensures var line := Item("p", 1, 0x4000_0000);
            var steps := [DoCheckout(Ordering("c", [line, line, line, line]))];
            var u := Run(SHOP, steps);
            && Initial(SHOP) && PositiveSteps(steps)
            && |u.orders| == 1 && u.stock["p"] == 0
            && Quantity(u.orders[0].items, "p") == 0x1_0000_0000
  {
    var line := Item("p", 1, 0x4000_0000);
    var job := Ordering("c", [line, line, line, line]);
    FourLines(line);
    RunOne(SHOP, DoCheckout(job));
    assert CheckoutOutcome(SHOP, job) == Created by {
      assert Affords(SHOP.stock, job.items, "p");
    }
  }

  lemma ConjureStock(line: Item)
    requires line == Item("p", 1, -5)
    ensures var w := Checkout(SHOP, Ordering("c", [line]));
            && w.stock == map["p" := 5] && |w.orders| == 1 && w.orders[0].items == [line]
            && w.orders[0].status == Confirmed && !w.orders[0].stockRestored && w.orders[0].key == ""
            && |w.events| == 1 && w.events[0].kind == OrderCreated && w.conversations["d"] == C.State.Lead
  {
    OneLine(line);
    assert Mentions([line], "p") by { assert [line][0].product == "p"; }
    assert Affords(SHOP.stock, [line], "p");
  }

  lemma BuyConjured(w: World, line: Item)
    requires line == Item("p", 1, 5) && w.stock == map["p" := 5]
    requires "d" in w.conversations && w.conversations["d"] == C.State.Lead
    ensures var u := Checkout(w, Ordering("d", [line]));
            && u.stock == map["p" := 0] && u.orders[..|w.orders|] == w.orders
            && |u.orders| == |w.orders| + 1
            && (forall e <- u.events :: e in w.events || e.kind == OrderCreated)
  {
    OneLine(line);
    assert Mentions([line], "p") by { assert [line][0].product == "p"; }
    assert Affords(w.stock, [line], "p");
  }

  lemma CancelAndRestock(w: World, line: Item)
    requires line == Item("p", 1, -5) && w.stock == map["p" := 0]
    requires |w.orders| > 0 && w.orders[0].items == [line]
    requires w.orders[0].status == Confirmed && !w.orders[0].stockRestored
    requires forall e <- w.events :: e.kind == OrderCreated
    ensures var u := Apply(Apply(Cancel(w, 0), DoPublish(|w.events|, {Restock(0)})), DoDeliver(Restock(0)));
            u.stock == map["p" := -5]
  {
    OneLine(line);
    assert Mentions([line], "p") by { assert [line][0].product == "p"; }
    var v := Cancel(w, 0);
    assert v.events == w.events + [v.events[|w.events|]];
    assert Restock(0) in Apply(v, DoPublish(|w.events|, {Restock(0)})).tasks;
  }

  lemma RunThree(w: World, steps: seq<Step>, a: Step, b: Step, c: Step)
    ensures Run(w, steps + [a] + [b] + [c]) == Apply(Apply(Apply(Run(w, steps), a), b), c)
  {
    RunMore(w, steps, a);
    RunMore(w, steps + [a], b);
    RunMore(w, steps + [a] + [b], c);
  }

  /** One customer conjures stock up and another buys it. */
  lemma ConjuredAndBought() returns (steps: seq<Step>)
    ensures var w := Run(SHOP, steps);
            && w.stock == map["p" := 0] && |w.orders| > 0 && w.orders[0].items == [Item("p", 1, -5)]
            && w.orders[0].status == Confirmed && !w.orders[0].stockRestored
            && (forall e <- w.events :: e.kind == OrderCreated)
  {
    var conjured, bought := Item("p", 1, -5), Item("p", 1, 5);
    var s1, s2 := DoCheckout(Ordering("c", [conjured])), DoCheckout(Ordering("d", [bought]));
    var w := Checkout(SHOP, s1.job);
    ConjureStock(conjured);
    BuyConjured(w, bought);
    RunOne(SHOP, s1);
    RunMore(SHOP, [s1], s2);
    steps := [s1] + [s2];
    assert Run(SHOP, steps).orders[0] == Run(SHOP, steps).orders[..|w.orders|][0];
  }

  /** A negative quantity passes the availability test, so another customer can
      buy what it conjured up and the restock then drives the shelf below zero. */
  lemma NegativeQuantityOversells()
    ensures exists steps :: Initial(SHOP) && Run(SHOP, steps).stock == map["p" := -5]
  {
    var steps := ConjuredAndBought();
    var w := Run(SHOP, steps);
    CancelAndRestock(w, Item("p", 1, -5));
    RunThree(SHOP, steps, DoCancel(0), DoPublish(|w.events|, {Restock(0)}), DoDeliver(Restock(0)));
  }
}
