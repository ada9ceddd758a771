/** One open order per conversation: the INVOICING state as a lock on the order
    slot, over every run in which payments settle only still-open orders. */
module OrderSlot {
  import opened Common
  import opened Commerce
  import C = Conversations

  /** The orders that occupy their conversation's slot: those awaiting payment,
      and those paid whose conversation has not been moved yet. */
  predicate Holder(w: World, i: nat) {
    i < |w.orders| && (Open(w.orders[i].status) || i in w.settling)
  }

  predicate Invoicing(w: World, c: string) {
    c in w.conversations && w.conversations[c] == C.State.Invoicing
  }

  predicate HolderOf(w: World, i: nat, c: string) { Holder(w, i) && w.orders[i].conversation == c }

  /** A conversation is INVOICING exactly while one order holds its slot, and
      never do two orders hold it. */
  ghost predicate SlotInv(w: World) {
    && (forall i :: 0 <= i < |w.orders| && Holder(w, i) ==> Invoicing(w, w.orders[i].conversation))
    && (forall i, j | 0 <= i < |w.orders| && 0 <= j < |w.orders| && Holder(w, i) && Holder(w, j) ::
          w.orders[i].conversation == w.orders[j].conversation ==> i == j)
    && (forall c <- w.conversations :: Invoicing(w, c) ==> exists i: nat :: HolderOf(w, i, c))
    && (forall i <- w.settling :: i < |w.orders|)
  }

  /** The property the slot exists for. */
  predicate OneOpenOrder(w: World) {
    && (forall i, j | 0 <= i < |w.orders| && 0 <= j < |w.orders| && Open(w.orders[i].status) && Open(w.orders[j].status) ::
          w.orders[i].conversation == w.orders[j].conversation ==> i == j)
    && (forall i :: 0 <= i < |w.orders| && Open(w.orders[i].status) ==> Invoicing(w, w.orders[i].conversation))
  }

  lemma SlotGivesOneOpenOrder(w: World)
    requires SlotInv(w)
    ensures OneOpenOrder(w)
  {
    forall i | 0 <= i < |w.orders| && Open(w.orders[i].status) ensures Holder(w, i) {}
  }

  /** Same orders, slot holders and invoiced conversations: the invariant carries over. */
  lemma SameSlots(w: World, u: World)
    requires SlotInv(w)
    requires |u.orders| == |w.orders| && u.settling == w.settling
    requires forall i :: 0 <= i < |w.orders| ==>
      u.orders[i].conversation == w.orders[i].conversation && u.orders[i].status == w.orders[i].status
    requires forall c :: Invoicing(u, c) <==> Invoicing(w, c)
    ensures SlotInv(u)
  {
    forall i: nat ensures Holder(u, i) <==> Holder(w, i) {}
    forall c <- u.conversations | Invoicing(u, c) ensures exists i: nat :: HolderOf(u, i, c) {
      var i: nat :| HolderOf(w, i, c);
      assert HolderOf(u, i, c);
    }
  }

  /** A conversational turn never changes whether anything is INVOICING, even
      with a stale read. */
  lemma ConverseSlot(w: World, c: string, read: C.State, intent: C.Intent)
    requires SlotInv(w)
    ensures SlotInv(Apply(w, DoConverse(c, read, intent)))
  {
    C.ConverseKeepsInvoicing(w.conversations, c, read, intent);
    SameSlots(w, Apply(w, DoConverse(c, read, intent)));
  }

  /** Checkout takes the slot: it commits only from a state no holder allows. */
  lemma CheckoutSlot(w: World, job: CheckoutJob)
    requires SlotInv(w)
    ensures SlotInv(Checkout(w, job))
  {
    var u := Checkout(w, job);
    if CheckoutOutcome(w, job) == Created {
      var c, n := job.conversation, |w.orders|;
      assert !Invoicing(w, c) && Invoicing(u, c);
      forall i: nat ensures Holder(u, i) <==> Holder(w, i) || i == n {}
      assert HolderOf(u, n, c);
      forall d <- u.conversations | Invoicing(u, d) ensures exists i: nat :: HolderOf(u, i, d) {
        if d != c {
          var i: nat :| HolderOf(w, i, d);
          assert HolderOf(u, i, d);
        }
      }
    }
  }

  /** Releasing the slot: order `i` stops holding and its conversation leaves INVOICING. */
  lemma ReleaseSlot(w: World, u: World, i: nat)
    requires SlotInv(w) && Holder(w, i)
    requires |u.orders| == |w.orders| && u.settling == w.settling - {i} && !Open(u.orders[i].status)
    requires forall j :: 0 <= j < |w.orders| ==> u.orders[j].conversation == w.orders[j].conversation
    requires forall j :: 0 <= j < |w.orders| && j != i ==> u.orders[j].status == w.orders[j].status
    requires forall c :: Invoicing(u, c) <==> Invoicing(w, c) && c != w.orders[i].conversation
    ensures SlotInv(u)
  {
    forall j: nat ensures Holder(u, j) <==> Holder(w, j) && j != i {}
    forall c <- u.conversations | Invoicing(u, c) ensures exists j: nat :: HolderOf(u, j, c) {
      var j: nat :| HolderOf(w, j, c);
      assert HolderOf(u, j, c);
    }
  }

  lemma CancelSlot(w: World, i: nat)
    requires SlotInv(w) && (i in w.settling ==> i < |w.orders| && !Open(w.orders[i].status))
    ensures SlotInv(Cancel(w, i))
  {
    if i < |w.orders| && Open(w.orders[i].status) {
      assert Holder(w, i);
      ReleaseSlot(w, Cancel(w, i), i);
    }
  }

  /** Orders being settled stay PAID in quiet runs. */
  predicate SettlingPaid(w: World) {
    forall i <- w.settling :: i < |w.orders| && w.orders[i].status == Paid
  }

  lemma MarkPaidSlot(w: World, i: nat)
    requires SlotInv(w) && Holder(w, i)
    ensures SlotInv(MarkPaid(w, i))
  {
    var u := MarkPaid(w, i);
    forall j: nat ensures Holder(u, j) <==> Holder(w, j) {}
    forall c <- u.conversations | Invoicing(u, c) ensures exists j: nat :: HolderOf(u, j, c) {
      var j: nat :| HolderOf(w, j, c);
      assert HolderOf(u, j, c);
    }
  }

  lemma FinishPaidSlot(w: World, i: nat)
    requires SlotInv(w) && SettlingPaid(w)
    ensures SlotInv(FinishPaid(w, i))
  {
    if i in w.settling && i < |w.orders| {
      assert Holder(w, i);
      ReleaseSlot(w, FinishPaid(w, i), i);
    }
  }

  /** Steps without vendor overrides, in which a payment settles an order only
      while that order still holds its slot. */
  predicate Quiet(w: World, step: Step) {
    && !step.DoPatch? && !step.DoTakeOver? && !step.DoRelease?
    && (step.DoMarkPaid? && step.order < |w.orders| ==> Holder(w, step.order))
  }

  /** Deliveries, first contacts and publishes leave slots alone. */
  lemma DeliverSlot(w: World, task: Task)
    requires SlotInv(w)
    ensures SlotInv(Apply(w, DoDeliver(task)))
  {
    var u := Apply(w, DoDeliver(task));
    forall c ensures Invoicing(u, c) <==> Invoicing(w, c) {}
    SameSlots(w, u);
  }

  lemma BackgroundSlot(w: World, step: Step)
    requires SlotInv(w) && (step.DoFirstContact? || step.DoPublish?)
    ensures SlotInv(Apply(w, step))
  {
    var u := Apply(w, step);
    forall c ensures Invoicing(u, c) <==> Invoicing(w, c) {}
    SameSlots(w, u);
  }

  lemma StepKeepsSettlingPaid(w: World, step: Step)
    requires SlotInv(w) && SettlingPaid(w) && Quiet(w, step)
    ensures SettlingPaid(Apply(w, step))
  {
  }

  lemma StepSlot(w: World, step: Step)
    requires SlotInv(w) && SettlingPaid(w) && Quiet(w, step)
    ensures SlotInv(Apply(w, step)) && SettlingPaid(Apply(w, step))
  {
    StepKeepsSettlingPaid(w, step);
    match step
    case DoCheckout(job) => CheckoutSlot(w, job);
    case DoMarkPaid(i) => if i < |w.orders| { MarkPaidSlot(w, i); }
    case DoFinishPaid(i) => FinishPaidSlot(w, i);
    case DoCancel(i) => CancelSlot(w, i);
    case DoConverse(c, read, intent) => ConverseSlot(w, c, read, intent);
    case DoFirstContact(_) => BackgroundSlot(w, step);
    case DoPublish(_, _) => BackgroundSlot(w, step);
    case DoDeliver(task) => DeliverSlot(w, task);
  }

  predicate QuietRun(w: World, steps: seq<Step>) {
    forall k :: 0 <= k < |steps| ==> Quiet(Run(w, steps[..k]), steps[k])
  }

  /** On every quiet run, with stale conversational reads and with settlement
      split in two, a conversation has at most one order awaiting payment and is
      INVOICING exactly while its slot is held. */
  lemma {:induction false} RunOneOpenOrder(w: World, steps: seq<Step>)
    requires Initial(w) && QuietRun(w, steps)
    ensures SlotInv(Run(w, steps)) && SettlingPaid(Run(w, steps)) && OneOpenOrder(Run(w, steps))
  {
    if steps == [] {
      SlotGivesOneOpenOrder(w);
    } else {
      var front := steps[..|steps| - 1];
      forall k | 0 <= k < |front| ensures Quiet(Run(w, front[..k]), front[k]) {
        assert front[..k] == steps[..k];
      }
      RunOneOpenOrder(w, front);
      StepSlot(Run(w, front), steps[|steps| - 1]);
      SlotGivesOneOpenOrder(Run(w, steps));
    }
  }

  // ---- the guard the settlement lacks -------------------------------------------

  /** Both halves of a settlement, back to back. */
  function Settle(w: World, i: nat): World { FinishPaid(MarkPaid(w, i), i) }

  /** Settling any order whatever its status, as the code does, keeps the slot
      exactly when the order still holds it or its conversation is not invoiced. */
  lemma SettleKeepsSlotExactly(w: World, i: nat)
    requires SlotInv(w) && i < |w.orders|
    ensures SlotInv(Settle(w, i)) <==> Holder(w, i) || !Invoicing(w, w.orders[i].conversation)
  {
    var u, c := Settle(w, i), w.orders[i].conversation;
    if Holder(w, i) {
      ReleaseSlot(w, u, i);
    } else if !Invoicing(w, c) {
      forall j: nat ensures Holder(u, j) <==> Holder(w, j) {}
      forall d <- u.conversations | Invoicing(u, d) ensures exists j: nat :: HolderOf(u, j, d) {
        var j: nat :| HolderOf(w, j, d);
        assert HolderOf(u, j, d);
      }
    } else {
      var j: nat :| HolderOf(w, j, c);
      assert Holder(u, j) && !Invoicing(u, c);
    }
  }

  // ---- the failing case as a run --------------------------------------------------

  const SHOP: World := World(map["p" := 3], [], map["c" := C.State.Lead], [], {}, {}, map[])

  /** What matters of a world with the one conversation "c" and the one product "p". */
  datatype Stage = Stage(stock: int, state: C.State, statuses: seq<OrderStatus>)

  predicate Looks(w: World, a: Stage) {
    && w.stock == map["p" := a.stock] && w.conversations == map["c" := a.state]
    && |w.orders| == |a.statuses|
    && forall i :: 0 <= i < |w.orders| ==> w.orders[i].conversation == "c" && w.orders[i].status == a.statuses[i]
  }

  ghost predicate Leads(a: Stage, step: Step, b: Stage) {
    forall w :: Looks(w, a) ==> Looks(Apply(w, step), b)
  }

  /** A step that leads from a stage to the next extends a run that reached the first. */
  lemma PlayOn(w: World, steps: seq<Step>, a: Stage, step: Step, b: Stage)
    requires Looks(Run(w, steps), a) && Leads(a, step, b)
    ensures Looks(Run(w, steps + [step]), b)
  {
    RunOneMore(w, steps, step);
  }

  const BUY: Step := DoCheckout(CheckoutJob("c", "ama", "", Business("GHS"), [Item("p", 1, 1)]))

  lemma Buy(a: Stage)
    requires 1 <= a.stock <= 3 && a.state in ORDERABLE
    ensures Leads(a, BUY, Stage(a.stock - 1, C.State.Invoicing, a.statuses + [Confirmed]))
  {
    forall w | Looks(w, a)
      ensures Looks(Checkout(w, BUY.job), Stage(a.stock - 1, C.State.Invoicing, a.statuses + [Confirmed]))
    {
      CanBuy(w, a);
    }
  }

  lemma CanBuy(w: World, a: Stage)
    requires 1 <= a.stock <= 3 && a.state in ORDERABLE && Looks(w, a)
    ensures CheckoutOutcome(w, BUY.job) == Created && Decremented(w.stock, BUY.job.items) == map["p" := a.stock - 1]
  {
    var line := Item("p", 1, 1);
    SumAppend([], line, QuantityOf("p"));
    assert [] + [line] == [line];
    assert Mentions([line], "p") by { assert [line][0].product == "p"; }
    assert Affords(w.stock, [line], "p");
  }

  lemma CancelFirst(stock: int)
    ensures Leads(Stage(stock, C.State.Invoicing, [Confirmed]), DoCancel(0),
                  Stage(stock, C.State.Cancelled, [Cancelled]))
  {
  }

  /** Marking order 0 paid is recorded; finishing it later is what moves "c". */
  lemma SettleFirst(w: World, stock: int)
    requires Looks(w, Stage(stock, C.State.Invoicing, [Cancelled, Confirmed]))
    ensures Looks(FinishPaid(MarkPaid(w, 0), 0), Stage(stock, C.State.Paid, [Paid, Confirmed]))
  {
    var u := MarkPaid(w, 0);
    assert u.orders[0].conversation == "c" && 0 in u.settling;
  }

  lemma Turn(a: Stage, intent: C.Intent)
    requires a.state in {C.State.Paid, C.State.Cancelled} && intent in {C.CheckoutRequest, C.ProductInquiry}
    ensures Leads(a, DoConverse("c", a.state, intent), a.(state := C.State.Browsing))
  {
  }

  lemma RunAppend(w: World, steps: seq<Step>, more: seq<Step>)
    ensures Run(w, steps + more) == Run(Run(w, steps), more)
  {
    if more == [] {
      assert steps + more == steps;
    } else {
      RunAppend(w, steps, more[..|more| - 1]);
      AppendOne(w, steps, more);
    }
  }

  lemma AppendOne(w: World, steps: seq<Step>, more: seq<Step>)
    requires more != [] && Run(w, steps + more[..|more| - 1]) == Run(Run(w, steps), more[..|more| - 1])
    ensures Run(w, steps + more) == Run(Run(w, steps), more)
  {
    FrontOfSum(steps, more);
  }

  lemma RunOneMore(w: World, steps: seq<Step>, step: Step)
    ensures Run(w, steps + [step]) == Apply(Run(w, steps), step)
  {
    assert (steps + [step])[..|steps|] == steps;
  }

  predicate NoOverride(steps: seq<Step>) {
    forall step <- steps :: !step.DoPatch? && !step.DoTakeOver? && !step.DoRelease?
  }

  lemma BoughtAndCancelled() returns (steps: seq<Step>)
    ensures NoOverride(steps)
    ensures Looks(Run(SHOP, steps), Stage(2, C.State.Cancelled, [Cancelled]))
  {
    var s0, s1 := Stage(3, C.State.Lead, []), Stage(2, C.State.Invoicing, [Confirmed]);
    Buy(s0);
    PlayOn(SHOP, [], s0, BUY, s1);
    CancelFirst(2);
    PlayOn(SHOP, [] + [BUY], s1, DoCancel(0), Stage(2, C.State.Cancelled, [Cancelled]));
    steps := [] + [BUY] + [DoCancel(0)];
  }

  /** A turn reopens the conversation and the customer buys. */
  lemma Reorder(w: World, before: seq<Step>, a: Stage, intent: C.Intent) returns (steps: seq<Step>)
    requires NoOverride(before) && Looks(Run(w, before), a) && 1 <= a.stock <= 3
    requires a.state in {C.State.Paid, C.State.Cancelled} && intent in {C.CheckoutRequest, C.ProductInquiry}
    ensures NoOverride(steps)
    ensures Looks(Run(w, steps), Stage(a.stock - 1, C.State.Invoicing, a.statuses + [Confirmed]))
  {
    var turn, open := DoConverse("c", a.state, intent), a.(state := C.State.Browsing);
    Turn(a, intent);
    PlayOn(w, before, a, turn, open);
    Buy(open);
    PlayOn(w, before + [turn], open, BUY, Stage(a.stock - 1, C.State.Invoicing, a.statuses + [Confirmed]));
    steps := before + [turn] + [BUY];
  }

  lemma CancelledAndReplaced() returns (steps: seq<Step>)
    ensures NoOverride(steps)
    ensures Looks(Run(SHOP, steps), Stage(1, C.State.Invoicing, [Cancelled, Confirmed]))
  {
    steps := BoughtAndCancelled();
    steps := Reorder(SHOP, steps, Stage(2, C.State.Cancelled, [Cancelled]), C.CheckoutRequest);
    assert [Cancelled] + [Confirmed] == [Cancelled, Confirmed];
  }

  lemma TwoOpen(u: World)
    requires Looks(u, Stage(0, C.State.Invoicing, [Paid, Confirmed, Confirmed]))
    ensures !OneOpenOrder(u)
  {
    assert Open(u.orders[1].status) && Open(u.orders[2].status);
  }

  lemma SecondOrder(w: World) returns (steps: seq<Step>)
    requires Looks(w, Stage(1, C.State.Paid, [Paid, Confirmed]))
    ensures NoOverride(steps) && !OneOpenOrder(Run(w, steps))
  {
    steps := Reorder(w, [], Stage(1, C.State.Paid, [Paid, Confirmed]), C.ProductInquiry);
    assert [Paid, Confirmed] + [Confirmed] == [Paid, Confirmed, Confirmed];
    TwoOpen(Run(w, steps));
  }

  lemma RunTwo(w: World, a: Step, b: Step)
    ensures Run(w, [a, b]) == Apply(Apply(w, a), b)
  {
    assert [a, b][..1] == [a] && [a][..0] == [];
    assert Run(w, [a]) == Apply(Run(w, []), a);
  }

  lemma LateTail(w: World) returns (steps: seq<Step>)
    requires Looks(w, Stage(1, C.State.Invoicing, [Cancelled, Confirmed]))
    ensures NoOverride(steps) && !OneOpenOrder(Run(w, steps))
  {
    var settle := [DoMarkPaid(0), DoFinishPaid(0)];
    RunTwo(w, DoMarkPaid(0), DoFinishPaid(0));
    SettleFirst(w, 1);
    var last := SecondOrder(Run(w, settle));
    RunAppend(w, settle, last);
    steps := settle + last;
  }

  /** Without any vendor override, paying an order that was already cancelled
      frees the slot of the order that replaced it, and the conversation ends
      with two orders awaiting payment. */
  lemma LatePaymentOpensSecondSlot()
    ensures exists steps :: NoOverride(steps) && Initial(SHOP) && !OneOpenOrder(Run(SHOP, steps))
  {
    var first := CancelledAndReplaced();
    var tail := LateTail(Run(SHOP, first));
    RunAppend(SHOP, first, tail);
    assert NoOverride(first + tail);
  }
}
