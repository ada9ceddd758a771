/** Reminders of unpaid orders: scheduled in two inserts, claimed and enqueued by
    one sweep, cancelled by payments, and followed by the expiry of the order. */
module FollowUps {
  import opened Common
  import opened Commerce

  const HOUR: int := 3600000   // milliseconds
  const GRACE: int := 24 * HOUR
  const SWEEP_LIMIT: nat := 50
  const EXPIRY_LIMIT: nat := 100

  datatype Job = AbandonedCart | InvoiceFirst | InvoiceSecond

  function Delay(job: Job): int {
    match job
    case AbandonedCart => 2 * HOUR
    case InvoiceFirst => 24 * HOUR
    case InvoiceSecond => 48 * HOUR
  }

  /** One scheduled_follow_ups row; `planned` is when its order was scheduled. */
  datatype Row = Row(order: nat, job: Job, planned: int, due: int, executed: Option<int>, cancelled: Option<int>)

  function NewRow(order: nat, job: Job, now: int): Row { Row(order, job, now, now + Delay(job), None, None) }

  predicate Live(row: Row) { row.executed.None? && row.cancelled.None? }

  /** A scheduling job: past its existence check, or past its first insert. */
  datatype Handler = Checked(order: nat, since: int) | PairDone(order: nat, now: int)

  /** The open sweep transaction: rows it selected and has still to visit, rows
      it has claimed and holds locked. */
  datatype Sweep = Sweep(now: int, due: seq<nat>, claimed: set<nat>)

  datatype Expiry = Expiry(order: nat, at: int, before: OrderStatus)

  datatype Board = Board(
    rows: seq<Row>,
    orders: map<nat, OrderStatus>,
    handlers: map<nat, Handler>,
    sweep: Option<Sweep>,
    enqueued: seq<nat>,        // row ids handed to the queue, in order
    doomed: set<nat>,          // orders an expiry scan found and has still to cancel
    expired: seq<Expiry>,
    clock: int)

  predicate IsDue(row: Row, now: int) { row.due <= now && Live(row) }

  /** Due rows, earliest first, at most fifty, and all of them if fewer. */
  predicate Selects(rows: seq<Row>, now: int, due: seq<nat>) {
    && |due| <= SWEEP_LIMIT
    && (forall k :: 0 <= k < |due| ==> due[k] < |rows| && IsDue(rows[due[k]], now))
    && (forall j, k :: 0 <= j < k < |due| ==> due[j] != due[k] && rows[due[j]].due <= rows[due[k]].due)
    && (forall i :: 0 <= i < |rows| && IsDue(rows[i], now) && i !in due ==>
         |due| == SWEEP_LIMIT && forall k :: 0 <= k < |due| ==> rows[due[k]].due <= rows[i].due)
  }

  predicate HasRow(rows: seq<Row>, order: nat) { exists i :: 0 <= i < |rows| && rows[i].order == order }

  /** The final reminder of the order fired by `cutoff`. */
  predicate FinalFired(rows: seq<Row>, order: nat, cutoff: int) {
    exists i :: 0 <= i < |rows| && rows[i].order == order && rows[i].job == InvoiceSecond
                && rows[i].executed.Some? && rows[i].executed.value <= cutoff
  }

  function CancelRow(row: Row, order: nat, now: int): Row {
    if row.order == order && Live(row) then row.(cancelled := Some(now)) else row
  }

  function CancelRows(rows: seq<Row>, order: nat, now: int): (r: seq<Row>)
    ensures |r| == |rows| && forall i :: 0 <= i < |rows| ==> r[i] == CancelRow(rows[i], order, now)
  {
    seq(|rows|, i requires 0 <= i < |rows| => CancelRow(rows[i], order, now))
  }

  function ExecuteRows(rows: seq<Row>, claimed: set<nat>, now: int): (r: seq<Row>)
    ensures |r| == |rows|
    ensures forall i :: 0 <= i < |rows| ==> r[i] == if i in claimed then rows[i].(executed := Some(now)) else rows[i]
  {
    seq(|rows|, i requires 0 <= i < |rows| => if i in claimed then rows[i].(executed := Some(now)) else rows[i])
  }

  datatype Step =
    | Place(order: nat)
    | SetStatus(order: nat, status: OrderStatus)     // payments, settlement, vendor patches
    | Check(handler: nat, order: nat)
    | InsertPair(handler: nat, now: int)
    | InsertSecond(handler: nat)
    | Crash(handler: nat)
    | CancelFollowUps(order: nat)                    // a payment arrived
    | BeginSweep(now: int, due: seq<nat>)
    | Claim(published: bool)
    | CommitSweep
    | AbortSweep
    | ScanExpired(now: int, found: set<nat>)
    | CancelExpired(order: nat)
    | Tick(now: int)

  function ClaimNext(b: Board, published: bool): Board
    requires b.sweep.Some? && b.sweep.value.due != []
  {
    var s := b.sweep.value;
    var id, rest := s.due[0], s.(due := s.due[1..]);
    if id < |b.rows| && Live(b.rows[id]) && id !in s.claimed then
      b.(sweep := Some(rest.(claimed := s.claimed + {id})), enqueued := if published then b.enqueued + [id] else b.enqueued)
    else b.(sweep := Some(rest))
  }

  predicate Locked(b: Board, order: nat) {
    b.sweep.Some? && exists i <- b.sweep.value.claimed :: i < |b.rows| && b.rows[i].order == order
  }

  function Schedule(b: Board, step: Step): Board
    requires step.Check? || step.InsertPair? || step.InsertSecond? || step.Crash?
  {
    match step
    case Check(h, order) =>
      if h in b.handlers || HasRow(b.rows, order) then b else b.(handlers := b.handlers[h := Checked(order, b.clock)])
    case InsertPair(h, now) =>
      if h in b.handlers && b.handlers[h].Checked? && b.handlers[h].since <= now <= b.clock then
        var o := b.handlers[h].order;
        b.(rows := b.rows + [NewRow(o, AbandonedCart, now), NewRow(o, InvoiceFirst, now)],
           handlers := b.handlers[h := PairDone(o, now)])
      else b
    case InsertSecond(h) =>
      if h in b.handlers && b.handlers[h].PairDone? then
        b.(rows := b.rows + [NewRow(b.handlers[h].order, InvoiceSecond, b.handlers[h].now)], handlers := b.handlers - {h})
      else b
    case Crash(h) => b.(handlers := b.handlers - {h})
  }

  function Apply(b: Board, step: Step): Board {
    match step
    case Place(o) => if o in b.orders then b else b.(orders := b.orders[o := Confirmed])
    case SetStatus(o, status) => if o in b.orders then b.(orders := b.orders[o := status]) else b
    case CancelFollowUps(o) => if Locked(b, o) then b else b.(rows := CancelRows(b.rows, o, b.clock))
    case BeginSweep(now, due) =>
      if b.sweep.None? && now <= b.clock && Selects(b.rows, now, due) then b.(sweep := Some(Sweep(now, due, {}))) else b
    case Claim(published) => if b.sweep.Some? && b.sweep.value.due != [] then ClaimNext(b, published) else b
    case CommitSweep =>
      if b.sweep.Some? && b.sweep.value.due == [] then
        b.(rows := ExecuteRows(b.rows, b.sweep.value.claimed, b.sweep.value.now), sweep := None)
      else b
    case AbortSweep => b.(sweep := None)
    case ScanExpired(now, found) =>
      if now <= b.clock && forall o <- found :: o in b.orders && Open(b.orders[o]) && FinalFired(b.rows, o, now - GRACE)
      then b.(doomed := b.doomed + found)
      else b
    case CancelExpired(o) =>
      if o !in b.doomed then b
      else if o in b.orders && Open(b.orders[o]) then
        b.(doomed := b.doomed - {o}, orders := b.orders[o := OrderStatus.Cancelled],
           expired := b.expired + [Expiry(o, b.clock, b.orders[o])])
      else b.(doomed := b.doomed - {o})
    case Tick(now) => if b.clock <= now then b.(clock := now) else b
    case _ => Schedule(b, step)
  }

  function Run(b: Board, steps: seq<Step>): Board {
    if steps == [] then b else Apply(Run(b, steps[..|steps| - 1]), steps[|steps| - 1])
  }

  const BLANK: Board := Board([], map[], map[], None, [], {}, [], 0)

  // ---- invariants -----------------------------------------------------------------------------

  predicate RowOk(row: Row, clock: int) {
    && row.due == row.planned + Delay(row.job)
    && (row.executed.Some? ==> row.due <= row.executed.value <= clock && row.cancelled.None?)
  }

  predicate RowsOk(rows: seq<Row>, clock: int) { forall i :: 0 <= i < |rows| ==> RowOk(rows[i], clock) }

  predicate SweepOk(rows: seq<Row>, sweep: Option<Sweep>, clock: int) {
    sweep.Some? ==>
      && sweep.value.now <= clock
      && (forall i <- sweep.value.claimed :: i < |rows| && IsDue(rows[i], sweep.value.now))
      && (forall k :: 0 <= k < |sweep.value.due| ==>
           sweep.value.due[k] < |rows| && rows[sweep.value.due[k]].due <= sweep.value.now)
  }

  /** Seventy-two hours after the order was scheduled, and not before. */
  predicate LongUnpaid(rows: seq<Row>, order: nat, at: int) {
    exists i :: 0 <= i < |rows| && rows[i].order == order && rows[i].job == InvoiceSecond
                && rows[i].executed.Some? && rows[i].planned + 72 * HOUR <= rows[i].executed.value + GRACE <= at
  }

  predicate ExpiryOk(rows: seq<Row>, e: Expiry) { Open(e.before) && LongUnpaid(rows, e.order, e.at) }

  predicate HandlersOk(handlers: map<nat, Handler>, clock: int) {
    forall h <- handlers :: handlers[h].Checked? ==> handlers[h].since <= clock
  }

  predicate Inv(b: Board) {
    && RowsOk(b.rows, b.clock) && SweepOk(b.rows, b.sweep, b.clock) && HandlersOk(b.handlers, b.clock)
    && (forall o <- b.doomed :: LongUnpaid(b.rows, o, b.clock))
    && (forall k :: 0 <= k < |b.expired| ==> ExpiryOk(b.rows, b.expired[k]))
  }

  /** Rows are appended, and a row that was executed is never touched again. */
  predicate Extends(rows: seq<Row>, later: seq<Row>) {
    |rows| <= |later| && forall i :: 0 <= i < |rows| ==>
      rows[i] == later[i] || (rows[i].executed.None? && rows[i].order == later[i].order && rows[i].job == later[i].job)
  }

  lemma LongUnpaidLasts(rows: seq<Row>, later: seq<Row>, order: nat, at: int, then_: int)
    requires LongUnpaid(rows, order, at) && Extends(rows, later) && at <= then_
    ensures LongUnpaid(later, order, then_)
  {
    var i :| 0 <= i < |rows| && rows[i].order == order && rows[i].job == InvoiceSecond
             && rows[i].executed.Some? && rows[i].planned + 72 * HOUR <= rows[i].executed.value + GRACE <= at;
    assert later[i] == rows[i];
  }

  lemma ExpiriesLast(b: Board, c: Board)
    requires Inv(b) && Extends(b.rows, c.rows) && b.clock <= c.clock && c.doomed <= b.doomed && c.expired == b.expired
    requires RowsOk(c.rows, c.clock) && SweepOk(c.rows, c.sweep, c.clock) && HandlersOk(c.handlers, c.clock)
    ensures Inv(c)
  {
    forall o <- c.doomed ensures LongUnpaid(c.rows, o, c.clock) {
      LongUnpaidLasts(b.rows, c.rows, o, b.clock, c.clock);
    }
    forall k | 0 <= k < |c.expired| ensures ExpiryOk(c.rows, c.expired[k]) {
      assert ExpiryOk(b.rows, b.expired[k]);
      LongUnpaidLasts(b.rows, c.rows, c.expired[k].order, c.expired[k].at, c.expired[k].at);
    }
  }

  lemma ScheduleKeeps(b: Board, step: Step)
    requires Inv(b) && (step.Check? || step.InsertPair? || step.InsertSecond? || step.Crash?)
    ensures Inv(Schedule(b, step))
  {
    ExpiriesLast(b, Schedule(b, step));
  }

  lemma CancelKeeps(b: Board, order: nat)
    requires Inv(b)
    ensures Inv(Apply(b, CancelFollowUps(order)))
  {
    ExpiriesLast(b, Apply(b, CancelFollowUps(order)));
  }

  lemma SweepKeeps(b: Board, step: Step)
    requires Inv(b) && (step.BeginSweep? || step.CommitSweep? || step.AbortSweep?)
    ensures Inv(Apply(b, step))
  {
    ExpiriesLast(b, Apply(b, step));
  }

  lemma ClaimKeeps(b: Board, published: bool)
    requires Inv(b)
    ensures Inv(Apply(b, Claim(published)))
  {
    if b.sweep.Some? && b.sweep.value.due != [] {
      ClaimedIsDue(b, published);
    }
  }

  lemma ClaimedIsDue(b: Board, published: bool)
    requires SweepOk(b.rows, b.sweep, b.clock) && b.sweep.Some? && b.sweep.value.due != []
    ensures SweepOk(b.rows, ClaimNext(b, published).sweep, b.clock)
  {
    var s := b.sweep.value;
    forall k | 0 <= k < |s.due[1..]| ensures s.due[1..][k] < |b.rows| && b.rows[s.due[1..][k]].due <= s.now {
      assert s.due[1..][k] == s.due[k + 1];
    }
  }

  lemma ScanKeeps(b: Board, now: int, found: set<nat>)
    requires Inv(b)
    ensures Inv(Apply(b, ScanExpired(now, found)))
  {
  }

  lemma ExpireKeeps(b: Board, order: nat)
    requires Inv(b)
    ensures Inv(Apply(b, CancelExpired(order)))
  {
  }

  lemma TickKeeps(b: Board, step: Step)
    requires Inv(b) && (step.Tick? || step.Place? || step.SetStatus?)
    ensures Inv(Apply(b, step))
  {
    ExpiriesLast(b, Apply(b, step));
  }

  lemma StepKeepsInv(b: Board, step: Step)
    requires Inv(b)
    ensures Inv(Apply(b, step))
  {
    match step
    case CancelFollowUps(o) => CancelKeeps(b, o);
    case BeginSweep(_, _) => SweepKeeps(b, step);
    case Claim(published) => ClaimKeeps(b, published);
    case CommitSweep => SweepKeeps(b, step);
    case AbortSweep => SweepKeeps(b, step);
    case ScanExpired(now, found) => ScanKeeps(b, now, found);
    case CancelExpired(o) => ExpireKeeps(b, o);
    case Tick(_) => TickKeeps(b, step);
    case Place(_) => TickKeeps(b, step);
    case SetStatus(_, _) => TickKeeps(b, step);
    case _ => ScheduleKeeps(b, step);
  }

  lemma {:induction false} RunKeepsInv(b: Board, steps: seq<Step>)
    requires Inv(b)
    ensures Inv(Run(b, steps))
  {
    if steps != [] {
      RunKeepsInv(b, steps[..|steps| - 1]);
      StepKeepsInv(Run(b, steps[..|steps| - 1]), steps[|steps| - 1]);
    }
  }

  /** The expiry never cancels an order earlier than 72 hours after its
      reminders were scheduled, and only one still unpaid at that moment; no
      reminder is both executed and cancelled. */
  lemma ExpiryIsLateAndUnpaid(steps: seq<Step>)
    ensures var b := Run(BLANK, steps);
            && (forall k :: 0 <= k < |b.expired| ==>
                 Open(b.expired[k].before) && LongUnpaid(b.rows, b.expired[k].order, b.expired[k].at))
            && (forall i :: 0 <= i < |b.rows| ==> b.rows[i].executed.None? || b.rows[i].cancelled.None?)
  {
    RunKeepsInv(BLANK, steps);
    var b := Run(BLANK, steps);
    forall k | 0 <= k < |b.expired| ensures Open(b.expired[k].before) && LongUnpaid(b.rows, b.expired[k].order, b.expired[k].at) {
      assert ExpiryOk(b.rows, b.expired[k]);
    }
    forall i | 0 <= i < |b.rows| ensures b.rows[i].executed.None? || b.rows[i].cancelled.None? {
      assert RowOk(b.rows[i], b.clock);
    }
  }

  // ---- enqueued at most once ------------------------------------------------------------------

  predicate Distinct(s: seq<nat>) { forall j, k :: 0 <= j < k < |s| ==> s[j] != s[k] }

  /** Whatever has been enqueued is executed or claimed by the open sweep. */
  predicate EnqueuedOk(b: Board) {
    && Distinct(b.enqueued)
    && (forall k :: 0 <= k < |b.enqueued| ==>
         && b.enqueued[k] < |b.rows|
         && (b.rows[b.enqueued[k]].executed.Some? || (b.sweep.Some? && b.enqueued[k] in b.sweep.value.claimed)))
  }

  lemma ClaimKeepsEnqueued(b: Board, published: bool)
    requires Inv(b) && EnqueuedOk(b)
    ensures EnqueuedOk(Apply(b, Claim(published)))
  {
  }

  lemma EnqueuedOkKept(b: Board, step: Step)
    requires Inv(b) && EnqueuedOk(b) && !step.AbortSweep?
    ensures EnqueuedOk(Apply(b, step))
  {
    if step.Claim? {
      ClaimKeepsEnqueued(b, step.published);
    } else if step.CancelFollowUps? {
      assert Extends(b.rows, Apply(b, step).rows);
    }
  }

  /** No row the open sweep has claimed was handed to the queue yet. */
  predicate NothingHandedOver(b: Board) {
    b.sweep.Some? ==> forall id <- b.sweep.value.claimed :: id !in b.enqueued
  }

  /** Rolling a sweep back keeps the bookkeeping of the queue if and only if it
      happens before the sweep's first hand-over. */
  lemma AbortExactly(b: Board)
    requires Inv(b) && EnqueuedOk(b) && b.sweep.Some?
    ensures EnqueuedOk(Apply(b, AbortSweep)) <==> NothingHandedOver(b)
  {
    if id :| id in b.sweep.value.claimed && id in b.enqueued {
      var k :| 0 <= k < |b.enqueued| && b.enqueued[k] == id;
      assert IsDue(b.rows[id], b.sweep.value.now);
    }
  }

  /** Every rollback of the run comes before the sweep's first hand-over. */
  predicate HarmlessAborts(b: Board, steps: seq<Step>) {
    forall k :: 0 <= k < |steps| && steps[k].AbortSweep? ==> NothingHandedOver(Run(b, steps[..k]))
  }

  lemma EnqueuedOkNext(b: Board, step: Step)
    requires Inv(b) && EnqueuedOk(b)
    ensures EnqueuedOk(Apply(b, step)) <==> (step.AbortSweep? ==> NothingHandedOver(b))
  {
    if !step.AbortSweep? {
      EnqueuedOkKept(b, step);
    } else if b.sweep.Some? {
      AbortExactly(b);
    }
  }

  /** No reminder is enqueued twice on any run whose rollbacks are harmless. */
  lemma {:induction false} EnqueuedAtMostOnce(b: Board, steps: seq<Step>)
    requires Inv(b) && EnqueuedOk(b) && HarmlessAborts(b, steps)
    ensures EnqueuedOk(Run(b, steps)) && Distinct(Run(b, steps).enqueued)
  {
    if steps != [] {
      var front := steps[..|steps| - 1];
      forall k | 0 <= k < |front| && front[k].AbortSweep? ensures NothingHandedOver(Run(b, front[..k])) {
        assert front[..k] == steps[..k];
      }
      EnqueuedAtMostOnce(b, front);
      RunKeepsInv(b, front);
      EnqueuedOkNext(Run(b, front), steps[|steps| - 1]);
    }
  }

  /** One order's first two reminders, the first of them just come due. */
  function DueFirst(sweep: Option<Sweep>, enqueued: seq<nat>): Board {
    Board([NewRow(0, AbandonedCart, 0), NewRow(0, InvoiceFirst, 0)], map[], map[], sweep, enqueued, {}, [], 2 * HOUR)
  }

  lemma RunMore(b: Board, steps: seq<Step>, step: Step)
    ensures Run(b, steps + [step]) == Apply(Run(b, steps), step)
  {
    assert (steps + [step])[..|steps|] == steps;
  }

  lemma FirstComesDue() returns (steps: seq<Step>)
    ensures Run(BLANK, steps) == DueFirst(None, [])
  {
    RunMore(BLANK, [], Check(0, 0));
    steps := [] + [Check(0, 0)];
    assert Run(BLANK, steps).handlers == map[0 := Checked(0, 0)];
    RunMore(BLANK, steps, InsertPair(0, 0));
    steps := steps + [InsertPair(0, 0)];
    assert Run(BLANK, steps).rows == [NewRow(0, AbandonedCart, 0), NewRow(0, InvoiceFirst, 0)];
    RunMore(BLANK, steps, Crash(0));
    steps := steps + [Crash(0)];
    assert Run(BLANK, steps).handlers == map[];
    RunMore(BLANK, steps, Tick(2 * HOUR));
    steps := steps + [Tick(2 * HOUR)];
  }

  lemma FirstSelected(rows: seq<Row>)
    requires rows == [NewRow(0, AbandonedCart, 0), NewRow(0, InvoiceFirst, 0)]
    ensures Selects(rows, 2 * HOUR, [0])
  {
  }

  lemma SweepAndFail(steps: seq<Step>, enqueued: seq<nat>) returns (more: seq<Step>)
    requires Run(BLANK, steps) == DueFirst(None, enqueued)
    ensures Run(BLANK, more) == DueFirst(None, enqueued + [0])
  {
    FirstSelected(DueFirst(None, enqueued).rows);
    RunMore(BLANK, steps, BeginSweep(2 * HOUR, [0]));
    more := steps + [BeginSweep(2 * HOUR, [0])];
    assert Run(BLANK, more) == DueFirst(Some(Sweep(2 * HOUR, [0], {})), enqueued);
    RunMore(BLANK, more, Claim(true));
    more := more + [Claim(true)];
    assert [0][1..] == [] && {} + {0} == {0};
    assert Run(BLANK, more) == DueFirst(Some(Sweep(2 * HOUR, [], {0})), enqueued + [0]);
    RunMore(BLANK, more, AbortSweep);
    more := more + [AbortSweep];
  }

  /** The failing case as a run: the commit fails after the hand-over, the claim
      is forgotten and the next sweep enqueues the same reminder again. */
  lemma FailedCommitEnqueuesAgain()
    ensures exists steps :: Run(BLANK, steps).enqueued == [0, 0]
  {
    var steps := FirstComesDue();
    steps := SweepAndFail(steps, []);
    assert [] + [0] == [0];
    steps := SweepAndFail(steps, [0]);
    assert Run(BLANK, steps).enqueued == [0, 0];
  }

  // ---- a crash between the two inserts ----------------------------------------------------------

  predicate NoFinal(rows: seq<Row>, order: nat) {
    forall i :: 0 <= i < |rows| ==> rows[i].order != order || rows[i].job != InvoiceSecond
  }

  /** The order has its first two reminders, not its last, and nobody is about to
      add it. */
  predicate HalfScheduled(b: Board, order: nat) {
    && HasRow(b.rows, order) && NoFinal(b.rows, order)
    && (forall h <- b.handlers :: b.handlers[h].order != order)
    && order !in b.doomed && (forall k :: 0 <= k < |b.expired| ==> b.expired[k].order != order)
  }

  lemma HasRowLasts(rows: seq<Row>, later: seq<Row>, order: nat)
    requires HasRow(rows, order) && Extends(rows, later)
    ensures HasRow(later, order)
  {
    var i :| 0 <= i < |rows| && rows[i].order == order;
    assert later[i].order == order;
  }

  lemma HalfScheduledStays(b: Board, order: nat, step: Step)
    requires Inv(b) && HalfScheduled(b, order)
    ensures HalfScheduled(Apply(b, step), order)
  {
    RowsExtend(b, step);
    HasRowLasts(b.rows, Apply(b, step).rows, order);
    if step.ScanExpired? {
      NotFired(b.rows, order, step.now - GRACE);
    }
    StillNoFinal(b, order, step);
    StillUnhandled(b, order, step);
  }

  lemma StillNoFinal(b: Board, order: nat, step: Step)
    requires HalfScheduled(b, order)
    ensures NoFinal(Apply(b, step).rows, order)
  {
  }

  lemma StillUnhandled(b: Board, order: nat, step: Step)
    requires HalfScheduled(b, order)
    ensures forall h <- Apply(b, step).handlers :: Apply(b, step).handlers[h].order != order
  {
  }

  lemma RowsExtend(b: Board, step: Step)
    requires Inv(b)
    ensures Extends(b.rows, Apply(b, step).rows)
  {
  }

  lemma NotFired(rows: seq<Row>, order: nat, cutoff: int)
    requires NoFinal(rows, order)
    ensures !FinalFired(rows, order, cutoff)
  {
  }

  lemma StaysNext(steps: seq<Step>, order: nat)
    requires steps != [] && HalfScheduled(Run(BLANK, steps[..|steps| - 1]), order)
    ensures HalfScheduled(Run(BLANK, steps), order)
  {
    RunKeepsInv(BLANK, steps[..|steps| - 1]);
    HalfScheduledStays(Run(BLANK, steps[..|steps| - 1]), order, steps[|steps| - 1]);
  }

  /** A crash between the two inserts is what leaves an order half scheduled. */
  lemma CrashHalfSchedules()
    ensures HalfScheduled(Run(BLANK, [Place(0), Check(0, 0), InsertPair(0, 0), Crash(0)]), 0)
  {
    RunMore(BLANK, [], Place(0));
    RunMore(BLANK, [Place(0)], Check(0, 0));
    RunMore(BLANK, [Place(0), Check(0, 0)], InsertPair(0, 0));
    RunMore(BLANK, [Place(0), Check(0, 0), InsertPair(0, 0)], Crash(0));
    assert [] + [Place(0)] == [Place(0)];
    assert [Place(0)] + [Check(0, 0)] == [Place(0), Check(0, 0)];
    assert [Place(0), Check(0, 0)] + [InsertPair(0, 0)] == [Place(0), Check(0, 0), InsertPair(0, 0)];
    assert [Place(0), Check(0, 0), InsertPair(0, 0)] + [Crash(0)] == [Place(0), Check(0, 0), InsertPair(0, 0), Crash(0)];
    PairThenCrash(Apply(BLANK, Place(0)));
  }

  lemma PairThenCrash(b: Board)
    requires b == BLANK.(orders := map[0 := Confirmed])
    ensures HalfScheduled(Apply(Apply(Apply(b, Check(0, 0)), InsertPair(0, 0)), Crash(0)), 0)
  {
    var c := Apply(b, Check(0, 0));
    assert c.handlers == map[0 := Checked(0, 0)];
    var d := Apply(c, InsertPair(0, 0));
    assert d.rows == [NewRow(0, AbandonedCart, 0), NewRow(0, InvoiceFirst, 0)];
    assert d.rows[0].order == 0;
  }

  /** Redelivery does not repair a crash between the two inserts: the existence
      check skips the order, its final reminder never exists and the sweep never
      expires it. */
  lemma {:induction false} HalfScheduledNeverExpires(before: seq<Step>, after: seq<Step>, order: nat)
    requires HalfScheduled(Run(BLANK, before), order)
    ensures HalfScheduled(Run(BLANK, before + after), order)
  {
    if after == [] {
      assert before + after == before;
    } else {
      var n := |after| - 1;
      HalfScheduledNeverExpires(before, after[..n], order);
      assert (before + after)[..|before| + n] == before + after[..n];
      StaysNext(before + after, order);
    }
  }

  // ---- the workers ----------------------------------------------------------------------------

  lemma EarliestExists(rows: seq<Row>, ids: set<nat>)
    requires ids != {} && forall i <- ids :: i < |rows|
    ensures exists i :: i in ids && forall j <- ids :: rows[i].due <= rows[j].due
  {
    var f := (i: nat) => if i < |rows| then rows[i].due else 0;
    LeastExists(ids, f);
    var i :| i in ids && forall j <- ids :: f(i) <= f(j);
    assert forall j <- ids :: rows[i].due <= rows[j].due;
  }

  /** scheduled_follow_ups, the orders and the follow-up queue. */
  class FollowUpTables {
    var rows: seq<Row>
    var orders: seq<OrderStatus>
    var enqueued: seq<nat>

    constructor (rows_: seq<Row>, orders_: seq<OrderStatus>)
      ensures rows == rows_ && orders == orders_ && enqueued == []
    {
      rows, orders, enqueued := rows_, orders_, [];
    }

    /** All three reminders, unless the order has some already. */
    method HandleFollowUpSchedule(order: nat, now: int)
      modifies this`rows
      ensures rows == if HasRow(old(rows), order) then old(rows)
        else old(rows) + [NewRow(order, AbandonedCart, now), NewRow(order, InvoiceFirst, now), NewRow(order, InvoiceSecond, now)]
    {
      if exists i :: 0 <= i < |rows| && rows[i].order == order {
        return;
      }
      rows := rows + [NewRow(order, AbandonedCart, now), NewRow(order, InvoiceFirst, now)];
      rows := rows + [NewRow(order, InvoiceSecond, now)];
    }

    method DueRows(now: int) returns (due: seq<nat>)
      ensures Selects(rows, now, due)
      ensures |due| <= 50 && (|due| < 50 ==> forall i :: 0 <= i < |rows| && IsDue(rows[i], now) ==> i in due)
    {
      var left := set i | 0 <= i < |rows| && IsDue(rows[i], now);
      due := [];
      while |due| < SWEEP_LIMIT && left != {}
        invariant Selecting(rows, now, due, left)
        decreases left
      {
        EarliestExists(rows, left);
        var i :| i in left && forall j <- left :: rows[i].due <= rows[j].due;
        SelectOne(rows, now, due, left, i);
        due := due + [i];
        left := left - {i};
      }
    }

    /** The claim is a compare-and-set; only a claimed row is handed over. */
    method ClaimAndEnqueue(id: nat, now: int, published: bool)
      requires id < |rows|
      modifies this`rows, this`enqueued
      ensures rows == if Live(old(rows)[id]) then old(rows)[id := old(rows)[id].(executed := Some(now))] else old(rows)
      ensures enqueued == old(enqueued) + if Live(old(rows)[id]) && published then [id] else []
    {
      if !Live(rows[id]) {
        return;
      }
      rows := rows[id := rows[id].(executed := Some(now))];
      if published {
        enqueued := enqueued + [id];
      }
    }

    /** One turn of the claiming loop. */
    method ClaimRow(ghost was: seq<Row>, ghost before: seq<nat>, now: int, due: seq<nat>, k: nat, published: seq<bool>)
      requires Selects(was, now, due) && k < |due| <= |published|
      requires rows == ExecuteRows(was, Chosen(due[..k]), now) && enqueued == before + HandedOver(due[..k], published)
      modifies this`rows, this`enqueued
      ensures rows == ExecuteRows(was, Chosen(due[..k + 1]), now)
      ensures enqueued == before + HandedOver(due[..k + 1], published)
    {
      ChooseOne(was, now, due, k, published);
      ClaimAndEnqueue(due[k], now, published[k]);
    }

    /** One run of the sweep: claim every selected row, hand it to the queue
        (`published` says which hand-overs succeed), then commit or lose it all. */
    method SweepFollowUps(now: int, published: seq<bool>, commits: bool) returns (due: seq<nat>)
      requires |published| == SWEEP_LIMIT
      modifies this`rows, this`enqueued
      ensures Selects(old(rows), now, due)
      ensures enqueued == old(enqueued) + HandedOver(due, published)
      ensures rows == if commits then ExecuteRows(old(rows), Chosen(due), now) else old(rows)
    {
      due := DueRows(now);
      var was := rows;
      for k := 0 to |due|
        invariant rows == ExecuteRows(was, Chosen(due[..k]), now)
        invariant enqueued == old(enqueued) + HandedOver(due[..k], published)
      {
        ClaimRow(was, old(enqueued), now, due, k, published);
      }
      assert due[..|due|] == due;
      if !commits {
        rows := was;
      }
    }

    /** Orders still unpaid a day after their last reminder, oldest first: the join
        lists an order once per such reminder, and the limit counts listings. */
    method ScanExpired(now: int) returns (found: seq<nat>)
      ensures found == First(Joined(rows, orders, now - GRACE), EXPIRY_LIMIT)
      ensures forall k :: 0 <= k < |found| ==>
        found[k] < |orders| && Open(orders[found[k]]) && FinalFired(rows, found[k], now - GRACE)
      ensures |found| <= 100
      ensures |found| < 100 ==> forall o :: 0 <= o < |orders| ==>
        (Open(orders[o]) && FinalFired(rows, o, now - GRACE) ==> o in found)
    {
      found := [];
      for o := 0 to |orders|
        invariant found == First(Joined(rows, orders[..o], now - GRACE), EXPIRY_LIMIT)
      {
        if Open(orders[o]) {
          found := ListOrder(found, o, now - GRACE, Joined(rows, orders[..o], now - GRACE));
        }
        assert orders[..o + 1][..o] == orders[..o];
      }
      assert orders[..|orders|] == orders;
      FirstJoined(rows, orders, now - GRACE);
    }

    /** The listings of one order, up to the limit. */
    method ListOrder(found: seq<nat>, o: nat, cutoff: int, ghost before: seq<nat>) returns (more: seq<nat>)
      requires found == First(before, EXPIRY_LIMIT)
      ensures more == First(before + Listings(rows, o, cutoff), EXPIRY_LIMIT)
    {
      more := found;
      assert before + [] == before;
      for i := 0 to |rows|
        invariant more == First(before + Listings(rows[..i], o, cutoff), EXPIRY_LIMIT)
      {
        ListOneMore(rows, i, o, cutoff);
        FirstOneMore(before + Listings(rows[..i], o, cutoff), o, EXPIRY_LIMIT);
        assert before + (Listings(rows[..i], o, cutoff) + [o]) == before + Listings(rows[..i], o, cutoff) + [o];
        if Fired(rows[i], o, cutoff) && |more| < EXPIRY_LIMIT {
          more := more + [o];
        }
      }
      assert rows[..|rows|] == rows;
    }

    /** Cancels what the scan found, one compare-and-set per order: an order paid
        since the scan is left alone. */
    method CancelFound(found: seq<nat>)
      modifies this`orders
      ensures |orders| == |old(orders)|
      ensures forall o :: 0 <= o < |orders| ==>
        orders[o] == if o in found && Open(old(orders)[o]) then OrderStatus.Cancelled else old(orders)[o]
    {
      for k := 0 to |found|
        invariant |orders| == |old(orders)|
        invariant forall o :: 0 <= o < |orders| ==>
          orders[o] == if o in found[..k] && Open(old(orders)[o]) then OrderStatus.Cancelled else old(orders)[o]
      {
        if found[k] < |orders| && Open(orders[found[k]]) {
          orders := orders[found[k] := OrderStatus.Cancelled];
        }
      }
      assert found[..|found|] == found;
    }
  }

  /** A row that makes the join list its order. */
  predicate Fired(row: Row, order: nat, cutoff: int) {
    row.order == order && row.job == InvoiceSecond && row.executed.Some? && row.executed.value <= cutoff
  }

  function Listings(rows: seq<Row>, order: nat, cutoff: int): seq<nat> {
    if rows == [] then []
    else Listings(rows[..|rows| - 1], order, cutoff) + if Fired(rows[|rows| - 1], order, cutoff) then [order] else []
  }

  function Joined(rows: seq<Row>, orders: seq<OrderStatus>, cutoff: int): seq<nat> {
    if orders == [] then []
    else
      var o := |orders| - 1;
      Joined(rows, orders[..o], cutoff) + if Open(orders[o]) then Listings(rows, o, cutoff) else []
  }

  function First(s: seq<nat>, n: nat): seq<nat> { if |s| <= n then s else s[..n] }

  lemma FirstOneMore(s: seq<nat>, x: nat, n: nat)
    ensures First(s + [x], n) == if |First(s, n)| < n then First(s, n) + [x] else First(s, n)
  {
  }

  lemma ListOneMore(rows: seq<Row>, i: nat, order: nat, cutoff: int)
    requires i < |rows|
    ensures Listings(rows[..i + 1], order, cutoff)
         == Listings(rows[..i], order, cutoff) + if Fired(rows[i], order, cutoff) then [order] else []
  {
    assert rows[..i + 1][..i] == rows[..i];
  }

  lemma {:induction false} ListingsExactly(rows: seq<Row>, order: nat, cutoff: int, o: nat)
    ensures o in Listings(rows, order, cutoff) <==> o == order && FinalFired(rows, order, cutoff)
  {
    if rows != [] {
      var n := |rows| - 1;
      ListingsExactly(rows[..n], order, cutoff, o);
      assert FinalFired(rows, order, cutoff) <==> FinalFired(rows[..n], order, cutoff) || Fired(rows[n], order, cutoff);
    }
  }

  lemma {:induction false} JoinedHas(rows: seq<Row>, orders: seq<OrderStatus>, cutoff: int, o: nat)
    ensures o in Joined(rows, orders, cutoff) <==> o < |orders| && Open(orders[o]) && FinalFired(rows, o, cutoff)
  {
    if orders != [] {
      JoinedHas(rows, orders[..|orders| - 1], cutoff, o);
      ListingsExactly(rows, |orders| - 1, cutoff, o);
    }
  }

  /** The join lists exactly the unpaid orders whose last reminder fired in time. */
  lemma JoinedExactly(rows: seq<Row>, orders: seq<OrderStatus>, cutoff: int)
    ensures forall o :: o in Joined(rows, orders, cutoff) <==> 0 <= o < |orders| && Open(orders[o]) && FinalFired(rows, o, cutoff)
  {
    forall o: nat ensures o in Joined(rows, orders, cutoff) <==> o < |orders| && Open(orders[o]) && FinalFired(rows, o, cutoff) {
      JoinedHas(rows, orders, cutoff, o);
    }
  }

  lemma FirstJoined(rows: seq<Row>, orders: seq<OrderStatus>, cutoff: int)
    ensures var found := First(Joined(rows, orders, cutoff), EXPIRY_LIMIT);
            && (forall k :: 0 <= k < |found| ==>
                 found[k] < |orders| && Open(orders[found[k]]) && FinalFired(rows, found[k], cutoff))
            && (|found| < EXPIRY_LIMIT ==> forall o :: 0 <= o < |orders| ==>
                 (Open(orders[o]) && FinalFired(rows, o, cutoff) ==> o in found))
  {
    JoinedExactly(rows, orders, cutoff);
    var all, found := Joined(rows, orders, cutoff), First(Joined(rows, orders, cutoff), EXPIRY_LIMIT);
    forall k | 0 <= k < |found| ensures found[k] in all {
      assert found[k] == all[k];
    }
  }

  function Chosen(due: seq<nat>): set<nat> { set i <- due }

  function HandedOver(due: seq<nat>, published: seq<bool>): seq<nat>
    requires |due| <= |published|
  {
    if due == [] then []
    else HandedOver(due[..|due| - 1], published) + if published[|due| - 1] then [due[|due| - 1]] else []
  }

  lemma ChosenGrows(due: seq<nat>, k: nat)
    requires k < |due| && forall i, j :: 0 <= i < j < |due| ==> due[i] != due[j]
    ensures Chosen(due[..k + 1]) == Chosen(due[..k]) + {due[k]} && due[k] !in Chosen(due[..k])
  {
    assert due[..k + 1] == due[..k] + [due[k]];
  }

  lemma ChooseOne(rows: seq<Row>, now: int, due: seq<nat>, k: nat, published: seq<bool>)
    requires k < |due| <= |published| && Selects(rows, now, due)
    ensures Live(ExecuteRows(rows, Chosen(due[..k]), now)[due[k]])
    ensures ExecuteRows(rows, Chosen(due[..k + 1]), now)
         == ExecuteRows(rows, Chosen(due[..k]), now)[due[k] := rows[due[k]].(executed := Some(now))]
    ensures HandedOver(due[..k + 1], published) == HandedOver(due[..k], published) + if published[k] then [due[k]] else []
  {
    ChosenGrows(due, k);
    HandedOverNext(due, k, published);
    assert IsDue(rows[due[k]], now);
  }

  lemma HandedOverNext(due: seq<nat>, k: nat, published: seq<bool>)
    requires k < |due| <= |published|
    ensures HandedOver(due[..k + 1], published) == HandedOver(due[..k], published) + if published[k] then [due[k]] else []
  {
    assert due[..k + 1][..k] == due[..k];
  }

  /** A selection under way: `left` is what is due and not yet selected. */
  ghost predicate Selecting(rows: seq<Row>, now: int, due: seq<nat>, left: set<nat>) {
    && |due| <= SWEEP_LIMIT
    && (forall i :: i in left <==> 0 <= i < |rows| && IsDue(rows[i], now) && i !in due)
    && (forall k :: 0 <= k < |due| ==> due[k] < |rows| && IsDue(rows[due[k]], now))
    && (forall j, k :: 0 <= j < k < |due| ==> due[j] != due[k] && rows[due[j]].due <= rows[due[k]].due)
    && (forall k, i :: 0 <= k < |due| && i in left ==> rows[due[k]].due <= rows[i].due)
  }

  lemma SelectOne(rows: seq<Row>, now: int, due: seq<nat>, left: set<nat>, i: nat)
    requires Selecting(rows, now, due, left) && |due| < SWEEP_LIMIT && i in left
    requires forall j <- left :: rows[i].due <= rows[j].due
    ensures Selecting(rows, now, due + [i], left - {i})
  {
    var more := due + [i];
    forall j | j in left - {i} ensures j !in more {}
  }

  // ---- the workers take the steps of the protocol -------------------------------------------------

  function Claims(b: Board, published: seq<bool>): Board {
    if published == [] then b else Apply(Claims(b, published[..|published| - 1]), Claim(published[|published| - 1]))
  }

  function Visited(b: Board, now: int, due: seq<nat>, published: seq<bool>, k: nat): Board
    requires k <= |due| <= |published|
  {
    b.(sweep := Some(Sweep(now, due[k..], Chosen(due[..k]))), enqueued := b.enqueued + HandedOver(due[..k], published))
  }

  lemma ClaimOne(b: Board, now: int, due: seq<nat>, published: seq<bool>, k: nat)
    requires Selects(b.rows, now, due) && k < |due| <= |published|
    ensures Apply(Visited(b, now, due, published, k), Claim(published[k])) == Visited(b, now, due, published, k + 1)
  {
    ChosenGrows(due, k);
    HandedOverNext(due, k, published);
    assert IsDue(b.rows[due[k]], now);
    assert due[k..][1..] == due[k + 1..];
  }

  lemma {:induction false} ClaimsVisit(b: Board, now: int, due: seq<nat>, published: seq<bool>, k: nat)
    requires Selects(b.rows, now, due) && k <= |due| <= |published|
    ensures Claims(Visited(b, now, due, published, 0), published[..k]) == Visited(b, now, due, published, k)
  {
    if k > 0 {
      ClaimsVisit(b, now, due, published, k - 1);
      assert published[..k][..k - 1] == published[..k - 1];
      ClaimOne(b, now, due, published, k - 1);
    }
  }

  /** A sweep that begins, claims each selected row once and commits executes
      exactly the selected rows; one that aborts changes only the queue. */
  lemma SweepIsItsSteps(b: Board, now: int, due: seq<nat>, published: seq<bool>)
    requires b.sweep.None? && now <= b.clock && Selects(b.rows, now, due) && |due| <= |published|
    ensures var claimed := Claims(Apply(b, BeginSweep(now, due)), published[..|due|]);
            var handed := b.(enqueued := b.enqueued + HandedOver(due, published));
            && Apply(claimed, CommitSweep) == handed.(rows := ExecuteRows(b.rows, Chosen(due), now))
            && Apply(claimed, AbortSweep) == handed
  {
    BeginVisits(b, now, due, published);
    ClaimsVisit(b, now, due, published, |due|);
    EndVisits(b, now, due, published);
  }

  lemma BeginVisits(b: Board, now: int, due: seq<nat>, published: seq<bool>)
    requires b.sweep.None? && now <= b.clock && Selects(b.rows, now, due) && |due| <= |published|
    ensures Apply(b, BeginSweep(now, due)) == Visited(b, now, due, published, 0)
  {
    assert due[0..] == due && Chosen(due[..0]) == {};
    assert b.enqueued + HandedOver(due[..0], published) == b.enqueued;
  }

  lemma EndVisits(b: Board, now: int, due: seq<nat>, published: seq<bool>)
    requires b.sweep.None? && |due| <= |published|
    ensures var claimed := Visited(b, now, due, published, |due|);
            var handed := b.(enqueued := b.enqueued + HandedOver(due, published));
            && Apply(claimed, CommitSweep) == handed.(rows := ExecuteRows(b.rows, Chosen(due), now))
            && Apply(claimed, AbortSweep) == handed
  {
    assert due[..|due|] == due && due[|due|..] == [];
    assert Visited(b, now, due, published, |due|)
        == b.(sweep := Some(Sweep(now, [], Chosen(due))), enqueued := b.enqueued + HandedOver(due, published));
  }

  /** When the reminders of an order scheduled now come due, in milliseconds: two hours,
      a day and two days later. */
  lemma DueTimes(b: Board, h: nat, order: nat)
    requires h !in b.handlers && !HasRow(b.rows, order)
    ensures var rows := Apply(Apply(Apply(b, Check(h, order)), InsertPair(h, b.clock)), InsertSecond(h)).rows;
            var n := |b.rows|;
            && |rows| == n + 3 && rows[..n] == b.rows
            && (forall k :: n <= k < n + 3 ==> rows[k].order == order && Live(rows[k]))
            && rows[n].job == AbandonedCart && rows[n].due == b.clock + 7_200_000
            && rows[n + 1].job == InvoiceFirst && rows[n + 1].due == b.clock + 86_400_000
            && rows[n + 2].job == InvoiceSecond && rows[n + 2].due == b.clock + 172_800_000
  {
    SchedulingIsItsSteps(b, h, order);
  }

  /** A scan can find an order exactly when it is unpaid and its last reminder fired at
      least a day before. */
  lemma FoundExactly(b: Board, now: int, o: nat)
    requires now <= b.clock && o !in b.doomed
    ensures o in Apply(b, ScanExpired(now, {o})).doomed <==>
      && o in b.orders && b.orders[o] in {Confirmed, PaymentPending}
      && exists i :: 0 <= i < |b.rows| && b.rows[i].order == o && b.rows[i].job == InvoiceSecond
                     && b.rows[i].executed.Some? && b.rows[i].executed.value + 86_400_000 <= now
  {
  }

  /** What becomes of an order a scan has found: cancelled, and recorded as expired, if
      it is still unpaid at that moment; left alone if it was paid meanwhile. */
  lemma ExpireExactly(b: Board, o: nat)
    requires o in b.doomed && o in b.orders
    ensures var u := Apply(b, CancelExpired(o));
            var unpaid := b.orders[o] in {Confirmed, PaymentPending};
            && u.orders == (if unpaid then b.orders[o := OrderStatus.Cancelled] else b.orders)
            && u.expired == (if unpaid then b.expired + [Expiry(o, b.clock, b.orders[o])] else b.expired)
            && u.doomed == b.doomed - {o} && u.rows == b.rows && u.enqueued == b.enqueued
  {
  }

  // ---- a payment stops the reminders --------------------------------------------------------------

  /** Row `i` is through and nothing from place `n` of the queue on is it. */
  predicate Stopped(b: Board, i: nat, n: nat) {
    && i < |b.rows| && !Live(b.rows[i]) && (b.sweep.Some? ==> i !in b.sweep.value.claimed)
    && n <= |b.enqueued| && forall k :: n <= k < |b.enqueued| ==> b.enqueued[k] != i
  }

  lemma StepKeepsStopped(b: Board, step: Step, i: nat, n: nat)
    requires Stopped(b, i, n)
    ensures Stopped(Apply(b, step), i, n)
  {
  }

  /** After a payment has cancelled an order's reminders, none of them is ever handed to
      the queue, whatever sweeps commit or fail afterwards; those of other orders are
      left alone. */
  lemma {:induction false} CancelledNeverEnqueued(b: Board, order: nat, steps: seq<Step>, i: nat)
    requires !Locked(b, order) && i < |b.rows|
    ensures b.rows[i].order == order ==> Stopped(Run(Apply(b, CancelFollowUps(order)), steps), i, |b.enqueued|)
    ensures b.rows[i].order != order ==> Apply(b, CancelFollowUps(order)).rows[i] == b.rows[i]
  {
    if b.rows[i].order == order && steps != [] {
      CancelledNeverEnqueued(b, order, steps[..|steps| - 1], i);
      StepKeepsStopped(Run(Apply(b, CancelFollowUps(order)), steps[..|steps| - 1]), steps[|steps| - 1], i, |b.enqueued|);
    }
  }

  /** An undisturbed scheduling job is its three steps. */
  lemma SchedulingIsItsSteps(b: Board, h: nat, order: nat)
    requires h !in b.handlers
    ensures var done := Apply(Apply(Apply(b, Check(h, order)), InsertPair(h, b.clock)), InsertSecond(h));
            done.rows == if HasRow(b.rows, order) then b.rows
              else b.rows + [NewRow(order, AbandonedCart, b.clock), NewRow(order, InvoiceFirst, b.clock),
                             NewRow(order, InvoiceSecond, b.clock)]
  {
  }
}
