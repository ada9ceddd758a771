/** What can still happen to a reminder and to its order: exactly when a rolled
    back sweep repeats a hand-over, and exactly when an order can still expire. */
module Expiry {
  import opened Common
  import C = Commerce
  import opened FollowUps

  lemma AppendOne(b: Board, steps: seq<Step>, more: seq<Step>)
    requires more != [] && Run(b, steps + more[..|more| - 1]) == Run(Run(b, steps), more[..|more| - 1])
    ensures Run(b, steps + more) == Run(Run(b, steps), more)
  {
    FrontOfSum(steps, more);
  }

  lemma {:induction false} RunAppend(b: Board, steps: seq<Step>, more: seq<Step>)
    ensures Run(b, steps + more) == Run(Run(b, steps), more)
  {
    if more == [] {
      assert steps + more == steps;
    } else {
      RunAppend(b, steps, more[..|more| - 1]);
      AppendOne(b, steps, more);
    }
  }

  lemma RunOne(b: Board, step: Step)
    ensures Run(b, [step]) == Apply(b, step)
  {
    RunMore(b, [], step);
    assert [] + [step] == [step];
  }

  // ---- sweeping until a given row has its turn ---------------------------------------------------

  function DueSet(rows: seq<Row>, now: int): set<nat> { set i | 0 <= i < |rows| && IsDue(rows[i], now) }

  lemma SelectMore(rows: seq<Row>, now: int, due: seq<nat>, left: set<nat>) returns (r: seq<nat>)
    requires Selecting(rows, now, due, left)
    ensures Selects(rows, now, r)
    decreases left
  {
    if |due| == SWEEP_LIMIT || left == {} {
      r := due;
    } else {
      EarliestExists(rows, left);
      var i :| i in left && forall j <- left :: rows[i].due <= rows[j].due;
      SelectOne(rows, now, due, left, i);
      r := SelectMore(rows, now, due + [i], left - {i});
    }
  }

  lemma SelectionExists(rows: seq<Row>, now: int) returns (due: seq<nat>)
    ensures Selects(rows, now, due)
  {
    due := SelectMore(rows, now, [], DueSet(rows, now));
  }

  function Claiming(n: nat): seq<Step> { if n == 0 then [] else Claiming(n - 1) + [Claim(true)] }

  function Trues(n: nat): (outcomes: seq<bool>)
    ensures |outcomes| == n && forall k :: 0 <= k < n ==> outcomes[k]
  {
    if n == 0 then [] else Trues(n - 1) + [true]
  }

  lemma ClaimsMore(b: Board, outcomes: seq<bool>, published: bool)
    ensures Claims(b, outcomes + [published]) == Apply(Claims(b, outcomes), Claim(published))
  {
    assert (outcomes + [published])[..|outcomes|] == outcomes;
  }

  lemma {:induction false} ClaimingIs(b: Board, n: nat)
    ensures Run(b, Claiming(n)) == Claims(b, Trues(n))
  {
    if n > 0 {
      ClaimingIs(b, n - 1);
      RunMore(b, Claiming(n - 1), Claim(true));
      ClaimsMore(b, Trues(n - 1), true);
    }
  }

  lemma {:induction false} AllHandedOver(due: seq<nat>, n: nat)
    requires |due| <= n
    ensures HandedOver(due, Trues(n)) == due
  {
    if due != [] {
      AllHandedOver(due[..|due| - 1], n);
    }
  }

  /** One sweep in which everything succeeds, as a run. */
  function SweepSteps(now: int, due: seq<nat>): seq<Step> { [BeginSweep(now, due)] + Claiming(|due|) + [CommitSweep] }

  lemma SweepRuns(b: Board, now: int, due: seq<nat>)
    requires b.sweep.None? && now <= b.clock && Selects(b.rows, now, due)
    ensures Run(b, SweepSteps(now, due)) == b.(rows := ExecuteRows(b.rows, Chosen(due), now), enqueued := b.enqueued + due)
  {
    var n := |due|;
    RunOne(b, BeginSweep(now, due));
    RunAppend(b, [BeginSweep(now, due)], Claiming(n));
    ClaimingIs(Apply(b, BeginSweep(now, due)), n);
    assert Trues(n)[..n] == Trues(n);
    RunMore(b, [BeginSweep(now, due)] + Claiming(n), CommitSweep);
    SweepIsItsSteps(b, now, due, Trues(n));
    AllHandedOver(due, n);
  }

  /** Nothing is rolled back and no status is set from outside. */
  predicate Plain(steps: seq<Step>) { forall k :: 0 <= k < |steps| ==> !steps[k].AbortSweep? && !steps[k].SetStatus? }

  lemma {:induction false} ClaimingIsPlain(n: nat)
    ensures Plain(Claiming(n))
  {
    if n > 0 {
      ClaimingIsPlain(n - 1);
    }
  }

  /** What sweeps leave alone. */
  predicate SameButSwept(b: Board, c: Board) {
    && c.orders == b.orders && c.clock == b.clock && c.sweep.None? && c.expired == b.expired
    && |c.rows| == |b.rows| && b.enqueued <= c.enqueued
    && forall i :: 0 <= i < |b.rows| ==> c.rows[i].order == b.rows[i].order && c.rows[i].job == b.rows[i].job
  }

  /** `c` follows `b` by sweeps alone, and row `i` had its turn. */
  predicate Served(b: Board, c: Board, i: nat) {
    SameButSwept(b, c) && i < |c.rows| && c.rows[i].executed.Some? && i in c.enqueued[|b.enqueued|..]
  }

  lemma SweepOnce(b: Board, due: seq<nat>, i: nat)
    requires b.sweep.None? && Selects(b.rows, b.clock, due) && i < |b.rows|
    ensures var c := b.(rows := ExecuteRows(b.rows, Chosen(due), b.clock), enqueued := b.enqueued + due);
            && SameButSwept(b, c) && c.rows[i] == (if i in due then b.rows[i].(executed := Some(b.clock)) else b.rows[i])
            && c.enqueued[|b.enqueued|..] == due
  {
  }

  lemma ServedLater(b: Board, c: Board, d: Board, i: nat)
    requires SameButSwept(b, c) && Served(c, d, i)
    ensures Served(b, d, i)
  {
    assert d.enqueued[|b.enqueued|..] == d.enqueued[|b.enqueued|..|c.enqueued|] + d.enqueued[|c.enqueued|..];
  }

  lemma SweepStepsArePlain(now: int, due: seq<nat>)
    ensures Plain(SweepSteps(now, due))
  {
    ClaimingIsPlain(|due|);
  }

  /** Sweeping often enough reaches every due row. */
  lemma SweepUntil(b: Board, i: nat) returns (steps: seq<Step>)
    requires b.sweep.None? && i < |b.rows| && IsDue(b.rows[i], b.clock)
    ensures Plain(steps) && Served(b, Run(b, steps), i)
    decreases |DueSet(b.rows, b.clock)|
  {
    var due := SelectionExists(b.rows, b.clock);
    var c := b.(rows := ExecuteRows(b.rows, Chosen(due), b.clock), enqueued := b.enqueued + due);
    SweepRuns(b, b.clock, due);
    SweepOnce(b, due, i);
    SweepStepsArePlain(b.clock, due);
    steps := SweepSteps(b.clock, due);
    if i !in due {
      SelectedAreGone(b, due);
      var more := SweepUntil(c, i);
      RunAppend(b, steps, more);
      ServedLater(b, c, Run(c, more), i);
      steps := steps + more;
    }
  }

  lemma SelectedAreGone(b: Board, due: seq<nat>)
    requires Selects(b.rows, b.clock, due) && exists i :: 0 <= i < |b.rows| && IsDue(b.rows[i], b.clock) && i !in due
    ensures |DueSet(ExecuteRows(b.rows, Chosen(due), b.clock), b.clock)| < |DueSet(b.rows, b.clock)|
  {
    var was, left := DueSet(b.rows, b.clock), DueSet(ExecuteRows(b.rows, Chosen(due), b.clock), b.clock);
    assert |due| == SWEEP_LIMIT;
    assert due[0] in due && due[0] in Chosen(due) && due[0] in was && due[0] !in left;
    assert left <= was - {due[0]};
    SubsetIsSmaller(left, was - {due[0]});
  }

  lemma SubsetIsSmaller<T>(s: set<T>, t: set<T>)
    requires s <= t
    ensures |s| <= |t|
  {
    assert t == s + (t - s);
  }

  // ---- repeated hand-overs ----------------------------------------------------------------------

  lemma RepeatIsNotDistinct(s: seq<nat>, more: seq<nat>, id: nat)
    requires id in s && id in more
    ensures !Distinct(s + more)
  {
    var j :| 0 <= j < |s| && s[j] == id;
    var k :| 0 <= k < |more| && more[k] == id;
    assert (s + more)[j] == (s + more)[|s| + k];
  }

  /** After a rollback some further sweeps, all of them committing, enqueue a
      reminder twice if and only if the rolled-back sweep had handed one over. */
  lemma RollbackRepeatsExactly(b: Board)
    requires Inv(b) && EnqueuedOk(b) && b.sweep.Some?
    ensures (exists steps :: Plain(steps) && !Distinct(Run(Apply(b, AbortSweep), steps).enqueued)) <==> !NothingHandedOver(b)
  {
    var c := Apply(b, AbortSweep);
    StepKeepsInv(b, AbortSweep);
    if NothingHandedOver(b) {
      AbortExactly(b);
      forall steps | Plain(steps) ensures Distinct(Run(c, steps).enqueued) {
        EnqueuedAtMostOnce(c, steps);
      }
    } else {
      var id :| id in b.sweep.value.claimed && id in b.enqueued;
      assert IsDue(b.rows[id], b.sweep.value.now);
      var steps := SweepUntil(c, id);
      var d := Run(c, steps);
      RepeatIsNotDistinct(c.enqueued, d.enqueued[|c.enqueued|..], id);
      assert d.enqueued == c.enqueued + d.enqueued[|c.enqueued|..];
    }
  }

  // ---- expiry still possible ----------------------------------------------------------------------

  /** Some step of the run expires the order. */
  predicate Expires(b: Board, steps: seq<Step>, order: nat) {
    var expired := Run(b, steps).expired;
    exists k :: |b.expired| <= k < |expired| && expired[k].order == order
  }

  predicate FinalLeft(rows: seq<Row>, order: nat) {
    exists i :: 0 <= i < |rows| && rows[i].order == order && rows[i].job == InvoiceSecond && rows[i].cancelled.None?
  }

  predicate Handled(b: Board, order: nat) { exists h <- b.handlers :: b.handlers[h].order == order }

  /** A scan has found the order, or its last reminder fired or still can, or a
      scheduling job is under way or still to come. */
  predicate Chance(b: Board, order: nat) {
    order in b.doomed || FinalLeft(b.rows, order) || Handled(b, order) || !HasRow(b.rows, order)
  }

  /** Rows are appended, none of them a last reminder of the order, and a
      cancelled row stays cancelled. */
  predicate Barren(rows: seq<Row>, later: seq<Row>, order: nat) {
    && |rows| <= |later|
    && (forall i :: 0 <= i < |rows| ==> later[i].order == rows[i].order && later[i].job == rows[i].job
                                        && (rows[i].cancelled.Some? ==> later[i].cancelled.Some?))
    && (forall i :: |rows| <= i < |later| ==> later[i].order != order || later[i].job != InvoiceSecond)
  }

  lemma BarrenStays(rows: seq<Row>, later: seq<Row>, order: nat)
    requires Barren(rows, later, order) && !FinalLeft(rows, order) && HasRow(rows, order)
    ensures !FinalLeft(later, order) && HasRow(later, order)
  {
    var i :| 0 <= i < |rows| && rows[i].order == order;
    assert later[i].order == order;
    forall j | 0 <= j < |later| && later[j].order == order && later[j].job == InvoiceSecond ensures later[j].cancelled.Some? {
      assert j < |rows|;
    }
  }

  lemma StepIsBarren(b: Board, step: Step, order: nat)
    requires Inv(b) && !Handled(b, order)
    ensures Barren(b.rows, Apply(b, step).rows, order)
  {
    if step.CommitSweep? && b.sweep.Some? {
      assert forall i <- b.sweep.value.claimed :: IsDue(b.rows[i], b.sweep.value.now);
    }
  }

  lemma NotFound(rows: seq<Row>, clock: int, order: nat, cutoff: int)
    requires RowsOk(rows, clock) && !FinalLeft(rows, order)
    ensures !FinalFired(rows, order, cutoff)
  {
    forall i | 0 <= i < |rows| && rows[i].order == order && rows[i].job == InvoiceSecond ensures rows[i].executed.None? {
      assert RowOk(rows[i], clock);
      assert rows[i].cancelled.Some?;
    }
  }

  lemma NotHandledStays(b: Board, step: Step, order: nat)
    requires !Handled(b, order) && HasRow(b.rows, order)
    ensures !Handled(Apply(b, step), order)
  {
    var c := Apply(b, step);
    forall h <- c.handlers ensures c.handlers[h].order != order {
      assert h in b.handlers ==> b.handlers[h].order != order;
    }
  }

  lemma NotDoomedStays(b: Board, step: Step, order: nat)
    requires RowsOk(b.rows, b.clock) && !FinalLeft(b.rows, order) && order !in b.doomed
    ensures order !in Apply(b, step).doomed && b.expired <= Apply(b, step).expired
    ensures forall k :: |b.expired| <= k < |Apply(b, step).expired| ==> Apply(b, step).expired[k].order != order
  {
    if step.ScanExpired? {
      NotFound(b.rows, b.clock, order, step.now - GRACE);
    }
  }

  lemma NoChanceStays(b: Board, step: Step, order: nat)
    requires Inv(b) && !Chance(b, order)
    ensures !Chance(Apply(b, step), order)
    ensures b.expired <= Apply(b, step).expired
    ensures forall k :: |b.expired| <= k < |Apply(b, step).expired| ==> Apply(b, step).expired[k].order != order
  {
    StepIsBarren(b, step, order);
    BarrenStays(b.rows, Apply(b, step).rows, order);
    NotHandledStays(b, step, order);
    NotDoomedStays(b, step, order);
  }

  lemma {:induction false} NoChanceNeverExpires(b: Board, steps: seq<Step>, order: nat)
    requires Inv(b) && !Chance(b, order)
    ensures !Chance(Run(b, steps), order) && b.expired <= Run(b, steps).expired && !Expires(b, steps, order)
  {
    if steps != [] {
      var front := steps[..|steps| - 1];
      NoChanceNeverExpires(b, front, order);
      RunKeepsInv(b, front);
      NoChanceStays(Run(b, front), steps[|steps| - 1], order);
    }
  }

  // ---- ... and how it happens ---------------------------------------------------------------------

  lemma Later(b: Board, steps: seq<Step>, more: seq<Step>, order: nat)
    requires b.expired == Run(b, steps).expired && Expires(Run(b, steps), more, order) && Plain(steps) && Plain(more)
    ensures Expires(b, steps + more, order) && Plain(steps + more)
  {
    RunAppend(b, steps, more);
  }

  lemma ExpireDoomed(b: Board, order: nat)
    requires order in b.doomed && order in b.orders && C.Open(b.orders[order])
    ensures Plain([CancelExpired(order)]) && Expires(b, [CancelExpired(order)], order)
  {
    RunOne(b, CancelExpired(order));
    assert Apply(b, CancelExpired(order)).expired[|b.expired|].order == order;
  }

  lemma ExpireFired(b: Board, order: nat, i: nat) returns (steps: seq<Step>)
    requires order in b.orders && C.Open(b.orders[order]) && i < |b.rows|
    requires b.rows[i].order == order && b.rows[i].job == InvoiceSecond && b.rows[i].executed.Some?
    ensures Plain(steps) && Expires(b, steps, order)
  {
    var at := b.rows[i].executed.value + GRACE;
    var now := if b.clock < at then at else b.clock;
    steps := [Tick(now)] + [ScanExpired(now, {order})];
    RunOne(b, Tick(now));
    RunMore(b, [Tick(now)], ScanExpired(now, {order}));
    assert FinalFired(b.rows, order, now - GRACE);
    var c := Run(b, steps);
    ExpireDoomed(c, order);
    Later(b, steps, [CancelExpired(order)], order);
    steps := steps + [CancelExpired(order)];
  }

  lemma ExpireLive(b: Board, order: nat, i: nat) returns (steps: seq<Step>)
    requires order in b.orders && C.Open(b.orders[order]) && i < |b.rows| && b.sweep.None?
    requires b.rows[i].order == order && b.rows[i].job == InvoiceSecond && Live(b.rows[i])
    ensures Plain(steps) && Expires(b, steps, order)
  {
    var now := if b.clock < b.rows[i].due then b.rows[i].due else b.clock;
    var c := Apply(b, Tick(now));
    RunOne(b, Tick(now));
    var sweeps := SweepUntil(c, i);
    var more := ExpireFired(Run(c, sweeps), order, i);
    Later(c, sweeps, more, order);
    Later(b, [Tick(now)], sweeps + more, order);
    steps := [Tick(now)] + (sweeps + more);
  }

  lemma ExpirePaired(b: Board, order: nat, h: nat) returns (steps: seq<Step>)
    requires order in b.orders && C.Open(b.orders[order]) && b.sweep.None?
    requires h in b.handlers && b.handlers[h].PairDone? && b.handlers[h].order == order
    ensures Plain(steps) && Expires(b, steps, order)
  {
    var c := Apply(b, InsertSecond(h));
    RunOne(b, InsertSecond(h));
    assert c.rows[|b.rows|] == NewRow(order, InvoiceSecond, b.handlers[h].now);
    var more := ExpireLive(c, order, |b.rows|);
    Later(b, [InsertSecond(h)], more, order);
    steps := [InsertSecond(h)] + more;
  }

  lemma ExpireChecked(b: Board, order: nat, h: nat) returns (steps: seq<Step>)
    requires Inv(b) && order in b.orders && C.Open(b.orders[order]) && b.sweep.None?
    requires h in b.handlers && b.handlers[h].order == order
    ensures Plain(steps) && Expires(b, steps, order)
  {
    if b.handlers[h].PairDone? {
      steps := ExpirePaired(b, order, h);
    } else {
      var c := Apply(b, InsertPair(h, b.clock));
      RunOne(b, InsertPair(h, b.clock));
      var more := ExpirePaired(c, order, h);
      Later(b, [InsertPair(h, b.clock)], more, order);
      steps := [InsertPair(h, b.clock)] + more;
    }
  }

  lemma ExpireUnscheduled(b: Board, order: nat) returns (steps: seq<Step>)
    requires Inv(b) && order in b.orders && C.Open(b.orders[order]) && b.sweep.None? && !HasRow(b.rows, order)
    ensures Plain(steps) && Expires(b, steps, order)
  {
    UnusedIdExists(b.handlers);
    var h: nat :| h !in b.handlers;
    var c := Apply(b, Check(h, order));
    RunOne(b, Check(h, order));
    StepKeepsInv(b, Check(h, order));
    var more := ExpireChecked(c, order, h);
    Later(b, [Check(h, order)], more, order);
    steps := [Check(h, order)] + more;
  }

  lemma ChanceSuffices(b: Board, order: nat) returns (steps: seq<Step>)
    requires Inv(b) && order in b.orders && C.Open(b.orders[order]) && b.sweep.None? && Chance(b, order)
    ensures Plain(steps) && Expires(b, steps, order)
  {
    if order in b.doomed {
      ExpireDoomed(b, order);
      steps := [CancelExpired(order)];
    } else if FinalLeft(b.rows, order) {
      var i :| 0 <= i < |b.rows| && b.rows[i].order == order && b.rows[i].job == InvoiceSecond && b.rows[i].cancelled.None?;
      if b.rows[i].executed.Some? {
        steps := ExpireFired(b, order, i);
      } else {
        steps := ExpireLive(b, order, i);
      }
    } else if Handled(b, order) {
      var h :| h in b.handlers && b.handlers[h].order == order;
      steps := ExpireChecked(b, order, h);
    } else {
      steps := ExpireUnscheduled(b, order);
    }
  }

  /** An unpaid order can still expire if and only if a scan has found it, or its
      last reminder exists and was not cancelled, or a scheduling job will still
      write it. The possible runs include every failure; between sweeps the run
      that expires it needs none. */
  lemma CanExpireExactly(b: Board, order: nat)
    requires Inv(b) && order in b.orders && C.Open(b.orders[order])
    ensures (exists steps :: Expires(b, steps, order)) <==> Chance(b, order)
    ensures b.sweep.None? ==> ((exists steps :: Plain(steps) && Expires(b, steps, order)) <==> Chance(b, order))
  {
    if Chance(b, order) {
      var c := Apply(b, AbortSweep);
      RunOne(b, AbortSweep);
      StepKeepsInv(b, AbortSweep);
      assert Chance(c, order);
      var steps := ChanceSuffices(c, order);
      RunAppend(b, [AbortSweep], steps);
      assert Expires(b, [AbortSweep] + steps, order);
      assert b.sweep.None? ==> c == b;
    } else {
      forall steps: seq<Step> ensures !Expires(b, steps, order) {
        NoChanceNeverExpires(b, steps, order);
      }
    }
  }

  /** An order left half scheduled by a crash has no chance left. */
  lemma HalfScheduledHasNoChance(b: Board, order: nat)
    requires HalfScheduled(b, order)
    ensures !Chance(b, order)
  {
  }
}
