/** Payout reservation against a business's balance, and the money conversion
    the transfer relies on. Columns hold whole hundredths (NUMERIC(14,2)), kept
    here as integers; requested amounts are arbitrary exact decimals. */
module Payouts {
  import opened Common

  // ---- money ---------------------------------------------------------------------------

  /** Nearest integer, halves away from zero: decimal.Round(0), and NUMERIC's own rounding. */
  function Round(x: real): (r: int)
    ensures -0.5 <= x - r as real <= 0.5
    ensures x == r as real + 0.5 ==> x < 0.0
    ensures x == r as real - 0.5 ==> 0.0 < x
  {
    if 0.0 <= x then (x + 0.5).Floor else -((-x + 0.5).Floor)
  }

  /** The value Round must return, whatever body computes it. */
  lemma RoundUnique(x: real, r: int)
    requires -0.5 <= x - r as real <= 0.5
    requires x == r as real + 0.5 ==> x < 0.0
    requires x == r as real - 0.5 ==> 0.0 < x
    ensures r == Round(x)
  {
    var d := r - Round(x);
    assert -1.0 <= d as real <= 1.0;
  }

  function ToMinorUnits(amount: real): int { Round(amount * 100.0) }

  function FromMinorUnits(minor: int): real { minor as real / 100.0 }

  /** Minor units survive the trip through major units. */
  lemma MinorRoundTrip(minor: int)
    ensures ToMinorUnits(FromMinorUnits(minor)) == minor
  {
    RoundUnique(FromMinorUnits(minor) * 100.0, minor);
  }

  /** Major units survive the trip through minor units exactly when they are
      whole hundredths. */
  lemma MajorRoundTripExactly(amount: real)
    ensures FromMinorUnits(ToMinorUnits(amount)) == amount <==> exists n: int :: amount == FromMinorUnits(n)
  {
    if n: int :| amount == FromMinorUnits(n) {
      MinorRoundTrip(n);
    }
  }

  lemma RoundMonotone(x: real, y: real)
    requires x <= y
    ensures Round(x) <= Round(y)
  {
    var gap := Round(x) - Round(y);
    assert gap as real <= 1.0;
  }

  // ---- the ledger -----------------------------------------------------------------------

  datatype Status = PENDING | SUCCESS | FAILED

  /** One payout row with what its request handler knows: the exact amount asked
      for, whether the transfer phase is still to come, and the minor units the
      provider moved for it. */
  datatype Payout = Payout(requested: real, amount: int, status: Status, running: bool, minorSent: int)

  datatype Ledger = Ledger(revenue: int, payouts: seq<Payout>)

  function CommittedOf(): Payout -> int {
    (p: Payout) => if p.status == FAILED then 0 else p.amount
  }

  function SentOf(): Payout -> int { (p: Payout) => p.minorSent }

  /** Money that left for a payout the ledger calls FAILED. */
  function LostOf(): Payout -> int {
    (p: Payout) => if p.status == FAILED then p.minorSent else 0
  }

  /** Money that left for a payout the ledger still counts. */
  function KeptOf(): Payout -> int {
    (p: Payout) => if p.status == FAILED then 0 else p.minorSent
  }

  /** SumCommittedPayoutAmounts: PENDING and SUCCESS payouts. */
  function CommittedTotal(l: Ledger): int { Sum(l.payouts, CommittedOf()) }

  const EPSILON: real := 0.001

  /** Successful revenue less commitments, floored at zero, in major units. */
  function Available(l: Ledger): real {
    var balance := l.revenue - CommittedTotal(l);
    if balance < 0 then 0.0 else FromMinorUnits(balance)
  }

  predicate Covers(l: Ledger, amount: real) { amount <= Available(l) + EPSILON }

  /** The row a reservation inserts; the amount column keeps whole hundredths. */
  function NewPayout(amount: real): Payout { Payout(amount, Round(amount * 100.0), PENDING, true, 0) }

  /** Phase 1 under the business lock. */
  function Reserve(l: Ledger, amount: real): Ledger {
    if 0.0 < amount && Covers(l, amount) then l.(payouts := l.payouts + [NewPayout(amount)]) else l
  }

  /** How phase 2 ends: refused before the provider was asked to move money; asked,
      but with an error instead of an answer, so the money may have moved or not;
      completed (the provider's status decides between SUCCESS and PENDING); or
      transferred with the completing write failing. Every failure ends in FAILED,
      unless the handler dies or its FAILED write fails too: then the row is
      abandoned as PENDING, its money moved or not. */
  datatype Transfer =
    Refused | Errored(moved: bool) | Completed(success: bool) | WriteLost | Abandoned(moved: bool)

  /** The money left and the row says FAILED. */
  predicate Lossy(t: Transfer) { t.WriteLost? || (t.Errored? && t.moved) }

  function Executed(p: Payout, t: Transfer): Payout {
    match t
    case Refused => p.(status := FAILED, running := false)
    case Errored(moved) => p.(status := FAILED, running := false, minorSent := if moved then ToMinorUnits(p.requested) else p.minorSent)
    case Completed(success) =>
      p.(status := if success then SUCCESS else PENDING, running := false, minorSent := ToMinorUnits(p.requested))
    case WriteLost => p.(status := FAILED, running := false, minorSent := ToMinorUnits(p.requested))
    case Abandoned(moved) => p.(running := false, minorSent := if moved then ToMinorUnits(p.requested) else p.minorSent)
  }

  datatype Step =
    | Earn(minor: nat)                    // a successful payment
    | Request(amount: real)
    | Execute(payout: nat, t: Transfer)

  function Apply(l: Ledger, step: Step): Ledger {
    match step
    case Earn(minor) => l.(revenue := l.revenue + minor)
    case Request(amount) => Reserve(l, amount)
    case Execute(i, t) =>
      if i < |l.payouts| && l.payouts[i].running then l.(payouts := l.payouts[i := Executed(l.payouts[i], t)]) else l
  }

  function Run(l: Ledger, steps: seq<Step>): Ledger {
    if steps == [] then l else Apply(Run(l, steps[..|steps| - 1]), steps[|steps| - 1])
  }

  const EMPTY: Ledger := Ledger(0, [])

  /** A row reserves what its transfer will send, and has sent that or nothing. */
  predicate RowOk(p: Payout) {
    && 0 <= p.amount == ToMinorUnits(p.requested)
    && (p.running ==> p.status == PENDING && p.minorSent == 0)
    && (p.minorSent == 0 || p.minorSent == p.amount)
  }

  predicate Solvent(l: Ledger) {
    CommittedTotal(l) <= l.revenue && forall p <- l.payouts :: RowOk(p)
  }

  /** The tolerance never lets an over-commitment through: against a balance in
      whole hundredths, an accepted amount rounds to at most that balance. */
  lemma ToleranceIsHarmless(l: Ledger, amount: real)
    requires Solvent(l) && 0.0 < amount
    ensures Covers(l, amount) ==> 0 <= Round(amount * 100.0) <= l.revenue - CommittedTotal(l)
  {
    var balance := l.revenue - CommittedTotal(l);
    if Covers(l, amount) {
      assert amount * 100.0 <= balance as real + 0.1;
      RoundMonotone(amount * 100.0, balance as real + 0.1);
      RoundUnique(balance as real + 0.1, balance);
      RoundMonotone(0.0, amount * 100.0);
    }
  }

  /** The balance check, for any amount and ledger: the free balance, or nothing when it
      is overdrawn, and a tenth of a minor unit of tolerance. */
  lemma CoveredExactly(l: Ledger, amount: real)
    ensures Covers(l, amount) <==>
      100.0 * amount <= 0.1 || 100.0 * amount <= (l.revenue - CommittedTotal(l)) as real + 0.1
  {
  }

  /** An amount in whole hundredths is accepted exactly when the balance covers it. */
  lemma HundredthsCoveredExactly(l: Ledger, minor: int)
    requires CommittedTotal(l) <= l.revenue && 0 < minor
    ensures Covers(l, FromMinorUnits(minor)) <==> minor <= l.revenue - CommittedTotal(l)
  {
    var balance := l.revenue - CommittedTotal(l);
    if minor <= balance {
      assert FromMinorUnits(minor) <= FromMinorUnits(balance);
    } else {
      assert minor as real >= balance as real + 1.0;
      assert FromMinorUnits(minor) >= FromMinorUnits(balance) + 0.01;
    }
  }

  lemma StepKeepsSolvent(l: Ledger, step: Step)
    requires Solvent(l)
    ensures Solvent(Apply(l, step))
  {
    match step
    case Earn(_) =>
    case Request(amount) =>
      if 0.0 < amount && Covers(l, amount) {
        ToleranceIsHarmless(l, amount);
        SumAppend(l.payouts, NewPayout(amount), CommittedOf());
      }
    case Execute(i, t) =>
      if i < |l.payouts| {
        assert RowOk(l.payouts[i]);
        SumUpdate(l.payouts, i, Executed(l.payouts[i], t), CommittedOf());
      }
  }

  /** Over any interleaving of payments, requests, completions and failures, and
      for requested amounts of any precision, PENDING plus SUCCESS payouts never
      exceed successful payments, and each transfer sends exactly its row's amount. */
  lemma RunIsSolvent(steps: seq<Step>)
    ensures Solvent(Run(EMPTY, steps))
  {
    RunKeepsSolvent(EMPTY, steps);
  }

  lemma {:induction false} RunKeepsSolvent(l: Ledger, steps: seq<Step>)
    requires Solvent(l)
    ensures Solvent(Run(l, steps))
  {
    if steps != [] {
      RunKeepsSolvent(l, steps[..|steps| - 1]);
      StepKeepsSolvent(Run(l, steps[..|steps| - 1]), steps[|steps| - 1]);
    }
  }

  /** How a request ends: SUCCESS if and only if the provider reported success and the
      completing write went through; FAILED if and only if it was refused, got no answer
      or lost that write; otherwise the row stays PENDING. */
  lemma EndsExactly(l: Ledger, i: nat, t: Transfer)
    requires Solvent(l) && i < |l.payouts| && l.payouts[i].running
    ensures var p := Apply(l, Execute(i, t)).payouts[i];
            && (p.status == SUCCESS <==> t == Completed(true))
            && (p.status == FAILED <==> t.Refused? || t.Errored? || t.WriteLost?)
            && (p.status == PENDING <==> t == Completed(false) || t.Abandoned?)
            && !p.running && p.amount == l.payouts[i].amount
            && p.minorSent == if t.Completed? || t.WriteLost? || t in {Errored(true), Abandoned(true)} then p.amount else 0
  {
    assert RowOk(l.payouts[i]);
  }

  predicate SucceedsAt(steps: seq<Step>, k: nat, i: nat)
    requires k < |steps|
  {
    var l := Run(EMPTY, steps[..k]);
    steps[k] == Execute(i, Completed(true)) && i < |l.payouts| && l.payouts[i].running
  }

  /** On every run a payout is SUCCESS if and only if its own transfer succeeded and
      was recorded. */
  lemma {:induction false} SuccessHasCause(steps: seq<Step>, i: nat)
    ensures i < |Run(EMPTY, steps).payouts| && Run(EMPTY, steps).payouts[i].status == SUCCESS
       <==> exists k :: 0 <= k < |steps| && SucceedsAt(steps, k, i)
  {
    if steps != [] {
      var n := |steps| - 1;
      SuccessHasCause(steps[..n], i);
      RunIsSolvent(steps[..n]);
      var l := Run(EMPTY, steps[..n]);
      SuccessNext(l, steps[n], i);
      assert SucceedsAt(steps, n, i) <==> steps[n] == Execute(i, Completed(true)) && i < |l.payouts| && l.payouts[i].running;
      forall k | 0 <= k < n ensures SucceedsAt(steps, k, i) <==> SucceedsAt(steps[..n], k, i) {
        assert steps[..n][..k] == steps[..k];
      }
    }
  }

  lemma SuccessNext(l: Ledger, step: Step, i: nat)
    requires Solvent(l)
    ensures var u := Apply(l, step);
            (i < |u.payouts| && u.payouts[i].status == SUCCESS) <==>
              (i < |l.payouts| && l.payouts[i].status == SUCCESS)
              || (step == Execute(i, Completed(true)) && i < |l.payouts| && l.payouts[i].running)
  {
    if step.Execute? && step.payout == i && i < |l.payouts| && l.payouts[i].running {
      EndsExactly(l, i, step.t);
      assert RowOk(l.payouts[i]);
    }
  }

  /** A refused transfer undoes its reservation: the balance is what it was, and
      the same request is accepted again. A completed one keeps it reserved. */
  lemma RefusalReleases(l: Ledger, amount: real, success: bool)
    requires Solvent(l) && 0.0 < amount && Covers(l, amount)
    ensures var reserved, i := Reserve(l, amount), |l.payouts|;
            var refused := Apply(reserved, Execute(i, Refused));
            && Available(refused) == Available(l) && Covers(refused, amount)
            && CommittedTotal(reserved) == CommittedTotal(l) + Round(amount * 100.0)
            && CommittedTotal(Apply(reserved, Execute(i, Completed(success)))) == CommittedTotal(reserved)
  {
    var reserved, i := Reserve(l, amount), |l.payouts|;
    var p := NewPayout(amount);
    SumAppend(l.payouts, p, CommittedOf());
    SumUpdate(reserved.payouts, i, Executed(p, Refused), CommittedOf());
    SumUpdate(reserved.payouts, i, Executed(p, Completed(success)), CommittedOf());
  }

  // ---- what the provider moved ---------------------------------------------------------------

  /** Reserved and not sent: what the transfers still under way will move. */
  function UnsentOf(): Payout -> int {
    (p: Payout) => if p.status == FAILED then 0 else p.amount - p.minorSent
  }

  predicate Overdrawn(l: Ledger) { Sum(l.payouts, SentOf()) > l.revenue }

  /** Money sent is committed money, less what is still to be sent, plus losses. */
  lemma SentBalance(l: Ledger)
    ensures Sum(l.payouts, SentOf()) == CommittedTotal(l) - Sum(l.payouts, UnsentOf()) + Sum(l.payouts, LostOf())
  {
    SumOfSums(l.payouts, KeptOf(), LostOf(), SentOf());
    SumOfSums(l.payouts, KeptOf(), UnsentOf(), CommittedOf());
  }

  /** The same as a comparison: more money left than came in if and only if the losses
      exceed the free balance together with what is reserved and not sent yet. */
  lemma OverdrawnExactly(l: Ledger)
    ensures Overdrawn(l) <==> Sum(l.payouts, LostOf()) > l.revenue - CommittedTotal(l) + Sum(l.payouts, UnsentOf())
  {
    SentBalance(l);
  }

  /** On every run the money that left, apart from losses, is covered by the money
      that came in. */
  lemma TransfersCoveredUpToLosses(steps: seq<Step>)
    ensures var l := Run(EMPTY, steps);
            Sum(l.payouts, SentOf()) - Sum(l.payouts, LostOf()) <= CommittedTotal(l) <= l.revenue
  {
    RunIsSolvent(steps);
    var l := Run(EMPTY, steps);
    SentBalance(l);
    forall p <- l.payouts ensures 0 <= UnsentOf()(p) {
      assert RowOk(p);
    }
    SumNonNegative(l.payouts, UnsentOf());
  }

  predicate Lossless(steps: seq<Step>) { forall step <- steps :: step.Execute? ==> !Lossy(step.t) }

  /** Reserved for good: PENDING, its handler gone, its money never moved. */
  function StuckOf(): Payout -> int {
    (p: Payout) => if p.status == FAILED || p.running then 0 else p.amount - p.minorSent
  }

  lemma UnsentAtLeastStuck(l: Ledger)
    requires Solvent(l)
    ensures 0 <= Sum(l.payouts, StuckOf()) <= Sum(l.payouts, UnsentOf())
  {
    forall p <- l.payouts ensures 0 <= StuckOf()(p) <= UnsentOf()(p) {
      assert RowOk(p);
    }
    SumNonNegative(l.payouts, StuckOf());
    SumMonotone(l.payouts, StuckOf(), UnsentOf());
  }

  lemma ExecuteLossless(l: Ledger, i: nat, t: Transfer)
    requires Solvent(l) && !Lossy(t)
    ensures var u := Apply(l, Execute(i, t));
            && Sum(u.payouts, LostOf()) == Sum(l.payouts, LostOf())
            && Sum(u.payouts, StuckOf()) >= Sum(l.payouts, StuckOf())
  {
    if i < |l.payouts| && l.payouts[i].running {
      assert RowOk(l.payouts[i]);
      var p := Executed(l.payouts[i], t);
      SumUpdate(l.payouts, i, p, LostOf());
      SumUpdate(l.payouts, i, p, StuckOf());
    }
  }

  lemma RequestLossless(l: Ledger, amount: real)
    ensures var u := Apply(l, Request(amount));
            && Sum(u.payouts, LostOf()) == Sum(l.payouts, LostOf())
            && Sum(u.payouts, StuckOf()) == Sum(l.payouts, StuckOf())
  {
    SumAppend(l.payouts, NewPayout(amount), LostOf());
    SumAppend(l.payouts, NewPayout(amount), StuckOf());
  }

  lemma {:induction false} LosslessKeeps(l: Ledger, steps: seq<Step>)
    requires Solvent(l) && Lossless(steps)
    ensures var u := Run(l, steps);
            && Solvent(u) && Sum(u.payouts, LostOf()) == Sum(l.payouts, LostOf())
            && Sum(u.payouts, StuckOf()) >= Sum(l.payouts, StuckOf())
  {
    if steps != [] {
      var front, last := steps[..|steps| - 1], steps[|steps| - 1];
      assert last in steps && forall step <- front :: step in steps;
      LosslessKeeps(l, front);
      StepKeepsSolvent(Run(l, front), last);
      match last
      case Earn(_) =>
      case Request(amount) => RequestLossless(Run(l, front), amount);
      case Execute(i, t) => ExecuteLossless(Run(l, front), i, t);
    }
  }

  lemma {:induction false} NothingToOverdraw(l: Ledger, steps: seq<Step>)
    requires Solvent(l) && Lossless(steps) && Sum(l.payouts, LostOf()) <= Sum(l.payouts, StuckOf())
    ensures !Overdrawn(Run(l, steps))
  {
    LosslessKeeps(l, steps);
    OverdrawnExactly(Run(l, steps));
    UnsentAtLeastStuck(Run(l, steps));
  }

  /** While no transfer is lossy, the money that left never exceeds the money that came in. */
  lemma TransfersStayCovered(steps: seq<Step>)
    requires Lossless(steps)
    ensures Sum(Run(EMPTY, steps).payouts, SentOf()) <= Run(EMPTY, steps).revenue
  {
    NothingToOverdraw(EMPTY, steps);
  }

  // ---- what losses can be paid twice --------------------------------------------------------------

  lemma RunMore(l: Ledger, steps: seq<Step>, step: Step)
    ensures Run(l, steps + [step]) == Apply(Run(l, steps), step)
  {
    assert (steps + [step])[..|steps|] == steps;
  }

  /** Completing the first `k` transfers. */
  function Completing(k: nat): (steps: seq<Step>)
    ensures Lossless(steps)
  {
    if k == 0 then [] else Completing(k - 1) + [Execute(k - 1, Completed(true))]
  }

  predicate Settled(l: Ledger, k: nat) { forall i :: 0 <= i < k && i < |l.payouts| ==> !l.payouts[i].running }

  /** `u` is `l` with its first `k` transfers completed, losing nothing more. */
  predicate CompletedFirst(l: Ledger, u: Ledger, k: nat) {
    && Solvent(u) && Settled(u, k) && u.revenue == l.revenue && |u.payouts| == |l.payouts|
    && Sum(u.payouts, LostOf()) == Sum(l.payouts, LostOf())
    && Sum(u.payouts, StuckOf()) == Sum(l.payouts, StuckOf())
  }

  lemma CompleteNext(l: Ledger, u: Ledger, k: nat)
    requires CompletedFirst(l, u, k) && k < |l.payouts|
    ensures CompletedFirst(l, Apply(u, Execute(k, Completed(true))), k + 1)
  {
    StepKeepsSolvent(u, Execute(k, Completed(true)));
    assert RowOk(u.payouts[k]);
    var p := Executed(u.payouts[k], Completed(true));
    SumUpdate(u.payouts, k, p, LostOf());
    SumUpdate(u.payouts, k, p, StuckOf());
  }

  lemma {:induction false} CompletingSettles(l: Ledger, k: nat)
    requires Solvent(l) && k <= |l.payouts|
    ensures CompletedFirst(l, Run(l, Completing(k)), k)
  {
    if k > 0 {
      CompletingSettles(l, k - 1);
      CompletesOneMore(l, k);
    }
  }

  lemma CompletesOneMore(l: Ledger, k: nat)
    requires 0 < k <= |l.payouts| && CompletedFirst(l, Run(l, Completing(k - 1)), k - 1)
    ensures CompletedFirst(l, Run(l, Completing(k)), k)
  {
    RunMore(l, Completing(k - 1), Execute(k - 1, Completed(true)));
    CompleteNext(l, Run(l, Completing(k - 1)), k - 1);
  }

  lemma SettledSends(l: Ledger)
    requires Solvent(l) && Settled(l, |l.payouts|)
    ensures Sum(l.payouts, SentOf()) == CommittedTotal(l) - Sum(l.payouts, StuckOf()) + Sum(l.payouts, LostOf())
  {
    SentBalance(l);
    forall p <- l.payouts ensures UnsentOf()(p) == StuckOf()(p) {
      var i :| 0 <= i < |l.payouts| && l.payouts[i] == p;
    }
    SumMonotone(l.payouts, StuckOf(), UnsentOf());
    SumMonotone(l.payouts, UnsentOf(), StuckOf());
  }

  /** Requesting and completing the whole free balance. */
  lemma DrainBalance(l: Ledger)
    requires Solvent(l) && CommittedTotal(l) < l.revenue
    ensures var b := l.revenue - CommittedTotal(l);
            var u := Apply(Apply(l, Request(FromMinorUnits(b))), Execute(|l.payouts|, Completed(true)));
            Sum(u.payouts, SentOf()) == Sum(l.payouts, SentOf()) + b && u.revenue == l.revenue
  {
    var b := l.revenue - CommittedTotal(l);
    HundredthsCoveredExactly(l, b);
    MinorRoundTrip(b);
    var p := NewPayout(FromMinorUnits(b));
    SumAppend(l.payouts, p, SentOf());
    SumUpdate(l.payouts + [p], |l.payouts|, Executed(p, Completed(true)), SentOf());
  }

  lemma LossSpends(l: Ledger) returns (steps: seq<Step>)
    requires Solvent(l) && Sum(l.payouts, LostOf()) > Sum(l.payouts, StuckOf())
    ensures Lossless(steps) && Overdrawn(Run(l, steps))
  {
    var n := |l.payouts|;
    steps := Completing(n);
    CompletingSettles(l, n);
    var u := Run(l, steps);
    SettledSends(u);
    var b := u.revenue - CommittedTotal(u);
    if b > 0 {
      DrainBalance(u);
      var ask, pay := Request(FromMinorUnits(b)), Execute(n, Completed(true));
      RunMore(l, steps, ask);
      RunMore(l, steps + [ask], pay);
      steps := steps + [ask] + [pay];
    }
  }

  /** From any ledger a run can reach, requests that lose nothing more can overdraw
      the account if and only if more was lost than is reserved for good; with no
      abandoned reservation, every single loss can be paid out a second time. */
  lemma OverdraftPossibleExactly(l: Ledger)
    requires Solvent(l)
    ensures (exists steps :: Lossless(steps) && Overdrawn(Run(l, steps)))
            <==> Sum(l.payouts, LostOf()) > Sum(l.payouts, StuckOf())
  {
    if Sum(l.payouts, LostOf()) > Sum(l.payouts, StuckOf()) {
      var steps := LossSpends(l);
    } else {
      forall steps | Lossless(steps) ensures !Overdrawn(Run(l, steps)) {
        NothingToOverdraw(l, steps);
      }
    }
  }

  /** The failing case: a lost completing write, or an error in place of an answer
      that did move the money, releases a reservation whose money has left, and the
      same balance then pays out a second time. */
  lemma LostWritePaysTwice(minor: nat, t: Transfer)
    requires 0 < minor && Lossy(t)
    ensures var a := FromMinorUnits(minor);
            var steps := [Earn(minor), Request(a), Execute(0, t), Request(a), Execute(1, Completed(true))];
            var l := Run(EMPTY, steps);
            l.revenue == minor && Sum(l.payouts, SentOf()) == 2 * minor
  {
    var a := FromMinorUnits(minor);
    MinorRoundTrip(minor);
    var p := NewPayout(a);
    var lost, won := Executed(p, t), Executed(p, Completed(true));
    PaidOnce(minor, t);
    PaidAgain(minor, lost);
    TwoSent(lost, won);
    RunFive(Earn(minor), Request(a), Execute(0, t), Request(a), Execute(1, Completed(true)));
  }

  lemma PaidOnce(minor: nat, t: Transfer)
    requires 0 < minor && Lossy(t)
    ensures var a := FromMinorUnits(minor);
            Apply(Apply(Apply(EMPTY, Earn(minor)), Request(a)), Execute(0, t)) == Ledger(minor, [Executed(NewPayout(a), t)])
  {
    HundredthsCoveredExactly(Ledger(minor, []), minor);
  }

  lemma PaidAgain(minor: nat, lost: Payout)
    requires 0 < minor && lost.status == FAILED
    ensures var a := FromMinorUnits(minor);
            Apply(Apply(Ledger(minor, [lost]), Request(a)), Execute(1, Completed(true)))
            == Ledger(minor, [lost, Executed(NewPayout(a), Completed(true))])
  {
    var a := FromMinorUnits(minor);
    OnePayout(minor, lost);
    HundredthsCoveredExactly(Ledger(minor, [lost]), minor);
    assert [lost] + [NewPayout(a)] == [lost, NewPayout(a)];
    assert [lost, NewPayout(a)][1 := Executed(NewPayout(a), Completed(true))] == [lost, Executed(NewPayout(a), Completed(true))];
  }

  lemma OnePayout(revenue: int, p: Payout)
    ensures CommittedTotal(Ledger(revenue, [p])) == CommittedOf()(p)
  {
    SumAppend([], p, CommittedOf());
    assert [] + [p] == [p];
  }

  lemma TwoSent(p: Payout, q: Payout)
    ensures Sum([p, q], SentOf()) == p.minorSent + q.minorSent
  {
    SumAppend([], p, SentOf());
    SumAppend([p], q, SentOf());
    assert [] + [p] == [p] && [p] + [q] == [p, q];
  }

  lemma RunFive(a: Step, b: Step, c: Step, d: Step, e: Step)
    ensures Run(EMPTY, [a, b, c, d, e]) == Apply(Apply(Apply(Apply(Apply(EMPTY, a), b), c), d), e)
  {
    assert [a, b, c, d, e][..4] == [a, b, c, d];
    assert [a, b, c, d][..3] == [a, b, c];
    assert [a, b, c][..2] == [a, b];
    assert [a, b][..1] == [a];
    assert [a][..0] == [];
    assert Run(EMPTY, [a]) == Apply(Run(EMPTY, []), a);
    assert Run(EMPTY, [a, b]) == Apply(Run(EMPTY, [a]), b);
    assert Run(EMPTY, [a, b, c]) == Apply(Run(EMPTY, [a, b]), c);
    assert Run(EMPTY, [a, b, c, d]) == Apply(Run(EMPTY, [a, b, c]), d);
  }

  // ---- the request handler -------------------------------------------------------------------

  class Business {
    var revenue: int
    var payouts: seq<Payout>
    var recipient: string   // the provider's recipient code, once created

    function Now(): Ledger
      reads this
    {
      Ledger(revenue, payouts)
    }

    constructor (recipient: string)
      ensures Now() == EMPTY && this.recipient == recipient
    {
      this.revenue, this.payouts, this.recipient := 0, [], recipient;
    }

    /** Phase 1: balance check and PENDING insert, atomic under the lock. */
    method ReservePayout(amount: real) returns (payout: Option<nat>)
      requires 0.0 < amount
      modifies `payouts
      ensures Now() == Apply(old(Now()), Request(amount))
      ensures payout == if Covers(old(Now()), amount) then Some(|old(payouts)|) else None
    {
      var committed := 0;
      for k := 0 to |payouts|
        invariant committed == Sum(payouts[..k], CommittedOf())
      {
        assert payouts[..k + 1][..k] == payouts[..k];
        if payouts[k].status != FAILED {
          committed := committed + payouts[k].amount;
        }
      }
      assert payouts[..|payouts|] == payouts;
      var available := revenue - committed;
      if available < 0 {
        available := 0;
      }
      if FromMinorUnits(available) + EPSILON < amount {
        return None;
      }
      payouts := payouts + [Payout(amount, Round(amount * 100.0), PENDING, true, 0)];
      return Some(|payouts| - 1);
    }

    /** Phase 2: create and cache the recipient if there is none, transfer, and
        record the result; any failure marks the payout FAILED, also when the
        provider did not answer and the money may have `moved`. */
    method ExecuteTransfer(i: nat, code: string, cacheOk: bool, answered: bool, moved: bool, success: bool,
                           writeOk: bool, releaseOk: bool)
      returns (ok: bool)
      requires i < |payouts| && payouts[i].running
      modifies `payouts, `recipient
      ensures var cached := old(recipient) != "";
              var refused := !cached && (code == "" || !cacheOk);
              var left := !refused && (answered || moved);
              && Now() == Apply(old(Now()), Execute(i,
                   if !refused && answered && writeOk then Completed(success)
                   else if !releaseOk then Abandoned(left)
                   else if refused then Refused else if !answered then Errored(moved) else WriteLost))
              && (ok <==> !refused && answered && writeOk)
              && (ok ==> payouts[i].status == if success then SUCCESS else PENDING)
              && (!ok && releaseOk ==> payouts[i].status == FAILED)
              && (!ok && !releaseOk ==> payouts[i].status == old(payouts)[i].status)
              && recipient == if !cached && code != "" && cacheOk then code else old(recipient)
    {
      var p := payouts[i];
      if recipient == "" {
        if code == "" || !cacheOk {
          Release(i, false, releaseOk);
          return false;
        }
        recipient := code;
      }
      if !answered {
        Release(i, moved, releaseOk);
        return false;
      }
      if !writeOk {
        Release(i, true, releaseOk);
        return false;
      }
      payouts := payouts[i := p.(status := if success then SUCCESS else PENDING, running := false, minorSent := ToMinorUnits(p.requested))];
      return true;
    }

    /** The FAILED write that ends every failing request; when it fails too the row
        stays as it is. */
    method Release(i: nat, moved: bool, releaseOk: bool)
      requires i < |payouts|
      modifies `payouts
      ensures var p := old(payouts)[i];
              payouts == old(payouts)[i := p.(status := if releaseOk then FAILED else p.status, running := false,
                                              minorSent := if moved then ToMinorUnits(p.requested) else p.minorSent)]
    {
      var p := payouts[i];
      if moved {
        p := p.(minorSent := ToMinorUnits(p.requested));
      }
      if releaseOk {
        p := p.(status := FAILED);
      }
      payouts := payouts[i := p.(running := false)];
    }
  }
}
