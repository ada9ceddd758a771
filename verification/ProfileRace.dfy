/** The statistics transaction of one customer, split where it can be overtaken:
    it reads the profile and later writes back absolute numbers, while another
    transaction of the same customer may do the same. */
module ProfileRace {
  import opened Common
  import C = Commerce

  /** A transaction that has claimed its order's marker and read the profile;
      `since` is how many had been committed when it read. */
  datatype Open = Open(total: int, seen: C.Profile, since: nat)

  datatype State = State(
    profile: C.Profile,
    recorded: seq<int>,     // the totals of the orders whose marker is committed
    marked: set<nat>,       // those orders
    open: map<nat, Open>)   // transactions under way, by order

  datatype Step = Begin(order: nat, total: int) | Commit(order: nat) | Abort(order: nat)

  function Apply(s: State, step: Step): State {
    match step
    case Begin(o, total) =>
      if o in s.marked || o in s.open then s else s.(open := s.open[o := Open(total, s.profile, |s.recorded|)])
    case Commit(o) =>
      if o in s.open then
        var t := s.open[o];
        State(C.Profile(t.seen.totalOrders + 1, t.seen.totalSpent + t.total), s.recorded + [t.total], s.marked + {o}, s.open - {o})
      else s
    case Abort(o) => s.(open := s.open - {o})
  }

  function Run(s: State, steps: seq<Step>): State {
    if steps == [] then s else Apply(Run(s, steps[..|steps| - 1]), steps[|steps| - 1])
  }

  const EMPTY: State := State(C.Profile(0, 0), [], {}, map[])

  function Itself(): int -> int { (x: int) => x }

  /** The profile that counts and sums the first `n` recorded orders. */
  function Tally(recorded: seq<int>, n: nat): C.Profile
    requires n <= |recorded|
  {
    C.Profile(n, Sum(recorded[..n], Itself()))
  }

  predicate Agrees(s: State) { s.profile == Tally(s.recorded, |s.recorded|) }

  /** Every transaction under way saw the tally of its time. */
  predicate SawTally(s: State) {
    forall o <- s.open :: s.open[o].since <= |s.recorded| && s.open[o].seen == Tally(s.recorded, s.open[o].since)
  }

  /** Nobody else committed since the transaction read the profile. */
  predicate Undisturbed(s: State, step: Step) { step.Commit? && step.order in s.open ==> s.open[step.order].since == |s.recorded| }

  lemma TallyLasts(recorded: seq<int>, total: int, n: nat)
    requires n <= |recorded|
    ensures Tally(recorded + [total], n) == Tally(recorded, n)
  {
    assert (recorded + [total])[..n] == recorded[..n];
  }

  lemma TallyNext(recorded: seq<int>, total: int)
    ensures var t, n := Tally(recorded, |recorded|), |recorded|;
            Tally(recorded + [total], n + 1) == C.Profile(t.totalOrders + 1, t.totalSpent + total)
  {
    SumAppend(recorded, total, Itself());
    assert recorded[..|recorded|] == recorded && (recorded + [total])[..|recorded| + 1] == recorded + [total];
  }

  /** A commit keeps the counters right if and only if it was not disturbed. */
  lemma CommitExactly(s: State, step: Step)
    requires Agrees(s) && SawTally(s)
    ensures Agrees(Apply(s, step)) <==> Undisturbed(s, step)
    ensures Agrees(Apply(s, step)) ==> SawTally(Apply(s, step))
  {
    if step.Commit? && step.order in s.open {
      var t := s.open[step.order];
      TallyNext(s.recorded, t.total);
      forall o <- s.open ensures Tally(s.recorded + [t.total], s.open[o].since) == s.open[o].seen {
        TallyLasts(s.recorded, t.total, s.open[o].since);
      }
    }
  }

  /** After every prefix of the run. */
  predicate AlwaysAgrees(steps: seq<Step>) {
    Agrees(Run(EMPTY, steps)) && (steps != [] ==> AlwaysAgrees(steps[..|steps| - 1]))
  }

  predicate AlwaysUndisturbed(steps: seq<Step>) {
    steps != [] ==>
      var n := |steps| - 1;
      AlwaysUndisturbed(steps[..n]) && Undisturbed(Run(EMPTY, steps[..n]), steps[n])
  }

  lemma {:induction false} AgreesMeansSawTally(steps: seq<Step>)
    requires AlwaysAgrees(steps)
    ensures SawTally(Run(EMPTY, steps))
  {
    if steps != [] {
      var n := |steps| - 1;
      AgreesMeansSawTally(steps[..n]);
      AgreesNow(steps[..n]);
      CommitExactly(Run(EMPTY, steps[..n]), steps[n]);
    }
  }

  lemma AgreesNow(steps: seq<Step>)
    requires AlwaysAgrees(steps)
    ensures Agrees(Run(EMPTY, steps))
  {
  }

  predicate MarkedOnce(s: State) { |s.recorded| == |s.marked| && s.marked !! s.open.Keys }

  /** On every run an order is recorded at most once, and never again once its marker
      is committed, whatever overlaps. */
  lemma {:induction false} RecordedOncePerOrder(steps: seq<Step>)
    ensures MarkedOnce(Run(EMPTY, steps))
    ensures forall o, total :: o in Run(EMPTY, steps).marked ==>
      Apply(Run(EMPTY, steps), Begin(o, total)) == Apply(Run(EMPTY, steps), Commit(o)) == Run(EMPTY, steps)
  {
    if steps != [] {
      RecordedOncePerOrder(steps[..|steps| - 1]);
    }
  }

  /** All along a run of overlapping transactions total_orders and total_spent
      equal the count and sum over the recorded orders if and only if no transaction
      commits with another commit between its read and its own. */
  lemma {:induction false} CountersAgreeExactly(steps: seq<Step>)
    ensures AlwaysAgrees(steps) <==> AlwaysUndisturbed(steps)
  {
    if steps != [] {
      var n := |steps| - 1;
      CountersAgreeExactly(steps[..n]);
      if AlwaysAgrees(steps[..n]) {
        AgreesMeansSawTally(steps[..n]);
        AgreesNow(steps[..n]);
        CommitExactly(Run(EMPTY, steps[..n]), steps[n]);
      }
    }
  }

  lemma RunMore(steps: seq<Step>, step: Step)
    ensures Run(EMPTY, steps + [step]) == Apply(Run(EMPTY, steps), step)
  {
    assert (steps + [step])[..|steps|] == steps;
  }

  /** The lost update as a run, for any two orders of one customer: both are marked
      as recorded and the profile knows only the second. */
  lemma OverlapLosesAnOrder(a: int, b: int)
    ensures exists steps ::
      Run(EMPTY, steps).recorded == [a, b] && Run(EMPTY, steps).profile == C.Profile(1, b)
  {
    var steps := [] + [Begin(0, a)];
    RunMore([], Begin(0, a));
    RunMore(steps, Begin(1, b));
    steps := steps + [Begin(1, b)];
    assert Run(EMPTY, steps).open == map[0 := Open(a, C.Profile(0, 0), 0), 1 := Open(b, C.Profile(0, 0), 0)];
    RunMore(steps, Commit(0));
    steps := steps + [Commit(0)];
    assert Run(EMPTY, steps).recorded == [a] && Run(EMPTY, steps).open == map[1 := Open(b, C.Profile(0, 0), 0)];
    RunMore(steps, Commit(1));
    steps := steps + [Commit(1)];
    assert Run(EMPTY, steps).recorded == [a, b];
  }
}
