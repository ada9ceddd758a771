/** One-time codes of one phone in Redis: every command is a step, every key has
    a time to live, and any call may fail between two commands. */
module Otp {
  import opened Common

  const TTL: int := 300       // seconds
  const MAX_ATTEMPTS: nat := 5

  /** The code key; `serial` numbers the stores. */
  datatype Stored = Stored(value: string, serial: nat, expires: int)
  /** The attempts key; no expiry until EXPIRE has run. */
  datatype Counter = Counter(n: nat, expires: Option<int>)

  /** A verification in flight: after GET, after the first INCR, ready to compare. */
  datatype Call =
    | Read(guess: string, stored: string, serial: nat)
    | Counted(guess: string, stored: string, serial: nat)
    | Ready(guess: string, stored: string, serial: nat, attempts: nat)

  datatype State = State(
    code: Option<Stored>,
    counter: Option<Counter>,
    clock: int,
    calls: map<nat, Call>,
    compares: seq<nat>,    // per stored code: how often it was compared
    accepts: seq<nat>)     // ... and accepted

  const EMPTY: State := State(None, None, 0, map[], [], [])

  predicate CodeLives(s: State) { s.code.Some? && s.clock < s.code.value.expires }

  function Attempts(s: State): nat {
    if s.counter.Some? && (s.counter.value.expires.None? || s.clock < s.counter.value.expires.value) then s.counter.value.n else 0
  }

  datatype Step =
    | Store(value: string)
    | Get(id: nat, guess: string)
    | Incr(id: nat)
    | Expire(id: nat)
    | Decide(id: nat, burned: bool)   // burned: the DEL, when one is issued, succeeds
    | Fail(id: nat)                   // the call returns an error
    | Tick(now: int)

  function Bump(counts: seq<nat>, i: nat): seq<nat> { if i < |counts| then counts[i := counts[i] + 1] else counts }

  function DecideCall(s: State, id: nat, burned: bool): State
    requires id in s.calls && s.calls[id].Ready?
  {
    var call, done := s.calls[id], s.(calls := s.calls - {id});
    var gone := done.(code := None, counter := None);
    if call.attempts > MAX_ATTEMPTS then
      if burned then gone else done
    else
      var compared := Bump(s.compares, call.serial);
      if call.stored != call.guess || !burned then done.(compares := compared)
      else gone.(compares := compared, accepts := Bump(s.accepts, call.serial))
  }

  function Apply(s: State, step: Step): State {
    match step
    case Store(value) =>
      s.(code := Some(Stored(value, |s.compares|, s.clock + TTL)), counter := None,
         compares := s.compares + [0], accepts := s.accepts + [0])
    case Get(id, guess) =>
      if id in s.calls || !CodeLives(s) || s.code.value.value == "" then s
      else s.(calls := s.calls[id := Read(guess, s.code.value.value, s.code.value.serial)])
    case Incr(id) =>
      if id in s.calls && s.calls[id].Read? then
        var call, n := s.calls[id], Attempts(s) + 1;
        if n == 1 then
          s.(counter := Some(Counter(1, None)), calls := s.calls[id := Counted(call.guess, call.stored, call.serial)])
        else
          s.(counter := Some(s.counter.value.(n := n)), calls := s.calls[id := Ready(call.guess, call.stored, call.serial, n)])
      else s
    case Expire(id) =>
      if id in s.calls && s.calls[id].Counted? then
        var call := s.calls[id];
        var r := s.(calls := s.calls[id := Ready(call.guess, call.stored, call.serial, 1)]);
        if Attempts(s) > 0 then r.(counter := Some(s.counter.value.(expires := Some(s.clock + TTL)))) else r
      else s
    case Decide(id, burned) => if id in s.calls && s.calls[id].Ready? then DecideCall(s, id, burned) else s
    case Fail(id) => s.(calls := s.calls - {id})
    case Tick(now) => if s.clock <= now then s.(clock := now) else s
  }

  function Run(s: State, steps: seq<Step>): State {
    if steps == [] then s else Apply(Run(s, steps[..|steps| - 1]), steps[|steps| - 1])
  }

  /** One call at a time on this phone. */
  predicate Sequential(s: State, step: Step) { step.Store? || step.Get? ==> s.calls == map[] }

  /** No time passes inside a call. */
  predicate Instant(s: State, step: Step) { step.Tick? ==> s.calls == map[] }

  predicate Last(s: State, serial: nat) { serial + 1 == |s.compares| == |s.accepts| }

  /** The attempts key counts at least the comparisons, and outlives the code. */
  predicate CounterCovers(s: State, spent: nat)
    requires s.code.Some?
  {
    if s.counter.None? then spent == 0
    else spent <= s.counter.value.n && (s.counter.value.expires.None? || s.code.value.expires <= s.counter.value.expires.value)
  }

  /** What a call in flight knows. */
  predicate CallOk(s: State, call: Call)
    requires s.code.Some? && s.code.value.serial < |s.compares|
  {
    var c, spent := s.code.value, s.compares[s.code.value.serial];
    && call.stored == c.value && call.serial == c.serial && spent <= MAX_ATTEMPTS
    && (match call
        case Read(_, _, _) => CodeLives(s) ==> CounterCovers(s, spent)
        case Counted(_, _, _) =>
          CodeLives(s) ==> spent == 0 && s.counter == Some(Counter(1, None))
        case Ready(_, _, _, n) => CodeLives(s) ==> spent < n && CounterCovers(s, spent + 1))
  }

  predicate CodeOk(s: State) {
    s.code.Some? ==>
      var c := s.code.value;
      && Last(s, c.serial) && s.accepts[c.serial] == 0 && c.expires <= s.clock + TTL
      && (s.calls == map[] && CodeLives(s) ==> s.compares[c.serial] <= MAX_ATTEMPTS && CounterCovers(s, s.compares[c.serial]))
      && (forall id <- s.calls :: CallOk(s, s.calls[id]))
  }

  predicate Bounded(s: State, strict: bool) {
    && |s.compares| == |s.accepts|
    && (forall k :: 0 <= k < |s.compares| ==> s.compares[k] <= if strict then MAX_ATTEMPTS else MAX_ATTEMPTS + 1)
    && (forall k :: 0 <= k < |s.accepts| ==> s.accepts[k] <= 1)
  }

  predicate Inv(s: State, strict: bool) {
    && Bounded(s, strict) && CodeOk(s)
    && (forall i <- s.calls, j <- s.calls :: i == j)
    && (s.calls != map[] ==> s.code.Some? && (strict ==> CodeLives(s)))
  }

  lemma GetKeeps(s: State, id: nat, guess: string, strict: bool)
    requires Inv(s, strict) && s.calls == map[]
    ensures Inv(Apply(s, Get(id, guess)), strict)
  {
  }

  lemma IncrKeeps(s: State, id: nat, strict: bool)
    requires Inv(s, strict)
    ensures Inv(Apply(s, Incr(id)), strict)
  {
  }

  lemma ExpireKeeps(s: State, id: nat, strict: bool)
    requires Inv(s, strict)
    ensures Inv(Apply(s, Expire(id)), strict)
  {
  }

  lemma DecideKeeps(s: State, id: nat, burned: bool, strict: bool)
    requires Inv(s, strict)
    ensures Inv(Apply(s, Decide(id, burned)), strict)
  {
  }

  lemma RestKeeps(s: State, step: Step, strict: bool)
    requires Inv(s, strict) && Sequential(s, step) && (strict ==> Instant(s, step)) && (step.Store? || step.Fail? || step.Tick?)
    ensures Inv(Apply(s, step), strict)
  {
  }

  /** Calls on the phone come one at a time if `sequential`, and none takes time
      if `instant`. */
  predicate Allowed(s: State, step: Step, sequential: bool, instant: bool) {
    (sequential ==> Sequential(s, step)) && (instant ==> Instant(s, step))
  }

  predicate Orderly(s: State, steps: seq<Step>, sequential: bool, instant: bool) {
    forall k :: 0 <= k < |steps| ==> Allowed(Run(s, steps[..k]), steps[k], sequential, instant)
  }

  lemma {:induction false} RunKeepsInv(s: State, steps: seq<Step>, strict: bool)
    requires Inv(s, strict) && Orderly(s, steps, true, strict)
    ensures Inv(Run(s, steps), strict)
  {
    if steps != [] {
      var n := |steps| - 1;
      forall k | 0 <= k < n ensures steps[..n][..k] == steps[..k] {}
      RunKeepsInv(s, steps[..n], strict);
      var t := Run(s, steps[..n]);
      match steps[n]
      case Get(id, guess) => GetKeeps(t, id, guess, strict);
      case Incr(id) => IncrKeeps(t, id, strict);
      case Expire(id) => ExpireKeeps(t, id, strict);
      case Decide(id, burned) => DecideKeeps(t, id, burned, strict);
      case _ => RestKeeps(t, steps[n], strict);
    }
  }

  /** No stored code is compared more than `most` times or accepted twice. */
  predicate Limits(s: State, most: nat) {
    && (forall k :: 0 <= k < |s.compares| ==> s.compares[k] <= most)
    && (forall k :: 0 <= k < |s.accepts| ==> s.accepts[k] <= 1)
  }

  /** The attempts key, while the code it counts for lives and has been compared. */
  predicate CounterOutlivesCode(s: State) {
    CodeLives(s) && s.code.value.serial < |s.compares| && s.compares[s.code.value.serial] > 0 ==>
      s.counter.Some? && (s.counter.value.expires.None? || s.code.value.expires <= s.counter.value.expires.value)
  }

  /** A call is decided only while the code it read still lives. */
  predicate Timely(s: State, step: Step) { step.Decide? && step.id in s.calls && s.calls[step.id].Ready? ==> CodeLives(s) }

  predicate TimelyRun(s: State, steps: seq<Step>) {
    forall k :: 0 <= k < |steps| ==> Sequential(Run(s, steps[..k]), steps[k]) && Timely(Run(s, steps[..k]), steps[k])
  }

  /** Deciding a call exceeds the five comparisons if and only if they are spent
      and the call nevertheless drew a number up to five. */
  lemma DecideExactly(s: State, id: nat, burned: bool)
    requires Inv(s, false) && Bounded(s, true) && id in s.calls && s.calls[id].Ready?
    ensures var call := s.calls[id];
            && call.serial < |s.compares|
            && (Bounded(Apply(s, Decide(id, burned)), true)
                <==> !(s.compares[call.serial] == MAX_ATTEMPTS && call.attempts <= MAX_ATTEMPTS))
  {
    var call, u := s.calls[id], Apply(s, Decide(id, burned));
    assert CallOk(s, call);
    DecideKeeps(s, id, burned, false);
    if call.attempts <= MAX_ATTEMPTS {
      assert u.compares == s.compares[call.serial := s.compares[call.serial] + 1];
      assert u.compares[call.serial] == s.compares[call.serial] + 1;
      assert s.compares[call.serial] <= MAX_ATTEMPTS;
    } else {
      assert u.compares == s.compares;
    }
  }

  lemma TimelyKeeps(s: State, step: Step)
    requires Inv(s, false) && Bounded(s, true) && Sequential(s, step) && Timely(s, step)
    ensures Inv(Apply(s, step), false) && Bounded(Apply(s, step), true)
  {
    match step
    case Get(id, guess) => GetKeeps(s, id, guess, false);
    case Incr(id) => IncrKeeps(s, id, false);
    case Expire(id) => ExpireKeeps(s, id, false);
    case Decide(id, burned) =>
      DecideKeeps(s, id, burned, false);
      if id in s.calls && s.calls[id].Ready? {
        assert CallOk(s, s.calls[id]);
        DecideExactly(s, id, burned);
      }
    case _ => RestKeeps(s, step, false);
  }

  lemma {:induction false} TimelyRunKeeps(s: State, steps: seq<Step>)
    requires Inv(s, false) && Bounded(s, true) && TimelyRun(s, steps)
    ensures Inv(Run(s, steps), false) && Bounded(Run(s, steps), true)
  {
    if steps != [] {
      var n := |steps| - 1;
      forall k | 0 <= k < n ensures steps[..n][..k] == steps[..k] {}
      TimelyRunKeeps(s, steps[..n]);
      TimelyKeeps(Run(s, steps[..n]), steps[n]);
    }
  }

  /** For sequential calls that may take time and may fail between any two
      commands, as long as each is decided while its code lives: every stored code
      is compared at most five times and accepted at most once, and the attempts
      key cannot expire before the code it counts for. */
  lemma AtMostFiveCompares(steps: seq<Step>)
    requires TimelyRun(EMPTY, steps)
    ensures Limits(Run(EMPTY, steps), 5) && CounterOutlivesCode(Run(EMPTY, steps))
  {
    TimelyRunKeeps(EMPTY, steps);
    var s := Run(EMPTY, steps);
    if id :| id in s.calls {
      assert s.code.Some? ==> CallOk(s, s.calls[id]);
    }
  }

  /** A call that straddles the code's expiry can add one comparison, never more,
      and never a second acceptance. */
  lemma AtMostSixCompares(steps: seq<Step>)
    requires Orderly(EMPTY, steps, true, false)
    ensures Limits(Run(EMPTY, steps), 6)
  {
    RunKeepsInv(EMPTY, steps, false);
  }

  // ---- what the assumptions are for -----------------------------------------------------------

  /** `steps` lead through exactly the states `path`, all of them allowed. */
  predicate Script(path: seq<State>, steps: seq<Step>, sequential: bool, instant: bool) {
    |path| == |steps| + 1 && forall k :: 0 <= k < |steps| ==> Link(path[k], steps[k], path[k + 1], sequential, instant)
  }

  predicate Link(s: State, step: Step, t: State, sequential: bool, instant: bool) {
    Allowed(s, step, sequential, instant) && Apply(s, step) == t
  }

  lemma {:induction false} RunScript(path: seq<State>, steps: seq<Step>, sequential: bool, instant: bool)
    requires Script(path, steps, sequential, instant)
    ensures Run(path[0], steps) == path[|steps|] && Orderly(path[0], steps, sequential, instant)
  {
    if steps != [] {
      var n := |steps| - 1;
      assert Link(path[n], steps[n], path[n + 1], sequential, instant);
      RunScript(path[..n + 1], steps[..n], sequential, instant);
      forall k | 0 <= k < |steps| ensures Allowed(Run(path[0], steps[..k]), steps[k], sequential, instant) {
        if k < n {
          assert steps[..n][..k] == steps[..k] && steps[..n][k] == steps[k];
        }
      }
    }
  }

  /** The code "1", stored at time 0 and already compared n times. */
  function Tried(n: nat, counter: Option<Counter>, clock: int, calls: map<nat, Call>): State {
    State(Some(Stored("1", 0, TTL)), counter, clock, calls, [n], [0])
  }

  function At(n: nat): State { Tried(n, if n == 0 then None else Some(Counter(n, Some(TTL))), 0, map[]) }

  lemma Join(p: seq<State>, a: seq<Step>, q: seq<State>, b: seq<Step>, sequential: bool, instant: bool)
    requires Script(p, a, sequential, instant) && Script(q, b, sequential, instant) && p[|a|] == q[0]
    ensures Script(p[..|a|] + q, a + b, sequential, instant)
  {
    var r, c := p[..|a|] + q, a + b;
    forall k | 0 <= k < |c| ensures Link(r[k], c[k], r[k + 1], sequential, instant) {
      if k < |a| {
        assert Link(p[k], a[k], p[k + 1], sequential, instant);
      } else {
        assert Link(q[k - |a|], b[k - |a|], q[k - |a| + 1], sequential, instant);
      }
    }
  }

  const FIRST: seq<Step> := [Store("1"), Get(0, "2"), Incr(0), Expire(0), Decide(0, true)]

  lemma FirstGuess()
    ensures Script([EMPTY, At(0), Tried(0, None, 0, map[0 := Read("2", "1", 0)]),
                    Tried(0, Some(Counter(1, None)), 0, map[0 := Counted("2", "1", 0)]),
                    Tried(0, Some(Counter(1, Some(TTL))), 0, map[0 := Ready("2", "1", 0, 1)]), At(1)], FIRST, true, false)
  {
    var s1, s2 := At(0), Tried(0, None, 0, map[0 := Read("2", "1", 0)]);
    var s3 := Tried(0, Some(Counter(1, None)), 0, map[0 := Counted("2", "1", 0)]);
    var s4 := Tried(0, Some(Counter(1, Some(TTL))), 0, map[0 := Ready("2", "1", 0, 1)]);
    assert Link(EMPTY, Store("1"), s1, true, false);
    assert Link(s1, Get(0, "2"), s2, true, false);
    assert Apply(s2, Incr(0)).calls == s3.calls;
    assert Link(s2, Incr(0), s3, true, false);
    assert Apply(s3, Expire(0)).calls == s4.calls;
    assert Link(s3, Expire(0), s4, true, false);
    assert Apply(s4, Decide(0, true)).calls == map[];
    assert Link(s4, Decide(0, true), At(1), true, false);
  }

  const GUESS: seq<Step> := [Get(0, "2"), Incr(0), Decide(0, true)]

  lemma OneGuess(n: nat) returns (path: seq<State>)
    requires 0 < n < MAX_ATTEMPTS
    ensures Script(path, GUESS, true, false) && path[0] == At(n) && path[3] == At(n + 1)
  {
    var s1 := Tried(n, Some(Counter(n, Some(TTL))), 0, map[0 := Read("2", "1", 0)]);
    var s2 := Tried(n, Some(Counter(n + 1, Some(TTL))), 0, map[0 := Ready("2", "1", 0, n + 1)]);
    assert Link(At(n), Get(0, "2"), s1, true, false);
    assert Apply(s1, Incr(0)).calls == s2.calls;
    assert Link(s1, Incr(0), s2, true, false);
    assert Apply(s2, Decide(0, true)).calls == map[];
    assert Link(s2, Decide(0, true), At(n + 1), true, false);
    path := [At(n), s1, s2, At(n + 1)];
  }

  lemma Guesses(n: nat) returns (path: seq<State>, steps: seq<Step>)
    requires 0 < n <= MAX_ATTEMPTS
    ensures Script(path, steps, true, false) && path[0] == EMPTY && path[|steps|] == At(n)
  {
    if n == 1 {
      FirstGuess();
      path := [EMPTY, At(0), Tried(0, None, 0, map[0 := Read("2", "1", 0)]),
               Tried(0, Some(Counter(1, None)), 0, map[0 := Counted("2", "1", 0)]),
               Tried(0, Some(Counter(1, Some(TTL))), 0, map[0 := Ready("2", "1", 0, 1)]), At(1)];
      steps := FIRST;
    } else {
      var p, a := Guesses(n - 1);
      var q := OneGuess(n - 1);
      Join(p, a, q, GUESS, true, false);
      path, steps := p[..|a|] + q, a + GUESS;
    }
  }

  const STRADDLE: seq<Step> := [Get(0, "2"), Tick(TTL), Incr(0), Expire(0), Decide(0, true)]

  lemma Straddle() returns (path: seq<State>)
    ensures Script(path, STRADDLE, true, false) && path[0] == At(5) && path[5].compares == [6]
  {
    var full := Some(Counter(5, Some(TTL)));
    var s1, s2 := Tried(5, full, 0, map[0 := Read("2", "1", 0)]), Tried(5, full, TTL, map[0 := Read("2", "1", 0)]);
    var s3 := Tried(5, Some(Counter(1, None)), TTL, map[0 := Counted("2", "1", 0)]);
    var s4 := Tried(5, Some(Counter(1, Some(2 * TTL))), TTL, map[0 := Ready("2", "1", 0, 1)]);
    var s5 := Tried(6, s4.counter, TTL, map[]);
    assert Link(At(5), Get(0, "2"), s1, true, false);
    assert Link(s1, Tick(TTL), s2, true, false);
    assert Apply(s2, Incr(0)).calls == s3.calls;
    assert Link(s2, Incr(0), s3, true, false);
    assert Apply(s3, Expire(0)).calls == s4.calls;
    assert Link(s3, Expire(0), s4, true, false);
    assert Apply(s4, Decide(0, true)).calls == s5.calls;
    assert Link(s4, Decide(0, true), s5, true, false);
    path := [At(5), s1, s2, s3, s4, s5];
  }

  /** The sixth comparison exists: read just before the expiry, counted just
      after it, by a counter that has expired too. */
  lemma StraddlingCallComparesASixthTime()
    ensures exists steps :: Orderly(EMPTY, steps, true, false) && Run(EMPTY, steps).compares == [6]
  {
    var p, a := Guesses(5);
    var q := Straddle();
    Join(p, a, q, STRADDLE, true, false);
    RunScript(p[..|a|] + q, a + STRADDLE, true, false);
  }

  function BothRead(): State { Tried(0, None, 0, map[0 := Read("1", "1", 0), 1 := Read("1", "1", 0)]) }

  function BothReady(): State {
    Tried(0, Some(Counter(2, Some(TTL))), 0, map[0 := Ready("1", "1", 0, 1), 1 := Ready("1", "1", 0, 2)])
  }

  lemma Reading() returns (path: seq<State>)
    ensures Script(path, [Store("1"), Get(0, "1"), Get(1, "1")], false, true) && path[0] == EMPTY && path[3] == BothRead()
  {
    var s1, s2 := At(0), Tried(0, None, 0, map[0 := Read("1", "1", 0)]);
    assert Link(EMPTY, Store("1"), s1, false, true);
    assert Link(s1, Get(0, "1"), s2, false, true);
    assert Apply(s2, Get(1, "1")).calls == BothRead().calls;
    assert Link(s2, Get(1, "1"), BothRead(), false, true);
    path := [EMPTY, s1, s2, BothRead()];
  }

  lemma Counting() returns (path: seq<State>)
    ensures Script(path, [Incr(0), Expire(0), Incr(1)], false, true) && path[0] == BothRead() && path[3] == BothReady()
  {
    var s1 := Tried(0, Some(Counter(1, None)), 0, map[0 := Counted("1", "1", 0), 1 := Read("1", "1", 0)]);
    var s2 := Tried(0, Some(Counter(1, Some(TTL))), 0, map[0 := Ready("1", "1", 0, 1), 1 := Read("1", "1", 0)]);
    assert Apply(BothRead(), Incr(0)).calls == s1.calls;
    assert Link(BothRead(), Incr(0), s1, false, true);
    assert Apply(s1, Expire(0)).calls == s2.calls;
    assert Link(s1, Expire(0), s2, false, true);
    assert Apply(s2, Incr(1)).calls == BothReady().calls;
    assert Link(s2, Incr(1), BothReady(), false, true);
    path := [BothRead(), s1, s2, BothReady()];
  }

  lemma Deciding() returns (path: seq<State>)
    ensures Script(path, [Decide(0, true), Decide(1, true)], false, true) && path[0] == BothReady() && path[2].accepts == [2]
  {
    var s1 := State(None, None, 0, map[1 := Ready("1", "1", 0, 2)], [1], [1]);
    var s2 := State(None, None, 0, map[], [2], [2]);
    assert Apply(BothReady(), Decide(0, true)).calls == s1.calls;
    assert Link(BothReady(), Decide(0, true), s1, false, true);
    assert Apply(s1, Decide(1, true)).calls == s2.calls;
    assert Link(s1, Decide(1, true), s2, false, true);
    path := [BothReady(), s1, s2];
  }

  /** Two overlapping calls that both read the code before either burns it are
      both accepted: once-only needs the calls to be sequential. */
  lemma OverlappingCallsAcceptTwice()
    ensures exists steps :: Orderly(EMPTY, steps, false, true) && Run(EMPTY, steps).accepts == [2]
  {
    var a, b := [Store("1"), Get(0, "1"), Get(1, "1")], [Incr(0), Expire(0), Incr(1)];
    var c := [Decide(0, true), Decide(1, true)];
    var p := Reading();
    var q := Counting();
    Join(p, a, q, b, false, true);
    var r := Deciding();
    Join(p[..3] + q, a + b, r, c, false, true);
    RunScript((p[..3] + q)[..6] + r, a + b + c, false, true);
  }

  // ---- exactly when a sixth comparison is possible ------------------------------------------------

  lemma RunMore(s: State, steps: seq<Step>, step: Step, sequential: bool, instant: bool)
    ensures Run(s, steps + [step]) == Apply(Run(s, steps), step)
    ensures Orderly(s, steps, sequential, instant) && Allowed(Run(s, steps), step, sequential, instant) ==>
      Orderly(s, steps + [step], sequential, instant)
  {
    var more := steps + [step];
    assert more[..|steps|] == steps;
    if Orderly(s, steps, sequential, instant) && Allowed(Run(s, steps), step, sequential, instant) {
      forall k | 0 <= k < |more| ensures Allowed(Run(s, more[..k]), more[k], sequential, instant) {
        if k < |steps| {
          assert more[..k] == steps[..k];
        }
      }
    }
  }

  /** Code `k` has used its five comparisons and its attempts key never expires. */
  predicate Spent(s: State, k: nat) {
    && k < |s.compares| && s.compares[k] == MAX_ATTEMPTS
    && (s.code.Some? && s.code.value.serial == k && s.code.value.value != "" ==>
         s.counter.Some? && s.counter.value.expires.None? && s.counter.value.n >= MAX_ATTEMPTS)
    && (forall id <- s.calls :: s.calls[id].serial == k ==>
         s.code.Some? && s.code.value.value != "" && !s.calls[id].Counted? && (s.calls[id].Ready? ==> s.calls[id].attempts > MAX_ATTEMPTS))
  }

  lemma SpentStays(s: State, step: Step, k: nat)
    requires Inv(s, false) && Spent(s, k) && Sequential(s, step)
    ensures Spent(Apply(s, step), k)
  {
  }

  lemma {:induction false} SpentForGood(s: State, steps: seq<Step>, k: nat)
    requires Inv(s, false) && Spent(s, k) && Orderly(s, steps, true, false)
    ensures Spent(Run(s, steps), k)
  {
    if steps != [] {
      var n := |steps| - 1;
      forall j | 0 <= j < n ensures Allowed(Run(s, steps[..n][..j]), steps[..n][j], true, false) {
        assert steps[..n][..j] == steps[..j];
      }
      SpentForGood(s, steps[..n], k);
      RunKeepsInv(s, steps[..n], false);
      SpentStays(Run(s, steps[..n]), steps[n], k);
    }
  }

  /** A code all of whose comparisons are used up, and nothing in flight. */
  predicate UsedUp(s: State) {
    && Inv(s, false) && s.calls == map[] && CodeLives(s)
    && s.code.value.serial < |s.compares| && s.compares[s.code.value.serial] == MAX_ATTEMPTS
  }

  lemma CountedLate(s: State, call: Call)
    requires call.Read? && s.calls == map[0 := call] && call.serial < |s.compares| && Attempts(s) == 0
    ensures var u := Apply(s, Incr(0));
            && u.calls == map[0 := Counted(call.guess, call.stored, call.serial)] && u.counter == Some(Counter(1, None))
            && u.compares == s.compares
  {
  }

  lemma DecidedLate(s: State, guess: string, stored: string, serial: nat)
    requires s.calls == map[0 := Counted(guess, stored, serial)] && serial < |s.compares|
    ensures Apply(Apply(s, Expire(0)), Decide(0, false)).compares == s.compares[serial := s.compares[serial] + 1]
  {
  }

  /** The straddling call: read while the code lives, counted when both keys are gone. */
  lemma Straddling(s: State) returns (steps: seq<Step>)
    requires UsedUp(s) && s.code.value.value != "" && s.counter.Some? && s.counter.value.expires.Some?
    ensures Orderly(s, steps, true, false) && Run(s, steps).compares == s.compares[s.code.value.serial := MAX_ATTEMPTS + 1]
  {
    var c := s.code.value;
    steps := Waiting(s);
    CountedLate(Run(s, steps), Read("", c.value, c.serial));
    RunMore(s, steps, Incr(0), true, false);
    steps := steps + [Incr(0)];
    DecidedLate(Run(s, steps), "", c.value, c.serial);
    RunMore(s, steps, Expire(0), true, false);
    steps := steps + [Expire(0)];
    RunMore(s, steps, Decide(0, false), true, false);
    steps := steps + [Decide(0, false)];
  }

  lemma Waiting(s: State) returns (steps: seq<Step>)
    requires UsedUp(s) && s.code.value.value != "" && s.counter.Some? && s.counter.value.expires.Some?
    ensures var u, c := Run(s, steps), s.code.value;
            && Orderly(s, steps, true, false) && u.calls == map[0 := Read("", c.value, c.serial)]
            && u.compares == s.compares && Attempts(u) == 0
  {
    var late := if s.code.value.expires < s.counter.value.expires.value then s.counter.value.expires.value else s.code.value.expires;
    ReadAndWait(s, late);
    RunMore(s, [], Get(0, ""), true, false);
    RunMore(s, [] + [Get(0, "")], Tick(late), true, false);
    steps := [] + [Get(0, "")] + [Tick(late)];
  }

  lemma ReadAndWait(s: State, late: int)
    requires s.calls == map[] && CodeLives(s) && s.code.value.value != "" && s.clock <= late
    ensures Apply(Apply(s, Get(0, "")), Tick(late))
         == s.(clock := late, calls := map[0 := Read("", s.code.value.value, s.code.value.serial)])
  {
    assert Apply(s, Get(0, "")).calls == map[0 := Read("", s.code.value.value, s.code.value.serial)];
  }

  predicate ComparedAgain(s: State, steps: seq<Step>, k: nat) {
    Orderly(s, steps, true, false) && k < |Run(s, steps).compares| && Run(s, steps).compares[k] > MAX_ATTEMPTS
  }

  /** A code whose five comparisons are used up can be compared a sixth time if
      and only if its attempts key has an expiry for a call to outlast; it has none
      exactly while the EXPIRE after the first INCR never ran. */
  lemma SixthCompareExactly(s: State)
    requires UsedUp(s)
    ensures s.counter.Some?
    ensures (exists steps :: ComparedAgain(s, steps, s.code.value.serial))
            <==> s.code.value.value != "" && s.counter.value.expires.Some?
  {
    var k := s.code.value.serial;
    if s.code.value.value != "" && s.counter.value.expires.Some? {
      var steps := Straddling(s);
      assert ComparedAgain(s, steps, k);
    } else {
      NoSixth(s);
    }
  }

  lemma NoSixth(s: State)
    requires UsedUp(s) && s.counter.Some? && !(s.code.value.value != "" && s.counter.value.expires.Some?)
    ensures forall steps :: !ComparedAgain(s, steps, s.code.value.serial)
  {
    forall steps: seq<Step> ensures !ComparedAgain(s, steps, s.code.value.serial) {
      if Orderly(s, steps, true, false) {
        SpentForGood(s, steps, s.code.value.serial);
      }
    }
  }

  // ---- exactly when an overlap accepts twice -------------------------------------------------------

  /** Counts exist for every code that is stored or in flight. */
  predicate Sane(s: State) {
    && |s.compares| == |s.accepts| && (s.code.Some? ==> s.code.value.serial < |s.accepts|)
    && (forall id <- s.calls :: s.calls[id].serial < |s.accepts|)
  }

  lemma {:induction false} RunIsSane(steps: seq<Step>)
    ensures Sane(Run(EMPTY, steps))
  {
    if steps != [] {
      RunIsSane(steps[..|steps| - 1]);
      StepKeepsSane(Run(EMPTY, steps[..|steps| - 1]), steps[|steps| - 1]);
    }
  }

  lemma StepKeepsSane(s: State, step: Step)
    requires Sane(s)
    ensures Sane(Apply(s, step))
  {
  }

  /** A call that has read code `k`, guesses right and is not past the limit. */
  predicate Winning(call: Call, k: nat) {
    call.serial == k && call.stored == call.guess && (call.Ready? ==> call.attempts <= MAX_ATTEMPTS)
  }

  predicate Gone(s: State, k: nat) { s.code.None? || s.code.value.serial != k }

  predicate SomeWinning(s: State, k: nat) { exists id <- s.calls :: Winning(s.calls[id], k) }

  lemma NobodyWins(s: State, step: Step, k: nat)
    requires Sane(s) && Gone(s, k) && k < |s.accepts| && !SomeWinning(s, k)
    ensures var u := Apply(s, step);
            Sane(u) && Gone(u, k) && k < |u.accepts| && !SomeWinning(u, k) && u.accepts[k] == s.accepts[k]
  {
    var u := Apply(s, step);
    forall id <- u.calls ensures !Winning(u.calls[id], k) {
      assert id in s.calls ==> !Winning(s.calls[id], k);
    }
  }

  lemma {:induction false} NobodyEverWins(s: State, steps: seq<Step>, k: nat)
    requires Sane(s) && Gone(s, k) && k < |s.accepts| && !SomeWinning(s, k)
    ensures var u := Run(s, steps);
            Sane(u) && Gone(u, k) && k < |u.accepts| && !SomeWinning(u, k) && u.accepts[k] == s.accepts[k]
  {
    if steps != [] {
      NobodyEverWins(s, steps[..|steps| - 1], k);
      NobodyWins(Run(s, steps[..|steps| - 1]), steps[|steps| - 1], k);
    }
  }

  lemma ReadyWins(s: State, id: nat, k: nat)
    requires Sane(s) && id in s.calls && Winning(s.calls[id], k) && s.calls[id].Ready?
    ensures Apply(s, Decide(id, true)).accepts == s.accepts[k := s.accepts[k] + 1]
  {
  }

  lemma CountedWins(s: State, id: nat, k: nat)
    requires Sane(s) && id in s.calls && Winning(s.calls[id], k) && s.calls[id].Counted?
    ensures Apply(Apply(s, Expire(id)), Decide(id, true)).accepts == s.accepts[k := s.accepts[k] + 1]
  {
    var u := Apply(s, Expire(id));
    ReadyWins(u, id, k);
  }

  lemma ReadWins(s: State, id: nat, k: nat)
    requires Sane(s) && id in s.calls && Winning(s.calls[id], k) && s.calls[id].Read?
    ensures var u := Apply(Apply(s, Store("1")), Incr(id));
            Apply(Apply(u, Expire(id)), Decide(id, true)).accepts == (s.accepts + [0])[k := s.accepts[k] + 1]
  {
    var u := Apply(Apply(s, Store("1")), Incr(id));
    CountedWins(u, id, k);
  }

  lemma WinnerWins(s: State, id: nat, k: nat) returns (steps: seq<Step>)
    requires Sane(s) && id in s.calls && Winning(s.calls[id], k)
    ensures k < |Run(s, steps).accepts| && Run(s, steps).accepts[k] == s.accepts[k] + 1
  {
    steps := [];
    if s.calls[id].Read? {
      ReadWins(s, id, k);
      RunMore(s, [], Store("1"), false, false);
      RunMore(s, [] + [Store("1")], Incr(id), false, false);
      steps := [] + [Store("1")] + [Incr(id)];
    }
    if !s.calls[id].Ready? {
      if s.calls[id].Counted? {
        CountedWins(s, id, k);
      }
      RunMore(s, steps, Expire(id), false, false);
      steps := steps + [Expire(id)];
    } else {
      ReadyWins(s, id, k);
    }
    RunMore(s, steps, Decide(id, true), false, false);
    steps := steps + [Decide(id, true)];
  }

  /** Once a code is gone it is accepted again, on some continuation, if and only
      if a call still in flight has read it, guesses right and is not past the limit. */
  lemma AcceptedAgainExactly(s: State, k: nat)
    requires Sane(s) && Gone(s, k) && k < |s.accepts|
    ensures (exists steps :: k < |Run(s, steps).accepts| && Run(s, steps).accepts[k] > s.accepts[k]) <==> SomeWinning(s, k)
  {
    if id :| id in s.calls && Winning(s.calls[id], k) {
      var steps := WinnerWins(s, id, k);
    } else {
      forall steps: seq<Step> ensures !(k < |Run(s, steps).accepts| && Run(s, steps).accepts[k] > s.accepts[k]) {
        NobodyEverWins(s, steps, k);
      }
    }
  }

  /** So the overlaps that accept a code twice are exactly those in which, when one
      call is accepted, another right guess had already read the code. */
  lemma SecondAcceptanceExactly(s: State, id: nat, k: nat)
    requires Sane(s) && id in s.calls && Winning(s.calls[id], k) && s.calls[id].Ready?
    ensures var u := Apply(s, Decide(id, true));
            && k < |u.accepts| && u.accepts[k] == s.accepts[k] + 1
            && ((exists steps :: k < |Run(u, steps).accepts| && Run(u, steps).accepts[k] > u.accepts[k])
                <==> exists other <- s.calls :: other != id && Winning(s.calls[other], k))
  {
    var u := Apply(s, Decide(id, true));
    ReadyWins(s, id, k);
    assert u.calls == s.calls - {id} && u.code.None?;
    AcceptedAgainExactly(u, k);
    if other :| other in s.calls && other != id && Winning(s.calls[other], k) {
      assert other in u.calls;
    }
  }

  // ---- overlapping calls, counted --------------------------------------------------------------------

  /** Calls that have drawn one of the first five numbers for code `k` and not used it. */
  function Drawn(calls: map<nat, Call>, k: nat): set<nat> {
    set id <- calls | calls[id].serial == k && (calls[id].Counted? || (calls[id].Ready? && calls[id].attempts <= MAX_ATTEMPTS))
  }

  /** Whatever overlaps, the comparisons made and still owed to drawn numbers are
      within five and within the attempts counted. */
  predicate DrawsOk(s: State) {
    && Sane(s) && (forall k :: 0 <= k < |s.compares| ==> s.compares[k] <= MAX_ATTEMPTS)
    && (s.code.Some? ==> s.code.value.serial + 1 == |s.compares| && s.code.value.expires <= s.clock + TTL)
    && (CodeLives(s) ==>
         var spent := s.compares[s.code.value.serial] + |Drawn(s.calls, s.code.value.serial)|;
         spent <= MAX_ATTEMPTS && CounterCovers(s, spent))
  }

  /** A call is decided only while the very code it read still lives. */
  predicate TimelyCall(s: State, step: Step) {
    step.Decide? && step.id in s.calls && s.calls[step.id].Ready? ==>
      CodeLives(s) && s.code.value.serial == s.calls[step.id].serial
  }

  lemma OneCallChanges(calls: map<nat, Call>, id: nat, call: Call, k: nat)
    ensures var one := if call.serial == k && (call.Counted? || (call.Ready? && call.attempts <= MAX_ATTEMPTS)) then {id} else {};
            Drawn(calls[id := call], k) == Drawn(calls, k) - {id} + one
    ensures Drawn(calls - {id}, k) == Drawn(calls, k) - {id}
  {
  }

  lemma IncrKeepsDraws(s: State, id: nat)
    requires DrawsOk(s) && id in s.calls && s.calls[id].Read?
    ensures DrawsOk(Apply(s, Incr(id)))
  {
    var u := Apply(s, Incr(id));
    if CodeLives(s) {
      OneCallChanges(s.calls, id, u.calls[id], s.code.value.serial);
      assert id !in Drawn(s.calls, s.code.value.serial);
    }
  }

  lemma ExpireKeepsDraws(s: State, id: nat)
    requires DrawsOk(s) && id in s.calls && s.calls[id].Counted?
    ensures DrawsOk(Apply(s, Expire(id)))
  {
    var u := Apply(s, Expire(id));
    if CodeLives(s) {
      var k := s.code.value.serial;
      OneCallChanges(s.calls, id, u.calls[id], k);
      assert Drawn(u.calls, k) == Drawn(s.calls, k);
    }
  }

  lemma DecideKeepsDraws(s: State, id: nat, burned: bool)
    requires DrawsOk(s) && id in s.calls && s.calls[id].Ready? && TimelyCall(s, Decide(id, burned))
    ensures DrawsOk(Apply(s, Decide(id, burned)))
  {
    var u, k := Apply(s, Decide(id, burned)), s.code.value.serial;
    OneCallChanges(s.calls, id, s.calls[id], k);
    if s.calls[id].attempts <= MAX_ATTEMPTS {
      assert id in Drawn(s.calls, k);
    } else {
      assert id !in Drawn(s.calls, k);
    }
  }

  lemma FailKeepsDraws(s: State, id: nat)
    requires DrawsOk(s)
    ensures DrawsOk(Apply(s, Fail(id)))
  {
    if CodeLives(s) {
      var k := s.code.value.serial;
      OneCallChanges(s.calls, id, Read("", "", 0), k);
      if id in Drawn(s.calls, k) {
        assert |Drawn(s.calls, k) - {id}| == |Drawn(s.calls, k)| - 1;
      }
    }
  }

  lemma GetKeepsDraws(s: State, id: nat, guess: string)
    requires DrawsOk(s)
    ensures DrawsOk(Apply(s, Get(id, guess)))
  {
    var u := Apply(s, Get(id, guess));
    if CodeLives(s) && u != s {
      var k := s.code.value.serial;
      OneCallChanges(s.calls, id, u.calls[id], k);
      assert Drawn(u.calls, k) == Drawn(s.calls, k);
    }
  }

  lemma StoreKeepsDraws(s: State, step: Step)
    requires DrawsOk(s) && (step.Store? || step.Tick?)
    ensures DrawsOk(Apply(s, step))
  {
    var u := Apply(s, step);
    if step.Store? {
      assert Drawn(u.calls, |s.compares|) == {};
    }
  }

  lemma StepKeepsDraws(s: State, step: Step)
    requires DrawsOk(s) && TimelyCall(s, step)
    ensures DrawsOk(Apply(s, step))
  {
    match step
    case Get(id, guess) => GetKeepsDraws(s, id, guess);
    case Incr(id) => if id in s.calls && s.calls[id].Read? { IncrKeepsDraws(s, id); }
    case Expire(id) => if id in s.calls && s.calls[id].Counted? { ExpireKeepsDraws(s, id); }
    case Decide(id, burned) => if id in s.calls && s.calls[id].Ready? { DecideKeepsDraws(s, id, burned); }
    case Fail(id) => FailKeepsDraws(s, id);
    case Store(_) => StoreKeepsDraws(s, step);
    case Tick(_) => StoreKeepsDraws(s, step);
  }

  /** However many calls overlap, with each other or with a new code: as long as each
      is decided while the code it read lives, no code is compared more than five
      times. */
  lemma {:induction false} AtMostFiveDespiteOverlap(steps: seq<Step>)
    requires forall k :: 0 <= k < |steps| ==> TimelyCall(Run(EMPTY, steps[..k]), steps[k])
    ensures DrawsOk(Run(EMPTY, steps))
    ensures forall k :: 0 <= k < |Run(EMPTY, steps).compares| ==> Run(EMPTY, steps).compares[k] <= 5
  {
    if steps != [] {
      var n := |steps| - 1;
      forall k | 0 <= k < n ensures TimelyCall(Run(EMPTY, steps[..n][..k]), steps[..n][k]) {
        assert steps[..n][..k] == steps[..k];
      }
      AtMostFiveDespiteOverlap(steps[..n]);
      StepKeepsDraws(Run(EMPTY, steps[..n]), steps[n]);
    }
  }

  /** A stored code lives for exactly five minutes, with no attempt counted against it. */
  lemma LivesFiveMinutes(s: State, value: string, now: int)
    requires s.clock <= now
    ensures var stored := Apply(s, Store(value));
            && CodeLives(stored) && stored.code.value.value == value && Attempts(stored) == 0
            && (CodeLives(Apply(stored, Tick(now))) <==> now < s.clock + 300)
  {
  }

  // ---- the service ----------------------------------------------------------------------------

  /** The four commands of an undisturbed verification. */
  function Verification(s: State, guess: string, burned: bool): State {
    Apply(Apply(Apply(Apply(s, Get(0, guess)), Incr(0)), Expire(0)), Decide(0, burned))
  }

  function OneMoreAttempt(s: State): Counter {
    if Attempts(s) == 0 then Counter(1, Some(s.clock + TTL)) else s.counter.value.(n := s.counter.value.n + 1)
  }

  /** What those commands amount to. */
  function Verified(s: State, guess: string, burned: bool): State {
    if !CodeLives(s) || s.code.value.value == "" then s
    else
      var counted := s.(counter := Some(OneMoreAttempt(s)));
      if Attempts(s) >= MAX_ATTEMPTS then
        if burned then s.(code := None, counter := None) else counted
      else
        var compared := counted.(compares := Bump(s.compares, s.code.value.serial));
        if s.code.value.value != guess || !burned then compared
        else compared.(code := None, counter := None, accepts := Bump(s.accepts, s.code.value.serial))
  }

  /** The state in which the call is about to be decided. */
  function AboutToDecide(s: State, guess: string): State
    requires CodeLives(s)
  {
    s.(counter := Some(OneMoreAttempt(s)), calls := map[0 := Ready(guess, s.code.value.value, s.code.value.serial, Attempts(s) + 1)])
  }

  lemma CountedFirst(s: State, guess: string)
    requires s.calls == map[] && CodeLives(s) && s.code.value.value != ""
    ensures Apply(Apply(Apply(s, Get(0, guess)), Incr(0)), Expire(0)) == AboutToDecide(s, guess)
  {
    var s1 := Apply(s, Get(0, guess));
    assert s1.calls == map[0 := Read(guess, s.code.value.value, s.code.value.serial)];
    var s2 := Apply(s1, Incr(0));
    if Attempts(s) == 0 {
      assert s2.calls == map[0 := Counted(guess, s.code.value.value, s.code.value.serial)];
      assert Apply(s2, Expire(0)).calls == AboutToDecide(s, guess).calls;
    } else {
      assert s2.calls == AboutToDecide(s, guess).calls;
    }
  }

  lemma VerificationIs(s: State, guess: string, burned: bool)
    requires s.calls == map[]
    ensures Verification(s, guess, burned) == Verified(s, guess, burned)
  {
    if CodeLives(s) && s.code.value.value != "" {
      CountedFirst(s, guess);
      var t := AboutToDecide(s, guess);
      assert t.calls - {0} == map[];
    }
  }

  lemma VerificationKeeps(s: State, guess: string, burned: bool)
    requires Inv(s, true) && s.calls == map[]
    ensures Inv(Verification(s, guess, burned), true)
  {
    GetKeeps(s, 0, guess, true);
    var s1 := Apply(s, Get(0, guess));
    IncrKeeps(s1, 0, true);
    ExpireKeeps(Apply(s1, Incr(0)), 0, true);
    DecideKeeps(Apply(Apply(s1, Incr(0)), Expire(0)), 0, burned, true);
  }

  lemma VerifiedKeeps(s: State, guess: string, burned: bool)
    requires Inv(s, true) && s.calls == map[]
    ensures Inv(Verified(s, guess, burned), true)
  {
    VerificationIs(s, guess, burned);
    VerificationKeeps(s, guess, burned);
  }

  /** Redis as the service sees it, and one call at a time. */
  class OtpService {
    var code: Option<Stored>
    var counter: Option<Counter>
    var clock: int
    var stores: nat
    ghost var compares: seq<nat>
    ghost var accepts: seq<nat>

    ghost function View(): State
      reads this
    {
      State(code, counter, clock, map[], compares, accepts)
    }

    ghost predicate Valid()
      reads this
    {
      stores == |compares| && Inv(View(), true) && (counter.Some? ==> counter.value.n > 0)
    }

    constructor ()
      ensures Valid() && View() == EMPTY
    {
      code, counter, clock, stores, compares, accepts := None, None, 0, 0, [], [];
    }

    /** SET with expiry and DEL of the attempts key, in one MULTI. */
    method StoreCode(value: string)
      requires Valid()
      modifies this
      ensures Valid() && View() == Apply(old(View()), Store(value))
    {
      code, counter := Some(Stored(value, stores, clock + TTL)), None;
      stores, compares, accepts := stores + 1, compares + [0], accepts + [0];
    }

    /** INCR: an absent or expired key starts again from one, without expiry. */
    method IncrAttempts() returns (n: nat)
      requires Valid()
      modifies this`counter
      ensures n == Attempts(old(View())) + 1
      ensures counter.Some? && counter.value.n == n
      ensures counter.value.expires == if Attempts(old(View())) == 0 then None else old(counter).value.expires
    {
      if counter.Some? && (counter.value.expires.None? || clock < counter.value.expires.value) {
        n := counter.value.n + 1;
        counter := Some(counter.value.(n := n));
      } else {
        n := 1;
        counter := Some(Counter(1, None));
      }
    }

    /** A guess is accepted exactly when it is the live code, fewer than five
        attempts came before and the burn succeeds; the sixth attempt kills the
        code even when it is right. */
    method Verify(guess: string, burnOk: bool) returns (ok: bool)
      requires Valid()
      modifies this
      ensures Valid() && View() == Verified(old(View()), guess, burnOk)
      ensures ok <==>
        && old(CodeLives(View())) && old(code).value.value == guess != ""
        && Attempts(old(View())) < 5 && burnOk
      ensures ok ==> code.None? && counter.None?
      ensures old(CodeLives(View())) && old(code).value.value != "" && Attempts(old(View())) >= MAX_ATTEMPTS && burnOk ==>
        code.None? && !ok
    {
      VerifiedKeeps(View(), guess, burnOk);
      if code.None? || code.value.expires <= clock || code.value.value == "" {
        return false;
      }
      var stored := code.value.value;
      var attempts := IncrAttempts();
      if attempts == 1 {
        counter := Some(counter.value.(expires := Some(clock + TTL)));
      }
      if attempts > MAX_ATTEMPTS {
        if burnOk {
          code, counter := None, None;
        }
        return false;
      }
      compares := Bump(compares, code.value.serial);
      ok := stored == guess && burnOk;
      if ok {
        accepts := Bump(accepts, code.value.serial);
        code, counter := None, None;
      }
    }
  }
}
