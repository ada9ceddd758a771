/** The in-memory throttler: a counter per key, decayed by one timer per hit,
    with a block and a generation number standing in for a sliding-window log.
    Times are nanoseconds on one clock. */
module Throttle {
  import opened Common

  const SECOND: int := 1_000_000_000

  datatype Config = Config(limit: int, window: int)

  datatype Record = Record(hits: int, expiresAt: int, blockExpiresAt: int, blocked: bool, gen: nat)

  /** A pending decay timer: it fires at `due` or later, for one generation. */
  datatype Timer = Timer(due: int, gen: nat)

  /** One key: its record, if any, and its pending timers. */
  datatype Bucket = Bucket(record: Option<Record>, timers: seq<Timer>)

  datatype Reply = Reply(totalHits: int, timeToExpire: int, timeToBlockExpire: int, blocked: bool)

  /** Whole seconds left, rounded up; never negative. */
  function SecondsUntil(at: int, now: int): (s: int)
    ensures 0 <= s && (s == 0 <==> at <= now)
    ensures now < at ==> (s - 1) * SECOND < at - now <= s * SECOND
  {
    if at <= now then 0 else (at - now + SECOND - 1) / SECOND
  }

  /** The record a request finds or creates, with its window refreshed. */
  function Found(c: Config, b: Bucket, read: int): Record {
    var r := if b.record.Some? then b.record.value else Record(0, read + c.window, 0, false, 0);
    if SecondsUntil(r.expiresAt, read) <= 0 then r.(expiresAt := read + c.window) else r
  }

  /** One request: the clock is read before the lock is taken, and every field of
      the record comes from that reading; a timer starts when it is scheduled, at
      `at`, under the lock. */
  function Increment(c: Config, b: Bucket, read: int, at: int): (Bucket, Reply) {
    var r := Found(c, b, read);
    var left := SecondsUntil(r.expiresAt, read);
    var counted := if r.blocked then r else r.(hits := r.hits + 1);
    var timers := if r.blocked then b.timers else b.timers + [Timer(at + c.window, r.gen)];
    var limited :=
      if counted.hits > c.limit && !counted.blocked then counted.(blocked := true, blockExpiresAt := read + c.window)
      else counted;
    var blockLeft := SecondsUntil(limited.blockExpiresAt, read);
    if blockLeft <= 0 && limited.blocked then
      (Bucket(Some(limited.(blocked := false, hits := 1, gen := limited.gen + 1)),
              timers + [Timer(at + c.window, limited.gen + 1)]),
       Reply(1, left, blockLeft, false))
    else
      (Bucket(Some(limited), timers), Reply(limited.hits, left, blockLeft, limited.blocked))
  }

  /** Pending timer `i` runs. */
  function Fire(b: Bucket, i: nat, now: int): Bucket
    requires i < |b.timers|
  {
    var timers := Without(b.timers, i);
    if b.record.None? || b.record.value.gen != b.timers[i].gen then Bucket(b.record, timers)
    else
      var r := b.record.value;
      var decayed := if r.hits > 0 then r.(hits := r.hits - 1) else r;
      if decayed.hits == 0 && (!decayed.blocked || decayed.blockExpiresAt <= now) then Bucket(None, timers)
      else Bucket(Some(decayed), timers)
  }

  // ---- the sliding-window log it stands for ---------------------------------------

  /** A bucket with its history: when requests were admitted, when the current
      generation began, and the latest instant seen. */
  datatype Traced = Traced(bucket: Bucket, admitted: seq<int>, since: int, now: int)

  datatype Act = Request(read: int, at: int) | Decay(timer: nat, at: int)

  /** What the runtime guarantees: a timer runs less than `late` after its due time,
      and a request gets the lock at most `skew` after it read the clock. */
  datatype Env = Env(late: int, skew: nat)

  /** The lock is taken at ever later instants, a timer runs at its due time or
      later, and the guarantees of the runtime hold. */
  predicate Enabled(e: Env, x: Traced, act: Act) {
    && x.now <= act.at
    && (forall t <- x.bucket.timers :: act.at < t.due + e.late)
    && (act.Request? ==> 0 <= act.read <= act.at <= act.read + e.skew)
    && (act.Decay? ==> act.timer < |x.bucket.timers| && x.bucket.timers[act.timer].due <= act.at)
  }

  function Apply(c: Config, x: Traced, act: Act): Traced
    requires act.Decay? ==> act.timer < |x.bucket.timers|
  {
    match act
    case Request(read, at) =>
      var (b, reply) := Increment(c, x.bucket, read, at);
      Traced(b, if reply.blocked then x.admitted else x.admitted + [at],
             if x.bucket.record.None? || b.record.value.gen != x.bucket.record.value.gen then at else x.since, at)
    case Decay(i, at) => x.(bucket := Fire(x.bucket, i, at), now := at)
  }

  ghost predicate ValidRun(c: Config, e: Env, x: Traced, acts: seq<Act>)
    decreases |acts|
  {
    acts == [] ||
    (Enabled(e, x, acts[0]) && ValidRun(c, e, Apply(c, x, acts[0]), acts[1..]))
  }

  function Run(c: Config, e: Env, x: Traced, acts: seq<Act>): Traced
    requires ValidRun(c, e, x, acts)
    decreases |acts|
  {
    if acts == [] then x else Run(c, e, Apply(c, x, acts[0]), acts[1..])
  }

  const FRESH: Traced := Traced(Bucket(None, []), [], 0, 0)

  function InWindow(from: int, to: int): int -> int {
    (a: int) => if from <= a < to then 1 else 0
  }

  /** How many requests were admitted in [from, to). */
  function AdmittedIn(log: seq<int>, from: int, to: int): int { Sum(log, InWindow(from, to)) }

  function After(x: int): int -> int {
    (a: int) => if x < a then 1 else 0
  }

  function DueAfter(gen: nat, x: int): Timer -> int {
    (t: Timer) => if t.gen == gen && x < t.due then 1 else 0
  }

  function OfGen(gen: nat): Timer -> int {
    (t: Timer) => if t.gen == gen then 1 else 0
  }

  /** Admissions less than `span` old at `y`. */
  function Recent(span: int, log: seq<int>, y: int): int { Sum(log, After(y - span)) }

  /** Pending timers of a generation due after `y`. */
  function Due(timers: seq<Timer>, gen: nat, y: int): int { Sum(timers, DueAfter(gen, y)) }

  predicate NoneLater(log: seq<int>, y: int) { forall i :: 0 <= i < |log| ==> log[i] <= y }

  predicate Sorted(log: seq<int>) { forall i, j :: 0 <= i < j < |log| ==> log[i] <= log[j] }

  /** Any limit+1 consecutive admissions take at least `span`. */
  predicate Spaced(c: Config, span: int, log: seq<int>) {
    forall j :: 0 <= c.limit <= j < |log| ==> span <= log[j] - log[j - c.limit]
  }

  predicate LogOk(c: Config, span: int, x: Traced) {
    Sorted(x.admitted) && Spaced(c, span, x.admitted) && NoneLater(x.admitted, x.now)
  }

  /** Timers of older generations are due before the current one began, give or
      take the staleness of a clock reading; those of the current one a full window
      after; none is due more than a window ahead. */
  predicate TimersOk(c: Config, span: int, x: Traced, gen: nat) {
    forall t <- x.bucket.timers ::
      && t.gen <= gen && t.due <= x.now + c.window
      && (t.gen < gen ==> t.due <= x.since + c.window - span)
      && (t.gen == gen ==> x.since + c.window <= t.due)
  }

  /** Every admission less than `span` old still has its own pending timer. */
  ghost predicate Backed(span: int, x: Traced, gen: nat) {
    forall y :: x.now <= y ==> Recent(span, x.admitted, y) <= Due(x.bucket.timers, gen, y)
  }

  /** While the key is not blocked, every pending timer of the generation stands
      for an admission. */
  ghost predicate Earned(c: Config, x: Traced, gen: nat) {
    forall y :: Due(x.bucket.timers, gen, y) <= Recent(c.window, x.admitted, y)
  }

  /** While the key is blocked, everything before the block ages out with it. */
  predicate BlockOk(c: Config, span: int, x: Traced, r: Record) {
    && r.hits <= c.limit + 1
    && (forall t <- x.bucket.timers :: t.due <= r.blockExpiresAt + c.window - span)
    && NoneLater(x.admitted, r.blockExpiresAt - span)
  }

  ghost predicate Inv(c: Config, span: int, x: Traced) {
    && LogOk(c, span, x) && x.since <= x.now && 0 <= x.now
    && match x.bucket.record
       case None => x.bucket.timers == [] && NoneLater(x.admitted, x.now - span)
       case Some(r) =>
         && r.hits == Sum(x.bucket.timers, OfGen(r.gen))
         && TimersOk(c, span, x, r.gen) && Backed(span, x, r.gen)
         && (!r.blocked ==> r.hits <= c.limit && Earned(c, x, r.gen))
         && (r.blocked ==> BlockOk(c, span, x, r))
  }

  predicate Good(c: Config) { 1 <= c.limit && 0 < c.window }

  /** The window as far as stale clock readings leave it intact. */
  function Span(c: Config, e: Env): int { c.window - e.skew }

  /** A timer is over before a window that a stale reading opened early. */
  predicate Tame(c: Config, e: Env) { Good(c) && e.skew <= c.window && e.late + e.skew <= c.window }

  // ---- every step keeps the invariant ----------------------------------------------

  lemma Advance(c: Config, span: int, x: Traced, now: int)
    requires Inv(c, span, x) && x.now <= now
    ensures Inv(c, span, x.(now := now))
  {
  }

  /** At least the entries from index `k` on are counted when they all lie after `y`. */
  lemma {:induction false} CountSuffix(log: seq<int>, k: nat, y: int)
    requires k <= |log| && forall i :: k <= i < |log| ==> y < log[i]
    ensures |log| - k <= Sum(log, After(y))
  {
    if k < |log| {
      CountSuffix(log[..|log| - 1], k, y);
    } else {
      SumNonNegative(log, After(y));
    }
  }

  lemma CountedTimers(timers: seq<Timer>, gen: nat, y: int)
    ensures 0 <= Due(timers, gen, y) <= Sum(timers, OfGen(gen))
  {
    SumNonNegative(timers, DueAfter(gen, y));
    SumMonotone(timers, DueAfter(gen, y), OfGen(gen));
  }

  /** Room for one more: fewer than `limit` pending timers of the generation
      means the entry `limit` back is at least `span` old. */
  lemma RoomToAdmit(c: Config, span: int, x: Traced, gen: nat)
    requires Good(c) && LogOk(c, span, x) && Backed(span, x, gen)
    requires Sum(x.bucket.timers, OfGen(gen)) < c.limit
    ensures LogOk(c, span, x.(admitted := x.admitted + [x.now]))
  {
    var log, n := x.admitted, |x.admitted|;
    if c.limit <= n && x.now - log[n - c.limit] < span {
      CountSuffix(log, n - c.limit, x.now - span);
      CountedTimers(x.bucket.timers, gen, x.now);
      assert false;
    }
    SpacedAppend(c, span, log, x.now);
  }

  lemma SpacedAppend(c: Config, span: int, log: seq<int>, at: int)
    requires Good(c) && Sorted(log) && Spaced(c, span, log) && NoneLater(log, at)
    requires c.limit <= |log| ==> span <= at - log[|log| - c.limit]
    ensures Sorted(log + [at]) && Spaced(c, span, log + [at])
  {
    var more := log + [at];
    assert forall i :: 0 <= i < |log| ==> more[i] == log[i];
    forall j | 0 <= c.limit <= j < |more| ensures span <= more[j] - more[j - c.limit] {
      if j < |log| {
        assert span <= log[j] - log[j - c.limit];
      }
    }
  }

  /** An admission counts as recent until `span` has passed, its timer is pending
      for a full window. */
  lemma AdmitCounts(c: Config, span: int, log: seq<int>, timers: seq<Timer>, gen: nat, at: int, y: int)
    ensures Recent(span, log + [at], y) == Recent(span, log, y) + if y < at + span then 1 else 0
    ensures Due(timers + [Timer(at + c.window, gen)], gen, y) == Due(timers, gen, y) + if y < at + c.window then 1 else 0
  {
    SumAppend(log, at, After(y - span));
    SumAppend(timers, Timer(at + c.window, gen), DueAfter(gen, y));
  }

  /** The state after admitting a request at x.now in generation r.gen. */
  function Admit(c: Config, x: Traced, r: Record): Traced {
    x.(bucket := Bucket(Some(r), x.bucket.timers + [Timer(x.now + c.window, r.gen)]),
       admitted := x.admitted + [x.now])
  }

  lemma AdmitAt(c: Config, span: int, x: Traced, r: Record, y: int)
    requires span <= c.window
    ensures var z, due := Admit(c, x, r), Due(Admit(c, x, r).bucket.timers, r.gen, y) - Due(x.bucket.timers, r.gen, y);
            && Recent(span, z.admitted, y) - Recent(span, x.admitted, y) <= due
            && Recent(c.window, z.admitted, y) - Recent(c.window, x.admitted, y) == due
  {
    AdmitCounts(c, span, x.admitted, x.bucket.timers, r.gen, x.now, y);
    AdmitCounts(c, c.window, x.admitted, x.bucket.timers, r.gen, x.now, y);
  }

  lemma AdmitBacked(c: Config, span: int, x: Traced, r: Record)
    requires span <= c.window
    ensures Backed(span, x, r.gen) ==> Backed(span, Admit(c, x, r), r.gen)
    ensures Earned(c, x, r.gen) ==> Earned(c, Admit(c, x, r), r.gen)
  {
    var z := Admit(c, x, r);
    if Backed(span, x, r.gen) {
      forall y | x.now <= y ensures Recent(span, z.admitted, y) <= Due(z.bucket.timers, r.gen, y) {
        AdmitAt(c, span, x, r, y);
      }
    }
    if Earned(c, x, r.gen) {
      forall y ensures Due(z.bucket.timers, r.gen, y) <= Recent(c.window, z.admitted, y) {
        AdmitAt(c, span, x, r, y);
      }
    }
  }

  lemma {:induction false} NoneAfter(log: seq<int>, y: int)
    requires NoneLater(log, y)
    ensures Sum(log, After(y)) == 0
  {
    if log != [] {
      NoneAfter(log[..|log| - 1], y);
    }
  }

  /** A generation no timer belongs to yet, with every admission aged out. */
  lemma EmptyGeneration(c: Config, span: int, x: Traced, gen: nat)
    requires forall t <- x.bucket.timers :: t.gen < gen
    requires NoneLater(x.admitted, x.now - span)
    ensures Sum(x.bucket.timers, OfGen(gen)) == 0
    ensures Backed(span, x, gen) && Earned(c, x, gen)
  {
    SumZero(x.bucket.timers, OfGen(gen));
    forall y
      ensures Due(x.bucket.timers, gen, y) == 0
      ensures 0 <= Recent(c.window, x.admitted, y)
      ensures x.now <= y ==> Recent(span, x.admitted, y) == 0
    {
      SumZero(x.bucket.timers, DueAfter(gen, y));
      SumNonNegative(x.admitted, After(y - c.window));
      if x.now <= y {
        NoneAfter(x.admitted, y - span);
      }
    }
  }

  /** The first admission of a generation. */
  lemma StartGeneration(c: Config, span: int, x: Traced, r: Record)
    requires Good(c) && 0 <= span <= c.window && LogOk(c, span, x) && 0 <= x.now && x.since == x.now
    requires forall t <- x.bucket.timers :: t.gen < r.gen && t.due <= x.now + c.window - span
    requires NoneLater(x.admitted, x.now - span)
    requires r.hits == 1 && !r.blocked
    ensures Inv(c, span, Admit(c, x, r))
  {
    EmptyGeneration(c, span, x, r.gen);
    RoomToAdmit(c, span, x, r.gen);
    AdmitBacked(c, span, x, r);
    SumAppend(x.bucket.timers, Timer(x.now + c.window, r.gen), OfGen(r.gen));
  }

  /** Another admission of the current generation. */
  lemma ContinueGeneration(c: Config, span: int, x: Traced, r: Record)
    requires Good(c) && span <= c.window && Inv(c, span, x) && x.bucket.record.Some?
    requires var q := x.bucket.record.value;
             !q.blocked && q.hits < c.limit && r.hits == q.hits + 1 && r.gen == q.gen && !r.blocked
    ensures Inv(c, span, Admit(c, x, r))
  {
    RoomToAdmit(c, span, x, r.gen);
    AdmitBacked(c, span, x, r);
    SumAppend(x.bucket.timers, Timer(x.now + c.window, r.gen), OfGen(r.gen));
  }

  /** One hit too many: counted, not admitted, and the block outlasts everything
      pending but for the staleness of its reading. */
  lemma EnterBlock(c: Config, span: int, x: Traced, r: Record)
    requires Good(c) && Inv(c, span, x) && x.bucket.record.Some?
    requires var q := x.bucket.record.value; !q.blocked && q.hits == c.limit && r.hits == q.hits + 1 && r.gen == q.gen
    requires r.blocked && x.now + span <= r.blockExpiresAt
    ensures Inv(c, span, Admit(c, x, r).(admitted := x.admitted))
  {
    var t := Timer(x.now + c.window, r.gen);
    SumAppend(x.bucket.timers, t, OfGen(r.gen));
    forall y ensures Due(x.bucket.timers, r.gen, y) <= Due(x.bucket.timers + [t], r.gen, y) {
      SumAppend(x.bucket.timers, t, DueAfter(r.gen, y));
    }
  }

  lemma RefreshKeepsInv(c: Config, span: int, x: Traced, r: Record)
    requires Inv(c, span, x) && x.bucket.record.Some?
    requires r == x.bucket.record.value.(expiresAt := r.expiresAt)
    ensures Inv(c, span, x.(bucket := x.bucket.(record := Some(r))))
  {
  }

  /** What a request comes to, case by case. */
  function Requested(c: Config, x: Traced, read: int, at: int): Traced {
    var y, r := x.(now := at), Found(c, x.bucket, read);
    if x.bucket.record.None? then Admit(c, y.(since := at), r.(hits := 1))
    else if !r.blocked && r.hits < c.limit then Admit(c, y, r.(hits := r.hits + 1))
    else if !r.blocked then
      Admit(c, y, r.(hits := r.hits + 1, blocked := true, blockExpiresAt := read + c.window)).(admitted := x.admitted)
    else if r.blockExpiresAt <= read then
      Admit(c, y.(since := at), r.(blocked := false, hits := 1, gen := r.gen + 1))
    else y.(bucket := x.bucket.(record := Some(r)))
  }

  lemma RequestCases(c: Config, x: Traced, read: int, at: int)
    requires Good(c)
    ensures Apply(c, x, Request(read, at)) == Requested(c, x, read, at)
  {
  }

  lemma RequestKeepsInv(c: Config, e: Env, x: Traced, read: int, at: int)
    requires Tame(c, e) && Inv(c, Span(c, e), x) && Enabled(e, x, Request(read, at))
    ensures Inv(c, Span(c, e), Requested(c, x, read, at))
  {
    var span := Span(c, e);
    Advance(c, span, x, at);
    var y, r := x.(now := at), Found(c, x.bucket, read);
    if x.bucket.record.None? {
      StartGeneration(c, span, y.(since := at), r.(hits := 1));
    } else if !r.blocked && r.hits < c.limit {
      ContinueGeneration(c, span, y, r.(hits := r.hits + 1));
    } else if !r.blocked {
      EnterBlock(c, span, y, r.(hits := r.hits + 1, blocked := true, blockExpiresAt := read + c.window));
    } else if r.blockExpiresAt <= read {
      StartGeneration(c, span, y.(since := at), r.(blocked := false, hits := 1, gen := r.gen + 1));
    } else {
      RefreshKeepsInv(c, span, y, r);
    }
  }

  /** A generation with no timers left has no timers of any generation left: the
      timer that just fired was due a full window after the generation began, and
      by then all older ones, not too late, have run. */
  lemma LastTimerIsLast(c: Config, e: Env, x: Traced, i: nat, gen: nat)
    requires Tame(c, e) && TimersOk(c, Span(c, e), x, gen) && i < |x.bucket.timers| && x.bucket.timers[i].gen == gen
    requires x.bucket.timers[i].due <= x.now && forall t <- x.bucket.timers :: x.now < t.due + e.late
    requires Sum(Without(x.bucket.timers, i), OfGen(gen)) == 0
    ensures Without(x.bucket.timers, i) == []
  {
    var rest := Without(x.bucket.timers, i);
    assert x.bucket.timers[i] in x.bucket.timers;
    SumZero(rest, OfGen(gen));
    if rest != [] {
      assert false;
    }
  }

  /** A timer that fires was due, so no admission still needed it. */
  lemma FiredCounts(x: Traced, i: nat, gen: nat, y: int)
    requires i < |x.bucket.timers|
    ensures var t, rest := x.bucket.timers[i], Without(x.bucket.timers, i);
            && Due(rest, gen, y) == Due(x.bucket.timers, gen, y) - DueAfter(gen, y)(t)
            && Sum(rest, OfGen(gen)) == Sum(x.bucket.timers, OfGen(gen)) - OfGen(gen)(t)
  {
    SumWithout(x.bucket.timers, i, DueAfter(gen, y));
    SumWithout(x.bucket.timers, i, OfGen(gen));
  }

  lemma WithoutMembers(timers: seq<Timer>, i: nat)
    requires i < |timers|
    ensures forall t <- Without(timers, i) :: t in timers
  {
  }

  lemma FireBacked(c: Config, span: int, x: Traced, i: nat, gen: nat)
    requires i < |x.bucket.timers| && x.bucket.timers[i].due <= x.now
    ensures var y := x.(bucket := x.bucket.(timers := Without(x.bucket.timers, i)));
            (Backed(span, x, gen) ==> Backed(span, y, gen)) && (Earned(c, x, gen) ==> Earned(c, y, gen))
  {
    var y := x.(bucket := x.bucket.(timers := Without(x.bucket.timers, i)));
    forall z
      ensures Due(y.bucket.timers, gen, z) <= Due(x.bucket.timers, gen, z)
      ensures x.now <= z ==> Due(y.bucket.timers, gen, z) == Due(x.bucket.timers, gen, z)
    {
      FiredCounts(x, i, gen, z);
    }
  }

  /** A timer of the current generation takes one hit with it; dropping the
      record leaves nothing pending. */
  lemma DecayKeepsInv(c: Config, e: Env, x: Traced, i: nat)
    requires Tame(c, e) && Inv(c, Span(c, e), x) && i < |x.bucket.timers| && x.bucket.timers[i].due <= x.now
    requires forall t <- x.bucket.timers :: x.now < t.due + e.late
    ensures Inv(c, Span(c, e), x.(bucket := Fire(x.bucket, i, x.now)))
  {
    var span := Span(c, e);
    var r, timers := x.bucket.record.value, x.bucket.timers;
    var t, rest := timers[i], Without(timers, i);
    assert t in timers;
    WithoutMembers(timers, i);
    FireBacked(c, span, x, i, r.gen);
    FiredCounts(x, i, r.gen, x.now);
    SumNonNegative(rest, OfGen(r.gen));
    if t.gen == r.gen && r.hits == 1 {
      LastTimerIsLast(c, e, x, i, r.gen);
      Drained(c, span, x, i);
    }
  }

  /** With nothing pending, every admission has aged out. */
  lemma Drained(c: Config, span: int, x: Traced, i: nat)
    requires Inv(c, span, x) && i < |x.bucket.timers| && x.bucket.timers[i].due <= x.now
    requires Without(x.bucket.timers, i) == []
    ensures NoneLater(x.admitted, x.now - span)
  {
    var r := x.bucket.record.value;
    FireBacked(c, span, x, i, r.gen);
    assert Recent(span, x.admitted, x.now) <= Due([], r.gen, x.now) by {
      FiredCounts(x, i, r.gen, x.now);
    }
    var log, n := x.admitted, |x.admitted|;
    if n > 0 && x.now - span < log[n - 1] {
      CountSuffix(log, n - 1, x.now - span);
      assert false;
    }
  }

  lemma StepKeepsInv(c: Config, e: Env, x: Traced, act: Act)
    requires Tame(c, e) && Inv(c, Span(c, e), x) && Enabled(e, x, act)
    ensures Inv(c, Span(c, e), Apply(c, x, act))
  {
    match act
    case Request(read, at) =>
      RequestCases(c, x, read, at);
      RequestKeepsInv(c, e, x, read, at);
    case Decay(i, at) =>
      Advance(c, Span(c, e), x, at);
      DecayKeepsInv(c, e, x.(now := at), i);
  }

  lemma {:induction false} RunKeepsInv(c: Config, e: Env, x: Traced, acts: seq<Act>)
    requires Tame(c, e) && Inv(c, Span(c, e), x) && ValidRun(c, e, x, acts)
    ensures Inv(c, Span(c, e), Run(c, e, x, acts))
    decreases |acts|
  {
    if acts != [] {
      StepKeepsInv(c, e, x, acts[0]);
      RunKeepsInv(c, e, Apply(c, x, acts[0]), acts[1..]);
    }
  }

  // ---- the sliding window ------------------------------------------------------------

  lemma {:induction false} CountBounded(log: seq<int>, k: nat, from: int, to: int)
    requires k <= |log| && forall i :: 0 <= i < k ==> log[i] < from
    ensures AdmittedIn(log, from, to) <= |log| - k
    decreases |log|
  {
    if log != [] {
      CountBounded(log[..|log| - 1], if k == |log| then k - 1 else k, from, to);
    }
  }

  lemma SpacedPrefix(c: Config, span: int, log: seq<int>, n: nat)
    requires Spaced(c, span, log) && n <= |log|
    ensures Spaced(c, span, log[..n])
  {
    forall j | 0 <= c.limit <= j < n ensures span <= log[..n][j] - log[..n][j - c.limit] {
      assert span <= log[j] - log[j - c.limit];
    }
  }

  lemma {:induction false} SpacedMeansBounded(c: Config, span: int, log: seq<int>, from: int)
    requires Good(c) && Sorted(log) && Spaced(c, span, log)
    ensures AdmittedIn(log, from, from + span) <= c.limit
  {
    if log != [] {
      var n := |log| - 1;
      if from + span <= log[n] {
        SpacedPrefix(c, span, log, n);
        SpacedMeansBounded(c, span, log[..n], from);
      } else if c.limit <= n {
        assert span <= log[n] - log[n - c.limit];
        CountBounded(log, n - c.limit + 1, from, from + span);
      } else {
        CountBounded(log, 0, from, from + span);
      }
    }
  }

  /** Across blocks, generation resets and record deletion and re-creation, no
      half-open interval as long as the window less the staleness of clock readings
      holds more than `limit` admissions. */
  lemma WindowNeverExceeded(c: Config, e: Env, acts: seq<Act>, from: int)
    requires Tame(c, e) && ValidRun(c, e, FRESH, acts)
    ensures AdmittedIn(Run(c, e, FRESH, acts).admitted, from, from + Span(c, e)) <= c.limit
  {
    RunKeepsInv(c, e, FRESH, acts);
    SpacedMeansBounded(c, Span(c, e), Run(c, e, FRESH, acts).admitted, from);
  }

  /** The supporting invariant: the counter is the number of pending timers of
      the current generation, and a missing record has none pending. */
  lemma HitsArePendingTimers(c: Config, e: Env, acts: seq<Act>)
    requires Tame(c, e) && ValidRun(c, e, FRESH, acts)
    ensures var b := Run(c, e, FRESH, acts).bucket;
            match b.record
            case None => b.timers == []
            case Some(r) => r.hits == Sum(b.timers, OfGen(r.gen))
  {
    RunKeepsInv(c, e, FRESH, acts);
  }

  lemma {:induction false} AllDue(timers: seq<Timer>, gen: nat, y: int)
    requires forall t <- timers :: t.gen == gen ==> y < t.due
    ensures Due(timers, gen, y) == Sum(timers, OfGen(gen))
  {
    if timers != [] {
      AllDue(timers[..|timers| - 1], gen, y);
    }
  }

  lemma RefusedAtLimit(c: Config, b: Bucket, read: int, at: int)
    requires Good(c) && b.record.Some? && !b.record.value.blocked && Increment(c, b, read, at).1.blocked
    ensures c.limit <= b.record.value.hits
  {
  }

  lemma StillCounted(c: Config, e: Env, x: Traced, at: int)
    requires x.bucket.record.Some? && forall t <- x.bucket.timers :: at < t.due + e.late
    requires var r := x.bucket.record.value; r.hits == Sum(x.bucket.timers, OfGen(r.gen)) && Earned(c, x, r.gen)
    ensures x.bucket.record.value.hits <= Sum(x.admitted, After(at - e.late - c.window))
  {
    var r := x.bucket.record.value;
    AllDue(x.bucket.timers, r.gen, at - e.late);
    assert Due(x.bucket.timers, r.gen, at - e.late) <= Recent(c.window, x.admitted, at - e.late);
  }

  /** The other direction: an unblocked key is refused only when `limit` requests
      really were admitted within the last window, give or take how late its
      timers run. */
  lemma RefusalIsEarned(c: Config, e: Env, x: Traced, read: int, at: int)
    requires Tame(c, e) && Inv(c, Span(c, e), x) && Enabled(e, x, Request(read, at))
    requires x.bucket.record.Some? && !x.bucket.record.value.blocked
    requires Increment(c, x.bucket, read, at).1.blocked
    ensures c.limit <= Sum(x.admitted, After(at - e.late - c.window))
  {
    RefusedAtLimit(c, x.bucket, read, at);
    StillCounted(c, e, x, at);
  }

  // ---- exactly how late timers may be ------------------------------------------------------

  lemma {:induction false} RunMore(c: Config, e: Env, x: Traced, acts: seq<Act>, act: Act)
    requires ValidRun(c, e, x, acts) && Enabled(e, Run(c, e, x, acts), act)
    ensures ValidRun(c, e, x, acts + [act])
    ensures Run(c, e, x, acts + [act]) == Apply(c, Run(c, e, x, acts), act)
    decreases |acts|
  {
    if acts == [] {
      assert [] + [act] == [act] && [act][1..] == [];
    } else {
      RunMore(c, e, Apply(c, x, acts[0]), acts[1..], act);
      assert (acts + [act])[1..] == acts[1..] + [act];
    }
  }

  /** A lateness the bound does not survive: more than one window. */
  predicate TooLate(c: Config, e: Env) { Good(c) && c.window < e.late }

  function Hits(n: nat, due: int): (r: seq<Timer>)
    ensures |r| == n && forall i :: 0 <= i < n ==> r[i] == Timer(due, 0)
  {
    if n == 0 then [] else Hits(n - 1, due) + [Timer(due, 0)]
  }

  function Same(n: nat, at: int): (r: seq<int>)
    ensures |r| == n && forall i :: 0 <= i < n ==> r[i] == at
  {
    if n == 0 then [] else Same(n - 1, at) + [at]
  }

  /** Filled at `at` by requests that read the clock at once. */
  function FilledAt(c: Config, n: nat, at: int): Traced {
    if n == 0 then FRESH
    else Traced(Bucket(Some(Record(n, at + c.window, 0, false, 0)), Hits(n, at + c.window)), Same(n, at), at, at)
  }

  lemma FillOne(c: Config, n: nat, at: nat)
    requires Good(c) && n < c.limit
    ensures Apply(c, FilledAt(c, n, at), Request(at, at)) == FilledAt(c, n + 1, at)
  {
    assert Hits(0, at + c.window) == [] && Same(0, at) == [];
  }

  lemma {:induction false} FillAt(c: Config, e: Env, n: nat, at: nat) returns (acts: seq<Act>)
    requires Good(c) && 1 <= e.late && n <= c.limit
    ensures ValidRun(c, e, FRESH, acts) && Run(c, e, FRESH, acts) == FilledAt(c, n, at)
  {
    acts := [];
    if n > 0 {
      acts := FillAt(c, e, n - 1, at);
      FillOne(c, n - 1, at);
      RunMore(c, e, FRESH, acts, Request(at, at));
      acts := acts + [Request(at, at)];
    }
  }

  /** One refusal more at 0 leaves limit + 1 timers pending; the block resets at
      one window; at two windows the timer of the new generation runs, the record
      is deleted, and the old timers are still there. */
  function Leftover(c: Config): Traced
    requires Good(c)
  {
    Traced(Bucket(None, Hits(c.limit + 1, c.window)), Same(c.limit, 0) + [c.window], c.window, 2 * c.window)
  }

  lemma Block(c: Config)
    requires Good(c)
    ensures var w := c.window;
            && Apply(c, FilledAt(c, c.limit, 0), Request(0, 0))
               == Traced(Bucket(Some(Record(c.limit + 1, w, w, true, 0)), Hits(c.limit + 1, w)), Same(c.limit, 0), 0, 0)
  {
    assert Hits(c.limit, c.window) + [Timer(c.window, 0)] == Hits(c.limit + 1, c.window);
  }

  lemma Reset(c: Config, x: Traced)
    requires Good(c)
    requires x == Traced(Bucket(Some(Record(c.limit + 1, c.window, c.window, true, 0)), Hits(c.limit + 1, c.window)), Same(c.limit, 0), 0, 0)
    ensures var w := c.window;
            && Apply(c, x, Request(w, w)) == Traced(Bucket(Some(Record(1, 2 * w, w, false, 1)), Hits(c.limit + 1, w) + [Timer(2 * w, 1)]),
                                                 Same(c.limit, 0) + [w], w, w)
  {
  }

  lemma Drain(c: Config, x: Traced)
    requires Good(c)
    requires x == Traced(Bucket(Some(Record(1, 2 * c.window, c.window, false, 1)), Hits(c.limit + 1, c.window) + [Timer(2 * c.window, 1)]),
                         Same(c.limit, 0) + [c.window], c.window, c.window)
    ensures Apply(c, x, Decay(c.limit + 1, 2 * c.window)) == Leftover(c)
  {
    assert Without(x.bucket.timers, c.limit + 1) == Hits(c.limit + 1, c.window);
  }

  lemma BlockAndReset(c: Config, e: Env) returns (acts: seq<Act>)
    requires TooLate(c, e)
    ensures ValidRun(c, e, FRESH, acts)
    ensures Run(c, e, FRESH, acts) == Traced(Bucket(Some(Record(1, 2 * c.window, c.window, false, 1)),
                                                    Hits(c.limit + 1, c.window) + [Timer(2 * c.window, 1)]),
                                             Same(c.limit, 0) + [c.window], c.window, c.window)
  {
    acts := FillAt(c, e, c.limit, 0);
    Block(c);
    RunMore(c, e, FRESH, acts, Request(0, 0));
    acts := acts + [Request(0, 0)];
    Reset(c, Run(c, e, FRESH, acts));
    RunMore(c, e, FRESH, acts, Request(c.window, c.window));
    acts := acts + [Request(c.window, c.window)];
  }

  lemma LeaveTimers(c: Config, e: Env) returns (acts: seq<Act>)
    requires TooLate(c, e)
    ensures ValidRun(c, e, FRESH, acts) && Run(c, e, FRESH, acts) == Leftover(c)
  {
    acts := BlockAndReset(c, e);
    Drain(c, Run(c, e, FRESH, acts));
    RunMore(c, e, FRESH, acts, Decay(c.limit + 1, 2 * c.window));
    acts := acts + [Decay(c.limit + 1, 2 * c.window)];
  }

  /** From there requests at one instant alternate with old timers, each of which
      deletes the record the request has just created. */
  function Alternating(c: Config, j: nat): Traced
    requires Good(c) && j <= c.limit + 1
  {
    Traced(Bucket(None, Hits(c.limit + 1 - j, c.window) + Hits(j, 3 * c.window)),
           Same(c.limit, 0) + [c.window] + Same(j, 2 * c.window),
           if j == 0 then c.window else 2 * c.window, 2 * c.window)
  }

  lemma Alternate(c: Config, j: nat)
    requires Good(c) && j <= c.limit
    ensures var x := Apply(c, Alternating(c, j), Request(2 * c.window, 2 * c.window));
            && |x.bucket.timers| == c.limit + 2 && x.bucket.timers[0] == Timer(c.window, 0) && x.now == 2 * c.window
            && (forall t <- x.bucket.timers :: c.window <= t.due)
            && Apply(c, x, Decay(0, 2 * c.window)) == Alternating(c, j + 1)
  {
    var w := c.window;
    var x := Apply(c, Alternating(c, j), Request(2 * w, 2 * w));
    assert Hits(j, 3 * w) + [Timer(3 * w, 0)] == Hits(j + 1, 3 * w);
    assert x.bucket == Bucket(Some(Record(1, 3 * w, 0, false, 0)), Hits(c.limit + 1 - j, w) + Hits(j + 1, 3 * w));
    assert Without(x.bucket.timers, 0) == Hits(c.limit - j, w) + Hits(j + 1, 3 * w);
    assert Same(c.limit, 0) + [w] + Same(j, 2 * w) + [2 * w] == Same(c.limit, 0) + [w] + Same(j + 1, 2 * w);
  }

  lemma AlternateOnce(c: Config, e: Env, acts: seq<Act>, j: nat) returns (more: seq<Act>)
    requires TooLate(c, e) && j <= c.limit
    requires ValidRun(c, e, FRESH, acts) && Run(c, e, FRESH, acts) == Alternating(c, j)
    ensures ValidRun(c, e, FRESH, more) && Run(c, e, FRESH, more) == Alternating(c, j + 1)
  {
    Alternate(c, j);
    assert forall t <- Alternating(c, j).bucket.timers :: c.window <= t.due;
    RunMore(c, e, FRESH, acts, Request(2 * c.window, 2 * c.window));
    more := acts + [Request(2 * c.window, 2 * c.window)];
    RunMore(c, e, FRESH, more, Decay(0, 2 * c.window));
    more := more + [Decay(0, 2 * c.window)];
  }

  lemma {:induction false} KeepAlternating(c: Config, e: Env, j: nat) returns (acts: seq<Act>)
    requires TooLate(c, e) && j <= c.limit + 1
    ensures ValidRun(c, e, FRESH, acts) && Run(c, e, FRESH, acts) == Alternating(c, j)
  {
    if j == 0 {
      acts := LeaveTimers(c, e);
      assert Alternating(c, 0) == Leftover(c);
    } else {
      acts := KeepAlternating(c, e, j - 1);
      acts := AlternateOnce(c, e, acts, j - 1);
    }
  }

  lemma {:induction false} CountSame(log: seq<int>, n: nat, at: int, to: int)
    requires at < to
    ensures AdmittedIn(log + Same(n, at), at, to) >= n
  {
    if n == 0 {
      assert log + [] == log;
      SumNonNegative(log, InWindow(at, to));
    } else {
      CountSame(log, n - 1, at, to);
      SumAppend(log + Same(n - 1, at), at, InWindow(at, to));
      assert log + (Same(n - 1, at) + [at]) == log + Same(n - 1, at) + [at];
    }
  }

  /** For every limit and window: with timers one window late or more, limit + 1
      requests can be admitted in the same instant. */
  lemma LateTimersBreakTheWindow(c: Config, e: Env) returns (acts: seq<Act>)
    requires TooLate(c, e)
    ensures ValidRun(c, e, FRESH, acts)
    ensures AdmittedIn(Run(c, e, FRESH, acts).admitted, 2 * c.window, 3 * c.window) > c.limit
  {
    acts := KeepAlternating(c, e, c.limit + 1);
    CountSame(Same(c.limit, 0) + [c.window], c.limit + 1, 2 * c.window, 3 * c.window);
  }

  // ---- ... and how stale clock readings ------------------------------------------------------

  /** A refusal that locks at `at` with a reading of 0 ends its block at one window. */
  lemma StaleBlock(c: Config, at: nat)
    requires Good(c) && at <= c.window
    ensures var w, k := c.window, at + c.window;
            var x := Apply(c, FilledAt(c, c.limit, at), Request(0, at));
            && x == Traced(Bucket(Some(Record(c.limit + 1, k, w, true, 0)), Hits(c.limit + 1, k)), Same(c.limit, at), at, at)
            && Apply(c, x, Request(w, w)).admitted == Same(c.limit, at) + [w]
  {
    assert Hits(c.limit, at + c.window) + [Timer(at + c.window, 0)] == Hits(c.limit + 1, at + c.window);
  }

  lemma {:induction false} AllAt(n: nat, at: int, from: int, to: int)
    requires from <= at < to
    ensures AdmittedIn(Same(n, at), from, to) == n
  {
    if n > 0 {
      AllAt(n - 1, at, from, to);
      SumAppend(Same(n - 1, at), at, InWindow(from, to));
    }
  }

  lemma CountStale(c: Config, at: nat)
    requires Good(c) && at <= c.window
    ensures AdmittedIn(Same(c.limit, at) + [c.window], at, c.window + 1) > c.limit
  {
    AllAt(c.limit, at, at, c.window + 1);
    SumAppend(Same(c.limit, at), c.window, InWindow(at, c.window + 1));
  }

  /** For every limit, window and staleness up to a window: a refusal with a stale
      reading ends its block early, and limit + 1 requests are admitted between
      `at` and one window, with every timer on time. */
  lemma StaleReadingBreaksTheWindow(c: Config, e: Env, at: nat) returns (acts: seq<Act>)
    requires Good(c) && 1 <= e.late && at <= e.skew && at <= c.window
    ensures ValidRun(c, e, FRESH, acts)
    ensures AdmittedIn(Run(c, e, FRESH, acts).admitted, at, c.window + 1) > c.limit
  {
    acts := FillAt(c, e, c.limit, at);
    StaleBlock(c, at);
    RunMore(c, e, FRESH, acts, Request(0, at));
    acts := acts + [Request(0, at)];
    RunMore(c, e, FRESH, acts, Request(c.window, c.window));
    acts := acts + [Request(c.window, c.window)];
    CountStale(c, at);
  }

  /** No interval of the given length holds more than the limit. */
  ghost predicate Respected(c: Config, log: seq<int>, length: int) {
    forall from :: IntervalHolds(c, log, from, length)
  }

  predicate IntervalHolds(c: Config, log: seq<int>, from: int, length: int) {
    AdmittedIn(log, from, from + length) <= c.limit
  }

  /** ... on any run. */
  ghost predicate AlwaysRespected(c: Config, e: Env, length: int) {
    forall acts :: ValidRun(c, e, FRESH, acts) ==> Respected(c, Run(c, e, FRESH, acts).admitted, length)
  }

  lemma {:induction false} ShorterHoldsLess(log: seq<int>, from: int, to: int, more: int)
    requires to <= more
    ensures AdmittedIn(log, from, to) <= AdmittedIn(log, from, more)
  {
    SumMonotone(log, InWindow(from, to), InWindow(from, more));
  }

  lemma RespectedWithin(c: Config, e: Env, length: int)
    requires Tame(c, e) && length <= Span(c, e)
    ensures AlwaysRespected(c, e, length)
  {
    forall acts | ValidRun(c, e, FRESH, acts) ensures Respected(c, Run(c, e, FRESH, acts).admitted, length) {
      var log := Run(c, e, FRESH, acts).admitted;
      forall from ensures IntervalHolds(c, log, from, length) {
        WindowNeverExceeded(c, e, acts, from);
        ShorterHoldsLess(log, from, from + length, from + Span(c, e));
      }
    }
  }

  lemma StaleBeyond(c: Config, e: Env, at: nat, length: int)
    requires Good(c) && 1 <= e.late && at <= e.skew && at <= c.window && c.window - at < length
    ensures !AlwaysRespected(c, e, length)
  {
    var acts := StaleReadingBreaksTheWindow(c, e, at);
    var log := Run(c, e, FRESH, acts).admitted;
    ShorterHoldsLess(log, at, c.window + 1, at + length);
    assert !IntervalHolds(c, log, at, length);
  }

  /** The limit holds in every window of every run if and only if timers are less
      than one window late and no clock reading is ever stale. */
  lemma WindowExactly(c: Config, e: Env)
    requires Good(c) && 1 <= e.late
    ensures AlwaysRespected(c, e, c.window) <==> e.late <= c.window && e.skew == 0
  {
    if e.late <= c.window && e.skew == 0 {
      RespectedWithin(c, e, c.window);
    } else if e.skew > 0 {
      StaleBeyond(c, e, 1, c.window);
    } else {
      var acts := LateTimersBreakTheWindow(c, e);
      assert !IntervalHolds(c, Run(c, e, FRESH, acts).admitted, 2 * c.window, c.window);
    }
  }

  /** How much of the window is left under stale readings: exactly the window less
      the staleness, as long as timers are over before that. */
  lemma IntervalExactly(c: Config, e: Env, length: int)
    requires Tame(c, e) && 1 <= e.late
    ensures AlwaysRespected(c, e, length) <==> length <= Span(c, e)
  {
    if length <= Span(c, e) {
      RespectedWithin(c, e, length);
    } else {
      StaleBeyond(c, e, e.skew, length);
    }
  }

  // ---- records do not pile up -------------------------------------------------------------------

  /** Unless its key is blocked, a record still counts something. */
  predicate Counting(b: Bucket) { b.record.Some? && !b.record.value.blocked ==> 1 <= b.record.value.hits }

  /** A timer takes one hit off its own generation, and drops the record exactly when
      that leaves no hit and no block still running. */
  lemma DecayExactly(b: Bucket, i: nat, now: int)
    requires i < |b.timers|
    ensures var u := Fire(b, i, now);
            && u.timers == b.timers[..i] + b.timers[i + 1..]
            && (b.record.None? || b.record.value.gen != b.timers[i].gen ==> u.record == b.record)
            && (b.record.Some? && b.record.value.gen == b.timers[i].gen ==>
                 var r := b.record.value;
                 && (u.record.None? <==> r.hits in {0, 1} && !(r.blocked && now < r.blockExpiresAt))
                 && (u.record.Some? ==> u.record.value == r.(hits := if r.hits > 0 then r.hits - 1 else r.hits)))
  {
  }

  /** On every run, timely or not, a key that is not blocked has a record only while
      that record counts at least one hit. */
  lemma {:induction false} RecordsCount(c: Config, e: Env, x: Traced, acts: seq<Act>)
    requires Good(c) && ValidRun(c, e, x, acts) && Counting(x.bucket)
    ensures Counting(Run(c, e, x, acts).bucket)
    decreases |acts|
  {
    if acts != [] {
      RecordsCount(c, e, Apply(c, x, acts[0]), acts[1..]);
    }
  }

  // ---- what a client is told ------------------------------------------------------------------

  /** The least whole number of seconds that covers `left` nanoseconds. */
  predicate LeastSeconds(s: int, left: int) { (s - 1) * 1_000_000_000 < left <= s * 1_000_000_000 }

  /** The reply reports the record as the request leaves it: its hits, the seconds left
      of its window, which is refreshed only once it is over, and, for a refused request,
      the seconds left of its block. */
  lemma ReplyTells(c: Config, b: Bucket, read: int, at: int)
    requires Good(c)
    ensures var (u, reply) := Increment(c, b, read, at);
            && u.record.Some?
            && var r := u.record.value;
            && reply.blocked == r.blocked && reply.totalHits == r.hits
            && LeastSeconds(reply.timeToExpire, r.expiresAt - read)
            && (if b.record.Some? && read < b.record.value.expiresAt then r.expiresAt == b.record.value.expiresAt
                else r.expiresAt == read + c.window)
            && (reply.blocked ==> LeastSeconds(reply.timeToBlockExpire, r.blockExpiresAt - read))
  {
  }

  predicate BlockedUntil(b: Bucket, end: int) { b.record.Some? && b.record.value.blocked && b.record.value.blockExpiresAt == end }

  /** A request that is refused blocks its key for exactly one window from its reading,
      unless the key was blocked already. */
  lemma BlocksForAWindow(c: Config, b: Bucket, read: int, at: int)
    requires Good(c) && Increment(c, b, read, at).1.blocked
    ensures b.record.Some? && b.record.value.blocked ==> BlockedUntil(Increment(c, b, read, at).0, b.record.value.blockExpiresAt)
    ensures !(b.record.Some? && b.record.value.blocked) ==> BlockedUntil(Increment(c, b, read, at).0, read + c.window)
  {
  }

  predicate Before(act: Act, end: int) { match act case Request(read, _) => read < end case Decay(_, at) => at < end }

  lemma BlockedStays(c: Config, x: Traced, act: Act, end: int)
    requires Good(c) && BlockedUntil(x.bucket, end) && Before(act, end)
    requires act.Decay? ==> act.timer < |x.bucket.timers|
    ensures BlockedUntil(Apply(c, x, act).bucket, end) && Apply(c, x, act).admitted == x.admitted
  {
  }

  /** A block lasts until its end and no longer: until then every request is refused,
      whatever timers run, and the first one read at the end or later is admitted. */
  lemma {:induction false} BlockLastsExactly(c: Config, e: Env, x: Traced, acts: seq<Act>, end: int, read: int, at: int)
    requires Good(c) && BlockedUntil(x.bucket, end) && ValidRun(c, e, x, acts)
    requires forall act <- acts :: Before(act, end)
    ensures var y := Run(c, e, x, acts);
            && y.admitted == x.admitted && BlockedUntil(y.bucket, end)
            && (Increment(c, y.bucket, read, at).1.blocked <==> read < end)
    decreases |acts|
  {
    if acts != [] {
      BlockedStays(c, x, acts[0], end);
      BlockLastsExactly(c, e, Apply(c, x, acts[0]), acts[1..], end, read, at);
    }
  }

  // ---- the throttler itself --------------------------------------------------------------

  class Throttler {
    const config: Config
    var storage: map<string, Record>
    var pending: map<string, seq<Timer>>

    function BucketOf(key: string): Bucket
      reads this
    {
      Bucket(if key in storage then Some(storage[key]) else None, if key in pending then pending[key] else [])
    }

    constructor (config: Config)
      ensures this.config == config && forall key :: BucketOf(key) == FRESH.bucket
    {
      this.config := config;
      storage, pending := map[], map[];
    }

    /** Registers one decrement a full window out. */
    method ScheduleDecay(key: string, gen: nat, now: int)
      modifies `pending
      ensures BucketOf(key) == old(BucketOf(key)).(timers := old(BucketOf(key)).timers + [Timer(now + config.window, gen)])
      ensures forall k :: k != key ==> BucketOf(k) == old(BucketOf(k))
    {
      var timers := if key in pending then pending[key] else [];
      pending := pending[key := timers + [Timer(now + config.window, gen)]];
    }

    /** The record of `key`, new if there is none, with its window refreshed. */
    method Find(key: string, read: int) returns (rec: Record)
      ensures rec == Found(config, BucketOf(key), read)
    {
      rec := Record(0, read + config.window, 0, false, 0);
      if key in storage {
        rec := storage[key];
      }
      if SecondsUntil(rec.expiresAt, read) <= 0 {
        rec := rec.(expiresAt := read + config.window);
      }
    }

    /** Counts one request against `key` and says whether it is refused: `read` is
        the clock before the lock, `at` the instant its timers start. */
    method Hit(key: string, read: int, at: int) returns (reply: Reply)
      modifies `storage, `pending
      ensures (BucketOf(key), reply) == Increment(config, old(BucketOf(key)), read, at)
      ensures forall k :: k != key ==> BucketOf(k) == old(BucketOf(k))
    {
      ghost var b := BucketOf(key);
      var rec := Find(key, read);
      var timeToExpire := SecondsUntil(rec.expiresAt, read);
      if !rec.blocked {
        rec := rec.(hits := rec.hits + 1);
        ScheduleDecay(key, rec.gen, at);
      }
      if rec.hits > config.limit && !rec.blocked {
        rec := rec.(blocked := true, blockExpiresAt := read + config.window);
      }
      var timeToBlockExpire := SecondsUntil(rec.blockExpiresAt, read);
      if timeToBlockExpire <= 0 && rec.blocked {
        rec := Unblock(key, rec, at);
      }
      Store(key, rec);
      assert Increment(config, b, read, at).0 == BucketOf(key);
      return Reply(rec.hits, timeToExpire, timeToBlockExpire, rec.blocked);
    }

    method Store(key: string, rec: Record)
      modifies `storage
      ensures BucketOf(key) == old(BucketOf(key)).(record := Some(rec))
      ensures forall k :: k != key ==> BucketOf(k) == old(BucketOf(k))
    {
      storage := storage[key := rec];
    }

    /** The block is over: a new generation starts with this request. */
    method Unblock(key: string, rec: Record, at: int) returns (r: Record)
      modifies `pending
      ensures r == rec.(blocked := false, hits := 1, gen := rec.gen + 1)
      ensures BucketOf(key) == old(BucketOf(key)).(timers := old(BucketOf(key)).timers + [Timer(at + config.window, rec.gen + 1)])
      ensures forall k :: k != key ==> BucketOf(k) == old(BucketOf(k))
    {
      r := rec.(blocked := false, hits := 0, gen := rec.gen + 1);
      r := r.(hits := r.hits + 1);
      ScheduleDecay(key, r.gen, at);
    }

    /** Runs pending timer `i` of `key`. */
    method FireTimer(key: string, i: nat, now: int)
      requires i < |BucketOf(key).timers|
      modifies `storage, `pending
      ensures BucketOf(key) == Fire(old(BucketOf(key)), i, now)
      ensures forall k :: k != key ==> BucketOf(k) == old(BucketOf(k))
    {
      var t := pending[key][i];
      pending := pending[key := Without(pending[key], i)];
      if key !in storage || storage[key].gen != t.gen {
        return;
      }
      var rec := storage[key];
      if rec.hits > 0 {
        rec := rec.(hits := rec.hits - 1);
      }
      if rec.hits == 0 && (!rec.blocked || !(now < rec.blockExpiresAt)) {
        storage := storage - {key};
      } else {
        storage := storage[key := rec];
      }
    }
  }
}
