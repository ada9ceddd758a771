/** The debounced orchestrator of one customer: webhook jobs persist messages
    and enqueue under a fixed task id, passes count before and after they run. */
module Debounce {
  const DELAY: int := 3000   // milliseconds
  const MAX_RETRY: nat := 2  // of a webhook job

  /** The fixed debounce id, or a fresh id stamped with the enqueue time. */
  datatype TaskId = Fixed | Fresh(stamp: int)

  /** A queued task, a running one before and after it took its mark, and one
      whose handler has made its re-check but which still holds its id. */
  datatype Phase = Scheduled(due: int) | Started | Marked(mark: nat) | Rechecked(mark: nat)

  /** A webhook job: queued, past its inbox transaction, through, or out of retries. */
  datatype Stage = Queued(retry: nat) | ToPublish(retry: nat) | Done | Dead
  datatype Job = Job(message: string, stage: Stage)

  datatype Pipeline = Pipeline(
    inbox: seq<string>,          // persisted messages, in commit order
    jobs: map<nat, Job>,         // webhook jobs
    tasks: map<TaskId, Phase>,   // orchestrator tasks queued or active
    seen: nat,                   // the largest mark any pass has taken
    clock: int)

  /** A task id still queued or active is silently dropped. */
  function Enqueue(tasks: map<TaskId, Phase>, id: TaskId, now: int): map<TaskId, Phase> {
    if id in tasks then tasks else tasks[id := Scheduled(now + DELAY)]
  }

  datatype Step =
    | Arrive(job: nat, message: string)
    | Persist(job: nat)              // the inbox transaction
    | Crash(job: nat)                // the attempt dies; a retry if one is left
    | Publish(job: nat)              // the enqueue after the commit
    | Start(task: TaskId)
    | TakeMark(task: TaskId)
    | Recheck(task: TaskId)          // the handler's last act
    | Overlook(task: TaskId)         // a count or the enqueue of the re-check fails: swallowed
    | Complete(task: TaskId)         // the queue lets the id go
    | Fail(task: TaskId)             // the pass errors: discarded, no re-check
    | Tick(now: int)

  predicate Pending(p: Pipeline, j: nat) { j in p.jobs && (p.jobs[j].stage.Queued? || p.jobs[j].stage.ToPublish?) }

  function PersistJob(p: Pipeline, j: nat): Pipeline
    requires j in p.jobs && p.jobs[j].stage.Queued?
  {
    var job := p.jobs[j];
    var inserted := job.message !in p.inbox;
    var stage := if !inserted && job.stage.retry == 0 then Done else ToPublish(job.stage.retry);
    p.(inbox := if inserted then p.inbox + [job.message] else p.inbox, jobs := p.jobs[j := job.(stage := stage)])
  }

  function Retried(stage: Stage): Stage
    requires stage.Queued? || stage.ToPublish?
  {
    if stage.retry < MAX_RETRY then Queued(stage.retry + 1) else Dead
  }

  /** Schedules one more pass under a fresh id when messages landed meanwhile. */
  function ReenqueueIfNewer(p: Pipeline, mark: nat): Pipeline {
    if mark < |p.inbox| then p.(tasks := Enqueue(p.tasks, Fresh(p.clock), p.clock)) else p
  }

  function Unchecked(phase: Phase): Phase { if phase.Marked? then Rechecked(phase.mark) else Rechecked(0) }

  function Apply(p: Pipeline, step: Step): Pipeline {
    match step
    case Arrive(j, message) => if j in p.jobs then p else p.(jobs := p.jobs[j := Job(message, Queued(0))])
    case Persist(j) => if j in p.jobs && p.jobs[j].stage.Queued? then PersistJob(p, j) else p
    case Crash(j) => if Pending(p, j) then p.(jobs := p.jobs[j := p.jobs[j].(stage := Retried(p.jobs[j].stage))]) else p
    case Publish(j) =>
      if j in p.jobs && p.jobs[j].stage.ToPublish? then
        p.(jobs := p.jobs[j := p.jobs[j].(stage := Done)], tasks := Enqueue(p.tasks, Fixed, p.clock))
      else p
    case Start(id) =>
      if id in p.tasks && p.tasks[id].Scheduled? && p.tasks[id].due <= p.clock then p.(tasks := p.tasks[id := Started])
      else p
    case TakeMark(id) =>
      if id in p.tasks && p.tasks[id] == Started then
        p.(tasks := p.tasks[id := Marked(|p.inbox|)], seen := if p.seen < |p.inbox| then |p.inbox| else p.seen)
      else p
    case Recheck(id) =>
      if id in p.tasks && p.tasks[id].Marked? then
        var q := ReenqueueIfNewer(p, p.tasks[id].mark);
        q.(tasks := q.tasks[id := Rechecked(p.tasks[id].mark)])
      else p
    case Overlook(id) =>
      if id in p.tasks && (p.tasks[id].Started? || p.tasks[id].Marked?) then p.(tasks := p.tasks[id := Unchecked(p.tasks[id])]) else p
    case Complete(id) => if id in p.tasks && p.tasks[id].Rechecked? then p.(tasks := p.tasks - {id}) else p
    case Fail(id) => if id in p.tasks && !p.tasks[id].Scheduled? then p.(tasks := p.tasks - {id}) else p
    case Tick(now) => if p.clock <= now then p.(clock := now) else p
  }

  function Run(p: Pipeline, steps: seq<Step>): Pipeline {
    if steps == [] then p else Apply(Run(p, steps[..|steps| - 1]), steps[|steps| - 1])
  }

  const IDLE: Pipeline := Pipeline([], map[], map[], 0, 0)

  // ---- coverage -----------------------------------------------------------------------------

  /** Task `id` will still look at message `i`: it has yet to take its mark, or
      its mark is older than the message so its re-check will notice. */
  predicate Watches(p: Pipeline, id: TaskId, i: nat) {
    id in p.tasks && (p.tasks[id].Scheduled? || p.tasks[id].Started? || (p.tasks[id].Marked? && p.tasks[id].mark <= i))
  }

  /** Job `j` has committed message `i` and has still to publish. */
  predicate Owes(p: Pipeline, j: nat, i: nat) {
    && i < |p.inbox| && j in p.jobs && p.jobs[j].message == p.inbox[i]
    && (p.jobs[j].stage.ToPublish? || (p.jobs[j].stage.Queued? && p.jobs[j].stage.retry > 0))
  }

  ghost predicate Covered(p: Pipeline, i: nat) {
    || i < p.seen
    || (exists id :: Watches(p, id, i))
    || (exists j :: Owes(p, j, i))
  }

  /** No persisted message is forgotten: it was counted by a pass, or a task will
      still look at it, or its own webhook job has still to publish. */
  ghost predicate AllCovered(p: Pipeline) { forall i :: 0 <= i < |p.inbox| ==> Covered(p, i) }

  predicate MarksOk(p: Pipeline) {
    forall id <- p.tasks :: p.tasks[id].Marked? || p.tasks[id].Rechecked? ==> p.tasks[id].mark <= p.seen
  }

  /** A fresh id that is already running was stamped at least one delay ago, so
      it can never collide with an id stamped now. */
  predicate StampsOk(p: Pipeline) {
    forall id <- p.tasks :: id.Fresh? ==>
      id.stamp <= p.clock && (if p.tasks[id].Scheduled? then p.tasks[id].due == id.stamp + DELAY else id.stamp + DELAY <= p.clock)
  }

  /** What holds on every run. */
  predicate Frame(p: Pipeline) { MarksOk(p) && StampsOk(p) && p.seen <= |p.inbox| }

  lemma StepKeepsFrame(p: Pipeline, step: Step)
    requires Frame(p)
    ensures Frame(Apply(p, step))
  {
  }

  lemma {:induction false} RunKeepsFrame(steps: seq<Step>)
    ensures Frame(Run(IDLE, steps))
  {
    if steps != [] {
      RunKeepsFrame(steps[..|steps| - 1]);
      StepKeepsFrame(Run(IDLE, steps[..|steps| - 1]), steps[|steps| - 1]);
    }
  }

  /** Some task has still to make its re-check. */
  predicate Awake(p: Pipeline) { exists id <- p.tasks :: !p.tasks[id].Rechecked? }

  ghost predicate Owed(p: Pipeline, i: nat) { exists j :: Owes(p, j, i) }

  /** Every message no pass has counted is owed by a job. */
  ghost predicate AllOwed(p: Pipeline) { forall i :: p.seen <= i < |p.inbox| ==> Owed(p, i) }

  /** Coverage of every message comes down to one awake task or to the debts. */
  lemma CoverageIs(p: Pipeline)
    requires Frame(p)
    ensures AllCovered(p) <==> Awake(p) || AllOwed(p)
  {
    if id :| id in p.tasks && !p.tasks[id].Rechecked? {
      forall i | 0 <= i < |p.inbox| ensures Covered(p, i) {
        if p.seen <= i {
          assert Watches(p, id, i);
        }
      }
    } else {
      forall i | p.seen <= i < |p.inbox| ensures Covered(p, i) <==> Owed(p, i) {
        assert forall id :: !Watches(p, id, i);
      }
      if AllCovered(p) {
        forall i | p.seen <= i < |p.inbox| ensures Owed(p, i) {
          assert Covered(p, i);
        }
      }
      if AllOwed(p) {
        forall i | 0 <= i < |p.inbox| ensures Covered(p, i) {
          assert p.seen <= i ==> Owed(p, i);
        }
      }
    }
  }

  // ---- which steps keep it -----------------------------------------------------------------------

  ghost predicate OwedByOther(p: Pipeline, j: nat, i: nat) { exists k :: k != j && Owes(p, k, i) }

  /** Job `j` is not needed: somebody is awake or others owe what it owes. */
  ghost predicate Spare(p: Pipeline, j: nat) {
    Awake(p) || forall i :: p.seen <= i < |p.inbox| ==> OwedByOther(p, j, i)
  }

  /** Task `id` is not needed: another one is awake or every uncounted message is owed. */
  ghost predicate Dispensable(p: Pipeline, id: TaskId) {
    (exists other <- p.tasks :: other != id && !p.tasks[other].Rechecked?) || AllOwed(p)
  }

  /** An enqueue finds its id free or is not needed; a job runs out of retries, a
      pass fails or its re-check fails only when it is not needed. */
  ghost predicate Safe(p: Pipeline, step: Step) {
    match step
    case Publish(j) => j in p.jobs && p.jobs[j].stage.ToPublish? ==> Fixed !in p.tasks || Spare(p, j)
    case Crash(j) => Pending(p, j) && p.jobs[j].stage.retry >= MAX_RETRY ==> Spare(p, j)
    case Fail(id) =>
      id in p.tasks && !p.tasks[id].Scheduled? && !p.tasks[id].Rechecked? ==> Dispensable(p, id)
    case Overlook(id) =>
      id in p.tasks && (p.tasks[id].Started? || p.tasks[id].Marked?) ==> Dispensable(p, id)
    case _ => true
  }

  lemma PersistKeeps(p: Pipeline, j: nat)
    requires Frame(p) && AllCovered(p) && j in p.jobs && p.jobs[j].stage.Queued?
    ensures AllCovered(PersistJob(p, j))
  {
    var q := PersistJob(p, j);
    StepKeepsFrame(p, Persist(j));
    CoverageIs(p);
    CoverageIs(q);
    if !Awake(p) {
      forall i | q.seen <= i < |q.inbox| ensures Owed(q, i) {
        if i < |p.inbox| {
          assert Owed(p, i);
          var k :| Owes(p, k, i);
          assert Owes(q, k, i);
        } else {
          assert Owes(q, j, i);
        }
      }
    }
  }

  /** When job `j` stops owing and nothing else changes. */
  lemma DebtDropped(p: Pipeline, q: Pipeline, j: nat)
    requires Frame(p) && Frame(q) && j in p.jobs && j in q.jobs
    requires q == p.(jobs := p.jobs[j := q.jobs[j]]) && (q.jobs[j].stage.Done? || q.jobs[j].stage.Dead?)
    ensures AllCovered(q) <==> Spare(p, j)
  {
    CoverageIs(q);
    forall i | p.seen <= i < |p.inbox| ensures Owed(q, i) <==> OwedByOther(p, j, i) {
      if k :| Owes(q, k, i) {
        assert k != j && Owes(p, k, i);
      }
      if k :| k != j && Owes(p, k, i) {
        assert Owes(q, k, i);
      }
    }
    if AllOwed(q) {
      forall i | p.seen <= i < |p.inbox| ensures OwedByOther(p, j, i) {
        assert Owed(q, i);
      }
    }
  }

  /** Whether dropping an enqueue against a taken id loses anything. */
  lemma PublishExactly(p: Pipeline, j: nat)
    requires Frame(p) && AllCovered(p) && j in p.jobs && p.jobs[j].stage.ToPublish?
    ensures AllCovered(Apply(p, Publish(j))) <==> Safe(p, Publish(j))
  {
    var q := Apply(p, Publish(j));
    StepKeepsFrame(p, Publish(j));
    if Fixed in p.tasks {
      DebtDropped(p, q, j);
    } else {
      assert Fixed in q.tasks && !q.tasks[Fixed].Rechecked?;
      CoverageIs(q);
    }
  }

  lemma CrashExactly(p: Pipeline, j: nat)
    requires Frame(p) && AllCovered(p)
    ensures AllCovered(Apply(p, Crash(j))) <==> Safe(p, Crash(j))
  {
    var q := Apply(p, Crash(j));
    StepKeepsFrame(p, Crash(j));
    if Pending(p, j) {
      if p.jobs[j].stage.retry >= MAX_RETRY {
        DebtDropped(p, q, j);
      } else {
        CoverageIs(p);
        CoverageIs(q);
        if !Awake(p) {
          forall i | q.seen <= i < |q.inbox| ensures Owed(q, i) {
            assert Owed(p, i);
            var k :| Owes(p, k, i);
            assert Owes(q, k, i);
          }
        }
      }
    }
  }

  lemma SameDebts(p: Pipeline, q: Pipeline)
    requires q.inbox == p.inbox && q.jobs == p.jobs && q.seen == p.seen
    ensures AllOwed(q) <==> AllOwed(p)
  {
    forall i, j ensures Owes(q, j, i) <==> Owes(p, j, i) {}
    forall i ensures Owed(q, i) <==> Owed(p, i) {
      if j :| Owes(p, j, i) { assert Owes(q, j, i); }
      if j :| Owes(q, j, i) { assert Owes(p, j, i); }
    }
  }

  lemma FailExactly(p: Pipeline, id: TaskId)
    requires Frame(p) && AllCovered(p)
    ensures AllCovered(Apply(p, Fail(id))) <==> Safe(p, Fail(id))
  {
    var q := Apply(p, Fail(id));
    StepKeepsFrame(p, Fail(id));
    CoverageIs(p);
    CoverageIs(q);
    SameDebts(p, q);
    if id in p.tasks && !p.tasks[id].Scheduled? {
      assert Awake(q) <==> exists other <- p.tasks :: other != id && !p.tasks[other].Rechecked? by {
        if other :| other in p.tasks && other != id && !p.tasks[other].Rechecked? {
          assert other in q.tasks;
        }
      }
      if p.tasks[id].Rechecked? && Awake(p) {
        var other :| other in p.tasks && !p.tasks[other].Rechecked?;
        assert other in q.tasks;
      }
    }
  }

  lemma OverlookExactly(p: Pipeline, id: TaskId)
    requires Frame(p) && AllCovered(p)
    ensures AllCovered(Apply(p, Overlook(id))) <==> Safe(p, Overlook(id))
  {
    var q := Apply(p, Overlook(id));
    StepKeepsFrame(p, Overlook(id));
    CoverageIs(q);
    SameDebts(p, q);
    if q != p {
      assert Awake(q) <==> exists other <- p.tasks :: other != id && !p.tasks[other].Rechecked? by {
        if other :| other in p.tasks && other != id && !p.tasks[other].Rechecked? {
          assert other in q.tasks && q.tasks[other] == p.tasks[other];
        }
      }
    }
  }

  /** The re-check loses nothing: either no message is newer than its mark, or a
      fresh task is awake; letting the id go afterwards loses nothing either. */
  lemma RecheckKeeps(p: Pipeline, id: TaskId)
    requires Frame(p) && AllCovered(p)
    ensures AllCovered(Apply(p, Recheck(id))) && AllCovered(Apply(p, Complete(id)))
  {
    var q, r, next := Apply(p, Recheck(id)), Apply(p, Complete(id)), Fresh(p.clock);
    StepKeepsFrame(p, Recheck(id));
    StepKeepsFrame(p, Complete(id));
    CoverageIs(p);
    CoverageIs(q);
    CoverageIs(r);
    SameDebts(p, q);
    SameDebts(p, r);
    if id in p.tasks && p.tasks[id].Marked? && p.tasks[id].mark < |p.inbox| {
      assert next != id && (next in p.tasks ==> p.tasks[next].Scheduled?);
      assert next in q.tasks && !q.tasks[next].Rechecked?;
    }
    if Awake(p) && id in p.tasks && p.tasks[id].Rechecked? {
      var other :| other in p.tasks && !p.tasks[other].Rechecked?;
      assert other in r.tasks;
    }
  }

  lemma StartKeeps(p: Pipeline, id: TaskId)
    requires Frame(p) && AllCovered(p)
    ensures AllCovered(Apply(p, Start(id))) && AllCovered(Apply(p, TakeMark(id)))
  {
    var q, r := Apply(p, Start(id)), Apply(p, TakeMark(id));
    StepKeepsFrame(p, Start(id));
    StepKeepsFrame(p, TakeMark(id));
    CoverageIs(p);
    CoverageIs(q);
    CoverageIs(r);
    SameDebts(p, q);
    if q != p { assert id in q.tasks && !q.tasks[id].Rechecked?; }
    if r != p { assert id in r.tasks && !r.tasks[id].Rechecked?; }
  }

  lemma QuietKeeps(p: Pipeline, step: Step)
    requires Frame(p) && AllCovered(p) && (step.Arrive? || step.Tick?)
    ensures AllCovered(Apply(p, step))
  {
    var q := Apply(p, step);
    StepKeepsFrame(p, step);
    CoverageIs(p);
    CoverageIs(q);
    if !Awake(p) {
      forall i | q.seen <= i < |q.inbox| ensures Owed(q, i) {
        assert Owed(p, i);
        var k :| Owes(p, k, i);
        assert Owes(q, k, i);
      }
    }
  }

  /** A step keeps every message covered if and only if it is safe. */
  lemma StepExactly(p: Pipeline, step: Step)
    requires Frame(p) && AllCovered(p)
    ensures AllCovered(Apply(p, step)) <==> Safe(p, step)
  {
    match step
    case Persist(j) => if j in p.jobs && p.jobs[j].stage.Queued? { PersistKeeps(p, j); }
    case Crash(j) => CrashExactly(p, j);
    case Publish(j) => if j in p.jobs && p.jobs[j].stage.ToPublish? { PublishExactly(p, j); }
    case Start(id) => StartKeeps(p, id);
    case TakeMark(id) => StartKeeps(p, id);
    case Recheck(id) => RecheckKeeps(p, id);
    case Complete(id) => RecheckKeeps(p, id);
    case Fail(id) => FailExactly(p, id);
    case Overlook(id) => OverlookExactly(p, id);
    case Arrive(_, _) => QuietKeeps(p, step);
    case Tick(_) => QuietKeeps(p, step);
  }

  // ---- runs ------------------------------------------------------------------------------------------

  /** After every prefix of the run. */
  ghost predicate AlwaysCovered(steps: seq<Step>) {
    AllCovered(Run(IDLE, steps)) && (steps != [] ==> AlwaysCovered(steps[..|steps| - 1]))
  }

  ghost predicate AlwaysSafe(steps: seq<Step>) {
    steps != [] ==>
      var n := |steps| - 1;
      AlwaysSafe(steps[..n]) && Safe(Run(IDLE, steps[..n]), steps[n])
  }

  /** No lost wakeup, exactly: all along a run every persisted message is covered
      if and only if each enqueue of the run found its id free or was not needed,
      and no needed job ran out of retries and no needed pass or re-check failed. */
  lemma {:induction false} NoLostWakeupExactly(steps: seq<Step>)
    ensures AlwaysCovered(steps) <==> AlwaysSafe(steps)
  {
    if steps != [] {
      var n := |steps| - 1;
      NoLostWakeupExactly(steps[..n]);
      if AlwaysCovered(steps[..n]) {
        CoveredNow(steps[..n]);
        RunKeepsFrame(steps[..n]);
        StepExactly(Run(IDLE, steps[..n]), steps[n]);
      }
    }
  }

  lemma CoveredNow(steps: seq<Step>)
    requires AlwaysCovered(steps)
    ensures AllCovered(Run(IDLE, steps))
  {
  }

  /** Once the queue is idle and no webhook job is left to publish, every message
      is covered if and only if the last pass counted them all. */
  lemma QuietMeansSeen(steps: seq<Step>)
    requires Run(IDLE, steps).tasks == map[] && forall j <- Run(IDLE, steps).jobs :: !Pending(Run(IDLE, steps), j)
    ensures AllCovered(Run(IDLE, steps)) <==> Run(IDLE, steps).seen == |Run(IDLE, steps).inbox|
  {
    RunKeepsFrame(steps);
    var p := Run(IDLE, steps);
    CoverageIs(p);
    assert forall i :: !Owed(p, i);
    if p.seen < |p.inbox| {
      assert !Owed(p, p.seen);
    }
  }

  // ---- no needless wakeup ------------------------------------------------------------------------

  /** A first attempt whose message is already in the inbox ends its job there. */
  lemma DuplicateEnds(p: Pipeline, j: nat)
    requires j in p.jobs && p.jobs[j].stage == Queued(0) && p.jobs[j].message in p.inbox
    ensures Apply(p, Persist(j)) == p.(jobs := p.jobs[j := Job(p.jobs[j].message, Done)])
  {
  }

  /** An ended job never does anything again: no later step of it persists or enqueues. */
  lemma {:induction false} EndedIsFinal(p: Pipeline, steps: seq<Step>, j: nat)
    requires j in p.jobs && (p.jobs[j].stage.Done? || p.jobs[j].stage.Dead?)
    ensures var q := Run(p, steps);
            && j in q.jobs && q.jobs[j] == p.jobs[j]
            && Apply(q, Persist(j)) == Apply(q, Publish(j)) == Apply(q, Crash(j)) == q
  {
    if steps != [] {
      EndedIsFinal(p, steps[..|steps| - 1], j);
    }
  }

  /** A redelivered message, whatever happens afterwards, wakes nobody. */
  lemma DuplicateNeverWakes(p: Pipeline, j: nat, steps: seq<Step>)
    requires j in p.jobs && p.jobs[j].stage == Queued(0) && p.jobs[j].message in p.inbox
    ensures Apply(p, Persist(j)).tasks == p.tasks && Apply(p, Persist(j)).inbox == p.inbox
    ensures var q := Run(Apply(p, Persist(j)), steps);
            Apply(q, Persist(j)) == Apply(q, Publish(j)) == q
  {
    DuplicateEnds(p, j);
    EndedIsFinal(Apply(p, Persist(j)), steps, j);
  }

  predicate Distinct(inbox: seq<string>) { forall a, b :: 0 <= a < b < |inbox| ==> inbox[a] != inbox[b] }

  lemma StepKeepsDistinct(p: Pipeline, step: Step)
    requires Distinct(p.inbox)
    ensures Distinct(Apply(p, step).inbox) && p.inbox <= Apply(p, step).inbox
  {
  }

  /** On every run the inbox holds each message once. */
  lemma {:induction false} InboxIsDistinct(steps: seq<Step>)
    ensures Distinct(Run(IDLE, steps).inbox)
  {
    if steps != [] {
      InboxIsDistinct(steps[..|steps| - 1]);
      StepKeepsDistinct(Run(IDLE, steps[..|steps| - 1]), steps[|steps| - 1]);
    }
  }

  /** Step `m` of the run inserts the message of job `j`. */
  predicate InsertsAt(steps: seq<Step>, m: nat, j: nat)
    requires m < |steps|
  {
    var p, q := Run(IDLE, steps[..m]), Run(IDLE, steps[..m + 1]);
    steps[m] == Persist(j) && j in p.jobs && p.jobs[j].message !in p.inbox && q.inbox == p.inbox + [p.jobs[j].message]
  }

  lemma FirstPublishHas(p: Pipeline, step: Step, j: nat)
    requires var q := Apply(p, step); j in q.jobs && q.jobs[j].stage == ToPublish(0)
    ensures j in p.jobs
    ensures p.jobs[j].stage == ToPublish(0) ||
            (step == Persist(j) && p.jobs[j].message !in p.inbox && Apply(p, step).inbox == p.inbox + [p.jobs[j].message])
  {
  }

  /** A job on its first attempt is about to publish only if it inserted its message. */
  lemma {:induction false} FirstAttemptInserted(steps: seq<Step>, j: nat)
    requires j in Run(IDLE, steps).jobs && Run(IDLE, steps).jobs[j].stage == ToPublish(0)
    ensures exists m :: 0 <= m < |steps| && InsertsAt(steps, m, j)
  {
    var n := |steps| - 1;
    var p := Run(IDLE, steps[..n]);
    FirstPublishHas(p, steps[n], j);
    if p.jobs[j].stage == ToPublish(0) {
      FirstAttemptInserted(steps[..n], j);
      var m :| 0 <= m < n && InsertsAt(steps[..n], m, j);
      assert steps[..n][..m] == steps[..m] && steps[..n][..m + 1] == steps[..m + 1];
      assert InsertsAt(steps, m, j);
    } else {
      assert steps[..n + 1] == steps;
      assert InsertsAt(steps, n, j);
    }
  }

  /** A retry publishes again even when its message is already in the inbox, and after
      two retries the job is dead. */
  lemma RetryExactly(p: Pipeline, j: nat)
    requires j in p.jobs
    ensures p.jobs[j].stage.Queued? && p.jobs[j].stage.retry > 0 ==>
      var q := Apply(p, Persist(j));
      q.jobs[j].stage == ToPublish(p.jobs[j].stage.retry) && p.jobs[j].message in q.inbox
    ensures Pending(p, j) ==>
      var stage := Apply(p, Crash(j)).jobs[j].stage;
      (stage.Dead? <==> p.jobs[j].stage.retry >= 2) && (!stage.Dead? ==> stage == Queued(p.jobs[j].stage.retry + 1))
  {
  }

  /** A message's task starts three seconds after it was enqueued, and no earlier. */
  lemma WaitsThreeSeconds(p: Pipeline, j: nat, now: int)
    requires j in p.jobs && p.jobs[j].stage.ToPublish? && Fixed !in p.tasks && p.clock <= now
    ensures var q := Apply(Apply(p, Publish(j)), Tick(now));
            Fixed in q.tasks && (Apply(q, Start(Fixed)) != q <==> p.clock + 3000 <= now)
  {
  }

  /** A pass wakes another one exactly when messages arrived since it took its mark. */
  lemma PassWakesExactly(p: Pipeline, id: TaskId, arrived: seq<string>, now: int)
    requires Frame(p) && id in p.tasks && p.tasks[id] == Started && p.clock <= now
    ensures var q := Apply(p, TakeMark(id)).(inbox := p.inbox + arrived, clock := now);
            Apply(q, Recheck(id)).tasks.Keys == p.tasks.Keys + if arrived == [] then {} else {Fresh(now)}
  {
  }

  // ---- the failing case as a run -------------------------------------------------------------------

  lemma RunMore(p: Pipeline, steps: seq<Step>, step: Step)
    ensures Run(p, steps + [step]) == Apply(Run(p, steps), step)
  {
    assert (steps + [step])[..|steps|] == steps;
  }

  predicate NoFailure(steps: seq<Step>) { forall step <- steps :: !step.Fail? && !step.Crash? && !step.Overlook? }

  /** A first message is persisted, published, and its pass starts. */
  lemma PassStarts() returns (steps: seq<Step>)
    ensures NoFailure(steps)
    ensures Run(IDLE, steps) == Pipeline(["a"], map[0 := Job("a", Done)], map[Fixed := Started], 0, DELAY)
  {
    steps := [] + [Arrive(0, "a")];
    RunMore(IDLE, [], Arrive(0, "a"));
    assert Run(IDLE, steps) == Pipeline([], map[0 := Job("a", Queued(0))], map[], 0, 0);
    RunMore(IDLE, steps, Persist(0));
    steps := steps + [Persist(0)];
    assert Run(IDLE, steps) == Pipeline(["a"], map[0 := Job("a", ToPublish(0))], map[], 0, 0);
    RunMore(IDLE, steps, Publish(0));
    steps := steps + [Publish(0)];
    assert Run(IDLE, steps) == Pipeline(["a"], map[0 := Job("a", Done)], map[Fixed := Scheduled(DELAY)], 0, 0);
    RunMore(IDLE, steps, Tick(DELAY));
    steps := steps + [Tick(DELAY)];
    RunMore(IDLE, steps, Start(Fixed));
    steps := steps + [Start(Fixed)];
  }

  /** ... takes its mark and makes its re-check. */
  lemma PassRechecked() returns (steps: seq<Step>)
    ensures NoFailure(steps)
    ensures Run(IDLE, steps) == Pipeline(["a"], map[0 := Job("a", Done)], map[Fixed := Rechecked(1)], 1, DELAY)
  {
    steps := PassStarts();
    RunMore(IDLE, steps, TakeMark(Fixed));
    steps := steps + [TakeMark(Fixed)];
    assert Run(IDLE, steps) == Pipeline(["a"], map[0 := Job("a", Done)], map[Fixed := Marked(1)], 1, DELAY);
    RunMore(IDLE, steps, Recheck(Fixed));
    steps := steps + [Recheck(Fixed)];
  }

  lemma SecondArrives(before: seq<Step>) returns (steps: seq<Step>)
    requires NoFailure(before)
    requires Run(IDLE, before) == Pipeline(["a"], map[0 := Job("a", Done)], map[Fixed := Rechecked(1)], 1, DELAY)
    ensures NoFailure(steps)
    ensures Run(IDLE, steps)
         == Pipeline(["a", "b"], map[0 := Job("a", Done), 1 := Job("b", ToPublish(0))], map[Fixed := Rechecked(1)], 1, DELAY)
  {
    RunMore(IDLE, before, Arrive(1, "b"));
    steps := before + [Arrive(1, "b")];
    RunMore(IDLE, steps, Persist(1));
    steps := steps + [Persist(1)];
  }

  /** The second enqueue meets the task that is about to complete. */
  lemma SecondDropped(before: seq<Step>) returns (steps: seq<Step>)
    requires NoFailure(before)
    requires Run(IDLE, before)
          == Pipeline(["a", "b"], map[0 := Job("a", Done), 1 := Job("b", ToPublish(0))], map[Fixed := Rechecked(1)], 1, DELAY)
    ensures NoFailure(steps)
    ensures Run(IDLE, steps) == Pipeline(["a", "b"], map[0 := Job("a", Done), 1 := Job("b", Done)], map[], 1, DELAY)
  {
    RunMore(IDLE, before, Publish(1));
    steps := before + [Publish(1)];
    RunMore(IDLE, steps, Complete(Fixed));
    steps := steps + [Complete(Fixed)];
  }

  /** Without any failure, a message persisted and published between a pass's
      re-check and its completion wakes nobody: its enqueue is dropped against
      the task that is about to disappear. */
  lemma SplitRecheckLosesWakeup()
    ensures exists steps ::
              && NoFailure(steps) && Run(IDLE, steps).tasks == map[]
              && (forall j <- Run(IDLE, steps).jobs :: Run(IDLE, steps).jobs[j].stage.Done?)
              && Run(IDLE, steps).seen < |Run(IDLE, steps).inbox|
  {
    var steps := PassRechecked();
    steps := SecondArrives(steps);
    steps := SecondDropped(steps);
    assert Run(IDLE, steps) == Pipeline(["a", "b"], map[0 := Job("a", Done), 1 := Job("b", Done)], map[], 1, DELAY);
  }

  // ---- the handlers ---------------------------------------------------------------------

  class CustomerPipeline {
    var inbox: seq<string>
    var jobs: map<nat, Job>
    var tasks: map<TaskId, Phase>
    var clock: int
    ghost var seen: nat

    ghost function Now(): Pipeline
      reads this
    {
      Pipeline(inbox, jobs, tasks, seen, clock)
    }

    constructor ()
      ensures Now() == IDLE
    {
      inbox, jobs, tasks, clock, seen := [], map[], map[], 0, 0;
    }

    /** Publishes a task; a duplicate id is silently dropped. */
    method Publish(id: TaskId)
      modifies `tasks
      ensures tasks == Enqueue(old(tasks), id, clock)
    {
      if id in tasks {
        return;
      }
      tasks := tasks[id := Scheduled(clock + DELAY)];
    }

    /** First half of HandleWebhookJob: the inbox transaction. Returns whether
        the job goes on to publish. */
    method PersistInbound(j: nat) returns (goOn: bool)
      requires j in jobs && jobs[j].stage.Queued?
      modifies `inbox, `jobs
      ensures Now() == Apply(old(Now()), Persist(j))
      ensures goOn <==> jobs[j].stage.ToPublish?
    {
      var job := jobs[j];
      var inserted := false;
      if job.message !in inbox {
        inbox := inbox + [job.message];
        inserted := true;
      }
      if !inserted && job.stage.retry == 0 {
        jobs := jobs[j := job.(stage := Done)];
        return false;
      }
      jobs := jobs[j := job.(stage := ToPublish(job.stage.retry))];
      return true;
    }

    /** Second half: the enqueue outside the transaction; a failure sends the job
        back to be retried, or ends it when no retry is left. */
    method PublishDebounced(j: nat, ok: bool)
      requires j in jobs && jobs[j].stage.ToPublish?
      modifies `jobs, `tasks
      ensures Now() == Apply(old(Now()), if ok then Step.Publish(j) else Crash(j))
    {
      if !ok {
        jobs := jobs[j := jobs[j].(stage := Retried(jobs[j].stage))];
        return;
      }
      Publish(Fixed);
      jobs := jobs[j := jobs[j].(stage := Done)];
    }

    /** The count taken before a pass does anything else. */
    method InboundMark(id: TaskId) returns (mark: nat)
      requires id in tasks && tasks[id] == Started
      modifies `tasks, `seen
      ensures Now() == Apply(old(Now()), TakeMark(id)) && mark == |inbox|
    {
      mark := |inbox|;
      tasks := tasks[id := Marked(mark)];
      seen := if seen < mark then mark else seen;
    }

    /** The end of a pass: the re-check, under a fresh id, whose own errors are
        swallowed; or, for a failed one, the discarded task. The queue lets go of a
        re-checked task some time later. */
    method EndPass(id: TaskId, mark: nat, failed: bool, counted: bool, enqueued: bool)
      requires id in tasks && tasks[id] == Marked(mark)
      modifies `tasks
      ensures Now() == Apply(old(Now()),
        if failed then Fail(id) else if !counted || (mark < |inbox| && !enqueued) then Overlook(id) else Recheck(id))
    {
      if failed {
        tasks := tasks - {id};
        return;
      }
      if counted {
        var current := |inbox|;
        if mark < current && enqueued {
          Publish(Fresh(clock));
        }
      }
      tasks := tasks[id := Rechecked(mark)];
    }
  }
}
