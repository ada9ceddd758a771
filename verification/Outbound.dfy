/** Delivery of one conversation's outbound rows by any number of concurrent
    tasks: a status read before the lock, a backlog read inside it, one send and
    one status write at a time. A row's seq is its index. */
module Outbound {
  import opened Common

  /** Allocated is a row whose sequence number is taken but whose insert has not
      committed; Verdict stands for the failed_* compliance statuses. */
  datatype Status = Allocated | Pending | Sent | Failed | Verdict

  datatype Phase =
    | Waiting(own: nat, finalAttempt: bool)
    | Holding(own: nat, finalAttempt: bool, backlog: seq<nat>)

  datatype Thread = Thread(
    rows: seq<Status>,
    tasks: map<nat, Phase>,
    lock: Option<nat>,
    log: seq<nat>)          // rows that reached the customer's phone, in order

  predicate Skips(s: Status) { s in {Sent, Verdict} }

  /** The pending rows up to and including `own`, in seq order. */
  function Backlog(rows: seq<Status>, own: nat): (r: seq<nat>)
    requires own < |rows|
    ensures Ascending(r)
    ensures forall i: nat :: i in r <==> i <= own && rows[i] == Pending
  {
    PendingBelow(rows, own + 1)
  }

  predicate Ascending(s: seq<nat>) { forall a, b :: 0 <= a < b < |s| ==> s[a] < s[b] }

  function PendingBelow(rows: seq<Status>, n: nat): (r: seq<nat>)
    requires n <= |rows|
    ensures Ascending(r)
    ensures forall i: nat :: i in r <==> i < n && rows[i] == Pending
  {
    if n == 0 then []
    else
      var r := PendingBelow(rows, n - 1);
      if rows[n - 1] == Pending then
        assert forall a :: 0 <= a < |r| ==> r[a] in r;
        r + [n - 1]
      else r
  }

  datatype Step =
    | Allocate
    | Commit(row: nat, status: Status)
    | Load(task: nat, own: nat, finalAttempt: bool)
    | Acquire(task: nat)
    | Send(task: nat, sent: bool, written: bool)
    | Release(task: nat)
    | Sever(task: nat)             // the connection breaks: the lock is gone, the pass goes on
    | Die(task: nat)               // the process dies, and connection and lock with it

  predicate Holds(t: Thread, task: nat) { task in t.tasks && t.tasks[task].Holding? }

  predicate HasLock(t: Thread, task: nat) { t.lock == Some(task) }

  /** A send goes through the provider; its status write needs the connection
      that holds the lock. */
  function SendHead(t: Thread, task: nat, sent: bool, written: bool): Thread
    requires Holds(t, task) && t.tasks[task].backlog != [] && t.tasks[task].backlog[0] < |t.rows|
  {
    var p := t.tasks[task];
    var row := p.backlog[0];
    var stored := written && HasLock(t, task);
    var status :=
      if sent && stored then Sent
      else if !sent && stored && row == p.own && p.finalAttempt then Failed
      else t.rows[row];
    t.(rows := t.rows[row := status],
       tasks := t.tasks[task := p.(backlog := p.backlog[1..])],
       log := if sent then t.log + [row] else t.log)
  }

  function Leave(t: Thread, task: nat): Thread {
    t.(tasks := t.tasks - {task}, lock := if HasLock(t, task) then None else t.lock)
  }

  function Apply(t: Thread, step: Step): Thread {
    match step
    case Allocate => t.(rows := t.rows + [Allocated])
    case Commit(i, status) =>
      if i < |t.rows| && t.rows[i] == Allocated && status in {Pending, Verdict} then t.(rows := t.rows[i := status]) else t
    case Load(task, own, finalAttempt) =>
      if task in t.tasks || own >= |t.rows| || t.rows[own] == Allocated || Skips(t.rows[own]) then t
      else t.(tasks := t.tasks[task := Waiting(own, finalAttempt)])
    case Acquire(task) =>
      if task in t.tasks && t.tasks[task].Waiting? && t.lock.None? && t.tasks[task].own < |t.rows| then
        var p := t.tasks[task];
        t.(tasks := t.tasks[task := Holding(p.own, p.finalAttempt, Backlog(t.rows, p.own))], lock := Some(task))
      else t
    case Send(task, sent, written) =>
      if Holds(t, task) && t.tasks[task].backlog != [] && t.tasks[task].backlog[0] < |t.rows| then
        SendHead(t, task, sent, written)
      else t
    case Release(task) =>
      if Holds(t, task) && t.tasks[task].backlog == [] then Leave(t, task) else t
    case Sever(task) => if HasLock(t, task) then t.(lock := None) else t
    case Die(task) =>
      if task in t.tasks then Leave(t, task) else t
  }

  function Run(t: Thread, steps: seq<Step>): Thread {
    if steps == [] then t else Apply(Run(t, steps[..|steps| - 1]), steps[|steps| - 1])
  }

  const EMPTY: Thread := Thread([], map[], None, [])

  // ---- every run ---------------------------------------------------------------------------

  /** What a pass has left to send was committed, is ascending and no newer than
      the pass's own row; while the pass has the lock all of it is still pending. */
  predicate Inv(t: Thread) {
    && (t.lock.Some? ==> Holds(t, t.lock.value))
    && (forall task <- t.tasks :: t.tasks[task].own < |t.rows| && t.rows[t.tasks[task].own] != Allocated)
    && (forall task <- t.tasks :: t.tasks[task].Holding? ==>
          Listed(t, t.tasks[task]) && (HasLock(t, task) ==> BacklogOk(t, t.tasks[task])))
  }

  predicate Listed(t: Thread, p: Phase)
    requires p.Holding?
  {
    Ascending(p.backlog)
      && forall a :: 0 <= a < |p.backlog| ==> p.backlog[a] < |t.rows| && p.backlog[a] <= p.own && t.rows[p.backlog[a]] != Allocated
  }

  predicate BacklogOk(t: Thread, p: Phase)
    requires p.Holding?
  {
    Ascending(p.backlog)
      && forall a :: 0 <= a < |p.backlog| ==> p.backlog[a] < |t.rows| && p.backlog[a] <= p.own && t.rows[p.backlog[a]] == Pending
  }

  lemma BacklogIsOk(t: Thread, own: nat, finalAttempt: bool)
    requires own < |t.rows|
    ensures BacklogOk(t, Holding(own, finalAttempt, Backlog(t.rows, own)))
  {
    var backlog := Backlog(t.rows, own);
    assert forall a :: 0 <= a < |backlog| ==> backlog[a] in backlog;
  }

  lemma AcquireKeepsInv(t: Thread, task: nat)
    requires Inv(t)
    ensures Inv(Apply(t, Acquire(task)))
  {
    if task in t.tasks && t.tasks[task].Waiting? && t.lock.None? {
      BacklogIsOk(t, t.tasks[task].own, t.tasks[task].finalAttempt);
    }
  }

  /** The sender itself goes on with the rest of its backlog. */
  lemma SenderStaysOk(t: Thread, task: nat, sent: bool, written: bool)
    requires Inv(t) && Holds(t, task) && t.tasks[task].backlog != []
    ensures var u := Apply(t, Send(task, sent, written));
            && Holds(u, task) && Listed(u, u.tasks[task])
            && (HasLock(u, task) ==> BacklogOk(u, u.tasks[task]))
  {
    assert Listed(t, t.tasks[task]);
    assert HasLock(t, task) ==> BacklogOk(t, t.tasks[task]);
  }

  lemma OthersStayOk(t: Thread, task: nat, sent: bool, written: bool, other: nat)
    requires Inv(t) && Holds(t, task) && t.tasks[task].backlog != [] && Holds(t, other) && other != task
    ensures var u := Apply(t, Send(task, sent, written));
            && u.tasks[other] == t.tasks[other] && Listed(u, u.tasks[other])
            && (HasLock(u, other) ==> BacklogOk(u, u.tasks[other]))
  {
    assert Listed(t, t.tasks[task]) && Listed(t, t.tasks[other]);
    assert HasLock(t, other) ==> BacklogOk(t, t.tasks[other]);
  }

  lemma SendKeepsInv(t: Thread, task: nat, sent: bool, written: bool)
    requires Inv(t)
    ensures Inv(Apply(t, Send(task, sent, written)))
  {
    if Holds(t, task) && t.tasks[task].backlog != [] {
      var u := Apply(t, Send(task, sent, written));
      assert Listed(t, t.tasks[task]);
      SenderStaysOk(t, task, sent, written);
      forall other <- u.tasks | other != task && u.tasks[other].Holding?
        ensures Listed(u, u.tasks[other]) && (HasLock(u, other) ==> BacklogOk(u, u.tasks[other]))
      {
        OthersStayOk(t, task, sent, written, other);
      }
    }
  }

  /** Rows that change only from Allocated leave every pass alone. */
  lemma CommitKeepsInv(t: Thread, i: nat, status: Status)
    requires Inv(t)
    ensures Inv(Apply(t, Commit(i, status))) && Inv(Apply(t, Allocate))
  {
    var u, v := Apply(t, Commit(i, status)), Apply(t, Allocate);
    forall task <- t.tasks | t.tasks[task].Holding?
      ensures Listed(u, t.tasks[task]) && Listed(v, t.tasks[task])
      ensures HasLock(t, task) ==> BacklogOk(u, t.tasks[task]) && BacklogOk(v, t.tasks[task])
    {
      assert Listed(t, t.tasks[task]);
      assert HasLock(t, task) ==> BacklogOk(t, t.tasks[task]);
    }
  }

  lemma LoadKeepsInv(t: Thread, task: nat, own: nat, finalAttempt: bool)
    requires Inv(t)
    ensures Inv(Apply(t, Load(task, own, finalAttempt)))
  {
  }

  lemma LeaveKeepsInv(t: Thread, task: nat)
    requires Inv(t) && task in t.tasks
    ensures Inv(Leave(t, task))
  {
  }

  lemma SeverKeepsInv(t: Thread, task: nat)
    requires Inv(t)
    ensures Inv(Apply(t, Sever(task)))
  {
  }

  lemma StepKeepsInv(t: Thread, step: Step)
    requires Inv(t)
    ensures Inv(Apply(t, step))
  {
    match step
    case Acquire(task) => AcquireKeepsInv(t, task);
    case Send(task, sent, written) => SendKeepsInv(t, task, sent, written);
    case Commit(i, status) => CommitKeepsInv(t, i, status);
    case Allocate => CommitKeepsInv(t, 0, Pending);
    case Load(task, own, finalAttempt) => LoadKeepsInv(t, task, own, finalAttempt);
    case Sever(task) => SeverKeepsInv(t, task);
    case Release(task) => if task in t.tasks { LeaveKeepsInv(t, task); }
    case Die(task) => if task in t.tasks { LeaveKeepsInv(t, task); }
  }

  lemma {:induction false} RunKeepsInv(t: Thread, steps: seq<Step>)
    requires Inv(t)
    ensures Inv(Run(t, steps))
  {
    if steps != [] {
      RunKeepsInv(t, steps[..|steps| - 1]);
      StepKeepsInv(Run(t, steps[..|steps| - 1]), steps[|steps| - 1]);
    }
  }

  // ---- how a row gets its status ------------------------------------------------------------

  /** The step records `status` for row `i`: a send whose write goes through, made by a
      pass that has the lock and has come to the row. A failure is recorded only by the
      final attempt of the row's own task. */
  predicate Marks(t: Thread, step: Step, i: nat, status: Status) {
    && step.Send? && step.written && Holds(t, step.task) && HasLock(t, step.task)
    && t.tasks[step.task].backlog != [] && t.tasks[step.task].backlog[0] == i
    && (if step.sent then status == Sent
        else status == Failed && t.tasks[step.task].own == i && t.tasks[step.task].finalAttempt)
  }

  /** Sent and Failed are final, and only such a step gives them. */
  lemma MarksExactly(t: Thread, step: Step, i: nat, status: Status)
    requires Inv(t) && i < |t.rows| && status in {Sent, Failed}
    ensures i < |Apply(t, step).rows|
    ensures Apply(t, step).rows[i] == status <==> t.rows[i] == status || Marks(t, step, i, status)
  {
    if step.Send? && Holds(t, step.task) && t.tasks[step.task].backlog != [] {
      assert Listed(t, t.tasks[step.task]);
      assert HasLock(t, step.task) ==> BacklogOk(t, t.tasks[step.task]);
    }
  }

  predicate MarksAt(steps: seq<Step>, k: nat, i: nat, status: Status)
    requires k < |steps|
  {
    Marks(Run(EMPTY, steps[..k]), steps[k], i, status)
  }

  /** On every run a row is Failed if and only if the final attempt of its own task
      failed to send it and could record that, and Sent if and only if some pass sent it
      and could record that. */
  lemma {:induction false} StatusHasCause(steps: seq<Step>, i: nat, status: Status)
    requires status in {Sent, Failed}
    ensures i < |Run(EMPTY, steps).rows| && Run(EMPTY, steps).rows[i] == status
       <==> exists k :: 0 <= k < |steps| && MarksAt(steps, k, i, status)
  {
    if steps != [] {
      var n := |steps| - 1;
      StatusHasCause(steps[..n], i, status);
      RunKeepsInv(EMPTY, steps[..n]);
      StatusNext(steps, i, status);
      forall k | 0 <= k < n ensures MarksAt(steps, k, i, status) <==> MarksAt(steps[..n], k, i, status) {
        assert steps[..n][..k] == steps[..k];
      }
    }
  }

  lemma StatusNext(steps: seq<Step>, i: nat, status: Status)
    requires status in {Sent, Failed} && steps != [] && Inv(Run(EMPTY, steps[..|steps| - 1]))
    ensures var n := |steps| - 1;
            var t, u := Run(EMPTY, steps[..n]), Run(EMPTY, steps);
            (i < |u.rows| && u.rows[i] == status) <==> (i < |t.rows| && t.rows[i] == status) || MarksAt(steps, n, i, status)
  {
    var n := |steps| - 1;
    var t := Run(EMPTY, steps[..n]);
    if i < |t.rows| {
      MarksExactly(t, steps[n], i, status);
    } else {
      NewRowIsUnmarked(t, steps[n], i, status);
    }
  }

  lemma NewRowIsUnmarked(t: Thread, step: Step, i: nat, status: Status)
    requires Inv(t) && i >= |t.rows| && status in {Sent, Failed}
    ensures !Marks(t, step, i, status)
    ensures i < |Apply(t, step).rows| ==> Apply(t, step).rows[i] == Allocated
  {
    if step.Send? && Holds(t, step.task) && t.tasks[step.task].backlog != [] {
      assert Listed(t, t.tasks[step.task]);
    }
  }

  /** A task gets the lock exactly when nobody has it, and then lists the pending rows up
      to its own; the lock is free again when it has sent them all, dies or loses its
      connection, and only in the last case does its pass go on. */
  lemma LockExactly(t: Thread, task: nat)
    requires Inv(t)
    ensures task in t.tasks && t.tasks[task].Waiting? ==>
      var u, own := Apply(t, Acquire(task)), t.tasks[task].own;
      && (HasLock(u, task) <==> t.lock.None?)
      && (t.lock.None? ==>
           (Holds(u, task) && u.tasks[task].own == own
             && forall i: nat :: i in u.tasks[task].backlog <==> i <= own && t.rows[i] == Pending))
    ensures HasLock(t, task) ==>
      && Apply(t, Die(task)) == t.(tasks := t.tasks - {task}, lock := None)
      && Apply(t, Sever(task)) == t.(lock := None)
      && Apply(t, Release(task)) == if t.tasks[task].backlog == [] then t.(tasks := t.tasks - {task}, lock := None) else t
  {
  }

  /** An insert commits once, as pending or with a verdict. */
  lemma CommitExactly(t: Thread, i: nat, status: Status)
    requires i < |t.rows| && status in {Pending, Verdict}
    ensures var u := Apply(t, Commit(i, status));
            u == if t.rows[i] == Allocated then t.(rows := t.rows[i := status]) else t
  {
  }

  predicate NoVerdict(t: Thread, p: Phase) {
    p.Holding? ==> forall a :: 0 <= a < |p.backlog| ==> p.backlog[a] < |t.rows| && t.rows[p.backlog[a]] !in {Allocated, Verdict}
  }

  /** Nothing that is uncommitted or carries a verdict was sent or is listed. */
  predicate Withheld(t: Thread) {
    && (forall row <- t.log :: row < |t.rows| && t.rows[row] !in {Allocated, Verdict})
    && (forall task <- t.tasks :: NoVerdict(t, t.tasks[task]))
  }

  lemma SendKeepsWithheld(t: Thread, task: nat, sent: bool, written: bool)
    requires Withheld(t)
    ensures Withheld(Apply(t, Send(task, sent, written)))
  {
    if Holds(t, task) && t.tasks[task].backlog != [] {
      var u := Apply(t, Send(task, sent, written));
      assert NoVerdict(t, t.tasks[task]);
      forall other <- u.tasks ensures NoVerdict(u, u.tasks[other]) {
        assert NoVerdict(t, t.tasks[other]);
      }
    }
  }

  lemma AcquireKeepsWithheld(t: Thread, task: nat)
    requires Withheld(t)
    ensures Withheld(Apply(t, Acquire(task)))
  {
    if task in t.tasks && t.tasks[task].Waiting? && t.lock.None? && t.tasks[task].own < |t.rows| {
      BacklogIsOk(t, t.tasks[task].own, t.tasks[task].finalAttempt);
    }
  }

  lemma CommitKeepsWithheld(t: Thread, i: nat, status: Status)
    requires Withheld(t)
    ensures Withheld(Apply(t, Commit(i, status))) && Withheld(Apply(t, Allocate))
  {
    var u, v := Apply(t, Commit(i, status)), Apply(t, Allocate);
    forall task <- t.tasks ensures NoVerdict(u, t.tasks[task]) && NoVerdict(v, t.tasks[task]) {
      assert NoVerdict(t, t.tasks[task]);
    }
  }

  lemma StepKeepsWithheld(t: Thread, step: Step)
    requires Withheld(t)
    ensures Withheld(Apply(t, step))
  {
    match step
    case Send(task, sent, written) => SendKeepsWithheld(t, task, sent, written);
    case Acquire(task) => AcquireKeepsWithheld(t, task);
    case Commit(i, status) => CommitKeepsWithheld(t, i, status);
    case Allocate => CommitKeepsWithheld(t, 0, Pending);
    case _ =>
  }

  /** A row with a compliance verdict never goes out, and neither does one whose
      insert has not committed. */
  lemma {:induction false} VerdictNeverSent(steps: seq<Step>)
    ensures Withheld(Run(EMPTY, steps))
  {
    if steps != [] {
      VerdictNeverSent(steps[..|steps| - 1]);
      StepKeepsWithheld(Run(EMPTY, steps[..|steps| - 1]), steps[|steps| - 1]);
    }
  }

  /** A task starts for a committed row that is pending or failed, and for no other. */
  lemma LoadExactly(t: Thread, task: nat, own: nat, finalAttempt: bool)
    requires task !in t.tasks
    ensures task in Apply(t, Load(task, own, finalAttempt)).tasks <==> own < |t.rows| && t.rows[own] in {Pending, Failed}
    ensures var u := Apply(t, Load(task, own, finalAttempt));
            u.rows == t.rows && u.log == t.log && u.lock == t.lock
            && (task in u.tasks ==> u.tasks == t.tasks[task := Waiting(own, finalAttempt)])
  {
  }

  // ---- while no pass outlives its lock --------------------------------------------------------

  /** Exactly the lock's owner is in its backlog loop. */
  predicate Exclusive(t: Thread) {
    Inv(t) && forall task <- t.tasks :: t.tasks[task].Holding? ==> HasLock(t, task)
  }

  lemma StepKeepsExclusive(t: Thread, step: Step)
    requires Exclusive(t) && !step.Sever?
    ensures Exclusive(Apply(t, step))
  {
    StepKeepsInv(t, step);
  }

  lemma SendKeepsExclusive(t: Thread, task: nat, sent: bool, written: bool)
    requires Exclusive(t)
    ensures Exclusive(Apply(t, Send(task, sent, written)))
  {
    StepKeepsExclusive(t, Send(task, sent, written));
  }

  lemma {:induction false} RunKeepsExclusive(steps: seq<Step>)
    requires forall k :: 0 <= k < |steps| ==> !steps[k].Sever?
    ensures Exclusive(Run(EMPTY, steps))
  {
    if steps != [] {
      RunKeepsExclusive(steps[..|steps| - 1]);
      StepKeepsExclusive(Run(EMPTY, steps[..|steps| - 1]), steps[|steps| - 1]);
    }
  }

  function Times(log: seq<nat>, row: nat): nat {
    if log == [] then 0 else Times(log[..|log| - 1], row) + (if log[|log| - 1] == row then 1 else 0)
  }

  lemma TimesAppend(log: seq<nat>, x: nat, row: nat)
    ensures Times(log + [x], row) == Times(log, row) + (if x == row then 1 else 0)
  {
    assert (log + [x])[..|log|] == log;
  }

  /** The step that sends `row` once more: a pass that still lists it. */
  predicate Resends(t: Thread, step: Step, row: nat) {
    step.Send? && step.sent && Holds(t, step.task) && t.tasks[step.task].backlog != [] && t.tasks[step.task].backlog[0] == row
  }

  /** A row recorded sent stays recorded sent, and a step sends it again if and
      only if a pass that has lost its lock has come to it in its backlog. */
  lemma ResentExactly(t: Thread, step: Step, row: nat)
    requires Inv(t) && row < |t.rows| && t.rows[row] == Sent
    ensures var u := Apply(t, step);
            && row < |u.rows| && u.rows[row] == Sent
            && Times(u.log, row) == Times(t.log, row) + (if Resends(t, step, row) then 1 else 0)
    ensures Resends(t, step, row) ==> !HasLock(t, step.task)
  {
    if step.Send? && Holds(t, step.task) && t.tasks[step.task].backlog != [] {
      TimesAppend(t.log, t.tasks[step.task].backlog[0], row);
      assert Listed(t, t.tasks[step.task]);
      assert HasLock(t, step.task) ==> BacklogOk(t, t.tasks[step.task]);
    }
  }

  /** With the lock held throughout, a row recorded sent is not sent by the next step. */
  lemma SentIsFinal(t: Thread, step: Step, row: nat)
    requires Exclusive(t) && row < |t.rows| && t.rows[row] == Sent
    ensures var u := Apply(t, step);
            row < |u.rows| && u.rows[row] == Sent && Times(u.log, row) == Times(t.log, row)
  {
    ResentExactly(t, step, row);
  }

  ghost predicate Listing(t: Thread, row: nat) {
    exists task :: Holds(t, task) && row in t.tasks[task].backlog
  }

  lemma UnlistedStays(t: Thread, step: Step, row: nat)
    requires Inv(t) && row < |t.rows| && t.rows[row] == Sent && !Listing(t, row)
    ensures !Listing(Apply(t, step), row) && !Resends(t, step, row)
  {
    var u := Apply(t, step);
    forall task | Holds(u, task) ensures row !in u.tasks[task].backlog {
      assert Holds(t, task) ==> row !in t.tasks[task].backlog;
    }
    if step.Send? && Holds(t, step.task) && t.tasks[step.task].backlog != [] {
      assert t.tasks[step.task].backlog[0] in t.tasks[step.task].backlog;
    }
  }

  lemma {:induction false} UnlistedNeverResent(t: Thread, steps: seq<Step>, row: nat)
    requires Inv(t) && row < |t.rows| && t.rows[row] == Sent && !Listing(t, row)
    ensures var u := Run(t, steps);
            row < |u.rows| && u.rows[row] == Sent && !Listing(u, row) && Times(u.log, row) == Times(t.log, row)
  {
    if steps != [] {
      var n := |steps| - 1;
      UnlistedNeverResent(t, steps[..n], row);
      RunKeepsInv(t, steps[..n]);
      UnlistedStays(Run(t, steps[..n]), steps[n], row);
      ResentExactly(Run(t, steps[..n]), steps[n], row);
    }
  }

  function Sends(task: nat, k: nat): seq<Step> { if k == 0 then [] else Sends(task, k - 1) + [Send(task, true, false)] }

  /** `u` follows `t` by sends of `task`, which has come to index `k` of its backlog. */
  predicate CameTo(t: Thread, u: Thread, task: nat, row: nat, k: nat) {
    && Holds(t, task) && k <= |t.tasks[task].backlog|
    && Inv(u) && Holds(u, task) && u.tasks[task].backlog == t.tasks[task].backlog[k..]
    && row < |u.rows| && u.rows[row] == Sent && Times(t.log, row) <= Times(u.log, row)
  }

  lemma ComesToNext(t: Thread, u: Thread, task: nat, row: nat, k: nat)
    requires CameTo(t, u, task, row, k) && k < |t.tasks[task].backlog|
    ensures CameTo(t, Apply(u, Send(task, true, false)), task, row, k + 1)
  {
    PassIsIncreasing(u, task, true, false);
    SendKeepsInv(u, task, true, false);
    ResentExactly(u, Send(task, true, false), row);
    assert t.tasks[task].backlog[k..][1..] == t.tasks[task].backlog[k + 1..];
  }

  /** A pass can always go on: k sends bring it to the k-th row it lists. */
  lemma {:induction false} PassGoesOn(t: Thread, task: nat, row: nat, k: nat)
    requires Inv(t) && Holds(t, task) && k <= |t.tasks[task].backlog| && row < |t.rows| && t.rows[row] == Sent
    ensures CameTo(t, Run(t, Sends(task, k)), task, row, k)
  {
    if k > 0 {
      PassGoesOn(t, task, row, k - 1);
      GoesOneOn(t, task, row, k);
    }
  }

  lemma GoesOneOn(t: Thread, task: nat, row: nat, k: nat)
    requires 0 < k && CameTo(t, Run(t, Sends(task, k - 1)), task, row, k - 1) && k <= |t.tasks[task].backlog|
    ensures CameTo(t, Run(t, Sends(task, k)), task, row, k)
  {
    RunNext(t, Sends(task, k - 1), Send(task, true, false));
    ComesToNext(t, Run(t, Sends(task, k - 1)), task, row, k - 1);
  }

  lemma RunNext(t: Thread, steps: seq<Step>, step: Step)
    ensures Run(t, steps + [step]) == Apply(Run(t, steps), step)
  {
    assert (steps + [step])[..|steps|] == steps;
  }

  lemma ListedIsResent(t: Thread, row: nat) returns (steps: seq<Step>)
    requires Inv(t) && row < |t.rows| && t.rows[row] == Sent && Listing(t, row)
    ensures Times(Run(t, steps).log, row) > Times(t.log, row)
  {
    var task :| Holds(t, task) && row in t.tasks[task].backlog;
    var k :| 0 <= k < |t.tasks[task].backlog| && t.tasks[task].backlog[k] == row;
    PassGoesOn(t, task, row, k);
    SendsAgain(t, Run(t, Sends(task, k)), task, row, k);
    RunNext(t, Sends(task, k), Send(task, true, false));
    steps := Sends(task, k) + [Send(task, true, false)];
  }

  lemma SendsAgain(t: Thread, u: Thread, task: nat, row: nat, k: nat)
    requires CameTo(t, u, task, row, k) && k < |t.tasks[task].backlog| && t.tasks[task].backlog[k] == row
    ensures Times(Apply(u, Send(task, true, false)).log, row) > Times(t.log, row)
  {
    ResentExactly(u, Send(task, true, false), row);
  }

  /** A row recorded sent goes out again on some continuation if and only if some
      pass, which must have lost its lock, still has it in its backlog. */
  lemma ResentLaterExactly(t: Thread, row: nat)
    requires Inv(t) && row < |t.rows| && t.rows[row] == Sent
    ensures (exists steps :: Times(Run(t, steps).log, row) > Times(t.log, row)) <==> Listing(t, row)
    ensures forall task :: Holds(t, task) && row in t.tasks[task].backlog ==> !HasLock(t, task)
  {
    if Listing(t, row) {
      var steps := ListedIsResent(t, row);
      assert Times(Run(t, steps).log, row) > Times(t.log, row);
    } else {
      forall steps: seq<Step> ensures Times(Run(t, steps).log, row) == Times(t.log, row) {
        UnlistedNeverResent(t, steps, row);
      }
    }
    forall task | Holds(t, task) && row in t.tasks[task].backlog ensures !HasLock(t, task) {
      OnlyOrphansList(t, task, row);
    }
  }

  lemma OnlyOrphansList(t: Thread, task: nat, row: nat)
    requires Inv(t) && row < |t.rows| && t.rows[row] == Sent && Holds(t, task) && row in t.tasks[task].backlog
    ensures !HasLock(t, task)
  {
  }

  /** The failing case as a run: task 0 sends row 0 on a broken connection, task 1
      takes the lock and delivers both rows, task 0 goes on and sends row 1 again. */
  lemma OrphanedPassResends()
    ensures exists steps :: Run(EMPTY, steps).rows == [Sent, Sent] && Run(EMPTY, steps).log == [0, 0, 1, 1]
  {
    var steps := TwoWaiting();
    RunNext(EMPTY, steps, Acquire(0));
    steps := steps + [Acquire(0)];
    BacklogOfTwo();
    var t1 := Run(EMPTY, steps);
    assert t1 == Thread([Pending, Pending], map[0 := Holding(1, false, [0, 1]), 1 := Waiting(1, false)], Some(0), []);
    RunNext(EMPTY, steps, Sever(0));
    steps := steps + [Sever(0)];
    RunNext(EMPTY, steps, Send(0, true, true));
    steps := steps + [Send(0, true, true)];
    var t2 := Run(EMPTY, steps);
    assert t2.rows == [Pending, Pending];
    assert t2.tasks == map[0 := Holding(1, false, [1]), 1 := Waiting(1, false)];
    OrphanGoesOn(steps);
  }

  lemma BacklogOfTwo()
    ensures Backlog([Pending, Pending], 1) == [0, 1]
  {
    assert PendingBelow([Pending, Pending], 0) == [];
    assert PendingBelow([Pending, Pending], 1) == [0];
  }

  lemma TwoWaiting() returns (steps: seq<Step>)
    ensures Run(EMPTY, steps) == Thread([Pending, Pending], map[0 := Waiting(1, false), 1 := Waiting(1, false)], None, [])
  {
    steps := [] + [Allocate];
    RunNext(EMPTY, [], Allocate);
    RunNext(EMPTY, steps, Allocate);
    steps := steps + [Allocate];
    RunNext(EMPTY, steps, Commit(0, Pending));
    steps := steps + [Commit(0, Pending)];
    RunNext(EMPTY, steps, Commit(1, Pending));
    steps := steps + [Commit(1, Pending)];
    assert Run(EMPTY, steps) == Thread([Pending, Pending], map[], None, []);
    RunNext(EMPTY, steps, Load(0, 1, false));
    steps := steps + [Load(0, 1, false)];
    RunNext(EMPTY, steps, Load(1, 1, false));
    steps := steps + [Load(1, 1, false)];
  }

  lemma OrphanGoesOn(before: seq<Step>)
    requires Run(EMPTY, before)
          == Thread([Pending, Pending], map[0 := Holding(1, false, [1]), 1 := Waiting(1, false)], None, [0])
    ensures exists steps :: Run(EMPTY, steps).rows == [Sent, Sent] && Run(EMPTY, steps).log == [0, 0, 1, 1]
  {
    var steps := SecondTaskDelivers(before);
    RunNext(EMPTY, steps, Send(0, true, true));
    assert Run(EMPTY, steps + [Send(0, true, true)]).log == [0, 0, 1, 1];
  }

  lemma SecondTaskDelivers(before: seq<Step>) returns (steps: seq<Step>)
    requires Run(EMPTY, before)
          == Thread([Pending, Pending], map[0 := Holding(1, false, [1]), 1 := Waiting(1, false)], None, [0])
    ensures Run(EMPTY, steps)
         == Thread([Sent, Sent], map[0 := Holding(1, false, [1]), 1 := Holding(1, false, [])], Some(1), [0, 0, 1])
  {
    steps := before + [Acquire(1)];
    RunNext(EMPTY, before, Acquire(1));
    BacklogOfTwo();
    RunNext(EMPTY, steps, Send(1, true, true));
    RunNext(EMPTY, steps + [Send(1, true, true)], Send(1, true, true));
    SecondTaskSends(Run(EMPTY, steps));
    steps := steps + [Send(1, true, true)] + [Send(1, true, true)];
  }

  lemma SecondTaskSends(t: Thread)
    requires t.rows == [Pending, Pending] && t.lock == Some(1) && t.log == [0]
    requires t.tasks == map[0 := Holding(1, false, [1]), 1 := Holding(1, false, [0, 1])]
    ensures Apply(Apply(t, Send(1, true, true)), Send(1, true, true))
         == Thread([Sent, Sent], map[0 := Holding(1, false, [1]), 1 := Holding(1, false, [])], Some(1), [0, 0, 1])
  {
    var u := Apply(t, Send(1, true, true));
    assert [0, 1][1..] == [1] && [1][1..] == [];
    assert u == Thread([Sent, Pending], map[0 := Holding(1, false, [1]), 1 := Holding(1, false, [1])], Some(1), [0, 0]);
  }

  lemma RunFrom(steps: seq<Step>, k: nat)
    requires k < |steps|
    ensures Run(EMPTY, steps[..k + 1]) == Apply(Run(EMPTY, steps[..k]), steps[k])
  {
    assert steps[..k + 1][..k] == steps[..k];
  }

  /** Whatever sends or writes fail and whatever tasks die, as long as no pass
      outlives its lock: once a row is recorded sent it is never sent again. */
  lemma {:induction false} RecordedSentNeverResent(steps: seq<Step>, k: nat, row: nat)
    requires k <= |steps| && forall j :: 0 <= j < |steps| ==> !steps[j].Sever?
    requires row < |Run(EMPTY, steps[..k]).rows| && Run(EMPTY, steps[..k]).rows[row] == Sent
    ensures row < |Run(EMPTY, steps).rows| && Run(EMPTY, steps).rows[row] == Sent
    ensures Times(Run(EMPTY, steps).log, row) == Times(Run(EMPTY, steps[..k]).log, row)
    decreases |steps|
  {
    var n := |steps| - 1;
    if k == |steps| {
      assert steps[..k] == steps;
    } else {
      assert steps[..n][..k] == steps[..k];
      RecordedSentNeverResent(steps[..n], k, row);
      RunKeepsExclusive(steps[..n]);
      RunFrom(steps, n);
      assert steps[..n + 1] == steps;
      SentIsFinal(Run(EMPTY, steps[..n]), steps[n], row);
    }
  }

  /** Within one pass, what is sent next always has a larger seq than what the
      pass sent before: the remaining backlog only loses its smallest row. */
  lemma PassIsIncreasing(t: Thread, task: nat, sent: bool, written: bool)
    requires Inv(t) && Holds(t, task) && t.tasks[task].backlog != []
    ensures var u := Apply(t, Send(task, sent, written));
            && Holds(u, task) && u.tasks[task].backlog == t.tasks[task].backlog[1..]
            && (forall row <- u.tasks[task].backlog :: t.tasks[task].backlog[0] < row)
            && u.log == if sent then t.log + [t.tasks[task].backlog[0]] else t.log
  {
    var backlog := t.tasks[task].backlog;
    assert Listed(t, t.tasks[task]);
    forall row <- backlog[1..] ensures backlog[0] < row {
      var a :| 0 <= a < |backlog[1..]| && backlog[1..][a] == row;
      assert backlog[a + 1] == row;
    }
  }

  // ---- global order ------------------------------------------------------------------------

  /** Everything still pending is newer than everything sent, and the lock's
      owner has all older pending rows in hand, but for rows newer than whatever it
      will send. */
  predicate Ordered(t: Thread) {
    && Ascending(t.log)
    && (forall a :: 0 <= a < |t.log| ==> t.log[a] < |t.rows| && t.rows[t.log[a]] == Sent)
    && (forall a, i :: 0 <= a < |t.log| && 0 <= i < |t.rows| && t.rows[i] == Pending ==> t.log[a] < i)
    && (forall task <- t.tasks :: t.tasks[task].Holding? ==> Mindful(t, t.tasks[task]))
  }

  predicate Mindful(t: Thread, p: Phase)
    requires p.Holding?
  {
    forall i: nat :: i < |t.rows| && i <= p.own && t.rows[i] == Pending ==> i in p.backlog || NewerThan(i, p.backlog)
  }

  predicate NewerThan(i: nat, rows: seq<nat>) { forall a :: 0 <= a < |rows| ==> rows[a] < i }

  predicate Complete(t: Thread, p: Phase)
    requires p.Holding?
  {
    forall i: nat :: i < |t.rows| && i <= p.own && t.rows[i] == Pending ==> i in p.backlog
  }

  /** Sends and status writes succeed, no connection breaks, and a row commits only after every row
      that is already visible has a smaller seq. */
  predicate Healthy(t: Thread, step: Step) {
    && !step.Sever?
    && (step.Send? ==> step.sent && step.written)
    && (step.Commit? ==> forall i :: 0 <= i < |t.rows| && t.rows[i] != Allocated ==> i < step.row)
  }

  lemma SendKeepsOrdered(t: Thread, task: nat)
    requires Exclusive(t) && Ordered(t) && Holds(t, task) && t.tasks[task].backlog != []
    ensures Ordered(SendHead(t, task, true, true))
  {
    var u, p := SendHead(t, task, true, true), t.tasks[task];
    var row := p.backlog[0];
    forall i | 0 <= i < |u.rows| && u.rows[i] == Pending ensures row < i {
      PendingIsLater(t, p, i);
    }
    MindfulOfRest(t, u, p);
  }

  lemma PendingIsLater(t: Thread, p: Phase, i: nat)
    requires p.Holding? && p.backlog != [] && BacklogOk(t, p) && Mindful(t, p)
    requires i < |t.rows| && t.rows[i] == Pending && i != p.backlog[0]
    ensures p.backlog[0] < i
  {
    if i <= p.own && i in p.backlog {
      var a :| 0 <= a < |p.backlog| && p.backlog[a] == i;
    }
  }

  lemma MindfulOfRest(t: Thread, u: Thread, p: Phase)
    requires p.Holding? && p.backlog != [] && BacklogOk(t, p) && Mindful(t, p)
    requires u.rows == t.rows[p.backlog[0] := Sent]
    ensures Mindful(u, p.(backlog := p.backlog[1..]))
  {
    forall i: nat | i < |u.rows| && i <= p.own && u.rows[i] == Pending
      ensures i in p.backlog[1..] || NewerThan(i, p.backlog[1..])
    {
      if i in p.backlog {
        var a :| 0 <= a < |p.backlog| && p.backlog[a] == i;
        assert p.backlog[1..][a - 1] == i;
      }
    }
  }

  lemma CommitKeepsOrdered(t: Thread, i: nat, status: Status)
    requires Exclusive(t) && Ordered(t) && Healthy(t, Commit(i, status))
    ensures Ordered(Apply(t, Commit(i, status)))
  {
    var u := Apply(t, Commit(i, status));
    forall task <- u.tasks | u.tasks[task].Holding? ensures Mindful(u, u.tasks[task]) {
      assert Mindful(t, t.tasks[task]);
    }
  }

  lemma AcquireKeepsOrdered(t: Thread, task: nat)
    requires Exclusive(t) && Ordered(t)
    ensures Ordered(Apply(t, Acquire(task)))
  {
    var u := Apply(t, Acquire(task));
    if u != t {
      assert Mindful(u, u.tasks[task]);
      assert forall other <- u.tasks :: u.tasks[other].Holding? ==> other == task;
    }
  }

  lemma OthersKeepOrdered(t: Thread, step: Step)
    requires Ordered(t) && !step.Send? && !step.Commit? && !step.Acquire?
    ensures Ordered(Apply(t, step))
  {
    var u := Apply(t, step);
    forall task <- u.tasks | u.tasks[task].Holding? ensures Mindful(u, u.tasks[task]) {
      assert Mindful(t, t.tasks[task]);
    }
  }

  lemma StepKeepsOrdered(t: Thread, step: Step)
    requires Exclusive(t) && Ordered(t) && Healthy(t, step)
    ensures Ordered(Apply(t, step))
  {
    match step
    case Send(task, _, _) => if Holds(t, task) && t.tasks[task].backlog != [] { SendKeepsOrdered(t, task); }
    case Commit(i, status) => CommitKeepsOrdered(t, i, status);
    case Acquire(task) => AcquireKeepsOrdered(t, task);
    case _ => OthersKeepOrdered(t, step);
  }

  predicate HealthyRun(t: Thread, steps: seq<Step>) {
    forall k :: 0 <= k < |steps| ==> Healthy(Run(t, steps[..k]), steps[k])
  }

  lemma {:induction false} HealthyRunKeepsOrdered(t: Thread, steps: seq<Step>)
    requires Exclusive(t) && Ordered(t) && HealthyRun(t, steps)
    ensures Exclusive(Run(t, steps)) && Ordered(Run(t, steps))
  {
    if steps != [] {
      var front := steps[..|steps| - 1];
      forall k | 0 <= k < |front| ensures Healthy(Run(t, front[..k]), front[k]) {
        assert front[..k] == steps[..k];
      }
      HealthyRunKeepsOrdered(t, front);
      StepKeepsExclusive(Run(t, front), steps[|steps| - 1]);
      StepKeepsOrdered(Run(t, front), steps[|steps| - 1]);
    }
  }

  /** With any number of concurrent and dying tasks, when sends and writes succeed
      and rows commit in seq order, the conversation receives its messages in
      strictly increasing seq, hence each at most once. */
  lemma SendsStrictlyIncrease(steps: seq<Step>)
    requires HealthyRun(EMPTY, steps)
    ensures Ascending(Run(EMPTY, steps).log)
  {
    HealthyRunKeepsOrdered(EMPTY, steps);
  }

  // ---- the delivery task itself ---------------------------------------------------------------

  /** Whether one send reached the phone, and whether its status write succeeded. */
  datatype Outcome = Outcome(sent: bool, written: bool)

  /** The first `k` sends of a pass, as steps of the thread. */
  function SendMany(t: Thread, task: nat, outcomes: seq<Outcome>, k: nat): Thread
    requires k <= |outcomes|
  {
    if k == 0 then t
    else Apply(SendMany(t, task, outcomes, k - 1), Send(task, outcomes[k - 1].sent, outcomes[k - 1].written))
  }

  lemma SendPops(t: Thread, task: nat, sent: bool, written: bool)
    requires Exclusive(t) && Holds(t, task) && t.tasks[task].backlog != []
    ensures var u, p := Apply(t, Send(task, sent, written)), t.tasks[task];
            && Exclusive(u) && |u.rows| == |t.rows|
            && u.tasks == t.tasks[task := p.(backlog := p.backlog[1..])] && u.lock == t.lock
  {
    SendKeepsExclusive(t, task, sent, written);
    assert BacklogOk(t, t.tasks[task]);
  }

  lemma {:induction false} SendManyBacklog(t: Thread, task: nat, outcomes: seq<Outcome>, k: nat)
    requires Exclusive(t) && Holds(t, task) && k <= |outcomes| && k <= |t.tasks[task].backlog|
    ensures var u, p := SendMany(t, task, outcomes, k), t.tasks[task];
            && Exclusive(u) && |u.rows| == |t.rows|
            && u.tasks == t.tasks[task := p.(backlog := p.backlog[k..])] && u.lock == t.lock
  {
    if k > 0 {
      SendManyBacklog(t, task, outcomes, k - 1);
      var u, p := SendMany(t, task, outcomes, k - 1), t.tasks[task];
      SendPops(u, task, outcomes[k - 1].sent, outcomes[k - 1].written);
      assert p.backlog[k - 1..][1..] == p.backlog[k..];
      assert u.tasks[task].(backlog := p.backlog[k..]) == p.(backlog := p.backlog[k..]);
    }
  }

  /** A row after one delivery attempt. */
  function Delivered(status: Status, o: Outcome, markFailed: bool): Status {
    if !o.written then status else if o.sent then Sent else if markFailed then Failed else status
  }

  /** What the next send of a pass does to the rows, the log and the task. */
  lemma SendNext(t: Thread, task: nat, outcomes: seq<Outcome>, k: nat)
    requires Exclusive(t) && Holds(t, task) && k < |outcomes| && k < |t.tasks[task].backlog|
    ensures var u, p := SendMany(t, task, outcomes, k), t.tasks[task];
            var row := p.backlog[k];
            && row < |u.rows| == |t.rows|
            && SendMany(t, task, outcomes, k + 1)
               == Thread(u.rows[row := Delivered(u.rows[row], outcomes[k], row == p.own && p.finalAttempt)],
                         t.tasks[task := p.(backlog := p.backlog[k + 1..])], t.lock,
                         if outcomes[k].sent then u.log + [row] else u.log)
  {
    SendManyBacklog(t, task, outcomes, k);
    var u, p := SendMany(t, task, outcomes, k), t.tasks[task];
    assert p.backlog[k..][1..] == p.backlog[k + 1..];
    assert BacklogOk(u, u.tasks[task]);
    assert u.tasks[task].backlog[0] == p.backlog[k];
  }

  /** The rows that reached the phone in the first `k` sends of a pass. */
  function Reached(backlog: seq<nat>, outcomes: seq<Outcome>, k: nat): seq<nat>
    requires k <= |outcomes| && k <= |backlog|
  {
    if k == 0 then [] else Reached(backlog, outcomes, k - 1) + if outcomes[k - 1].sent then [backlog[k - 1]] else []
  }

  /** The row with the outcome of its attempt in pass `p`. */
  function Recorded(p: Phase, outcomes: seq<Outcome>, a: nat): Status
    requires p.Holding? && a < |outcomes| && a < |p.backlog|
  {
    Delivered(Pending, outcomes[a], p.backlog[a] == p.own && p.finalAttempt)
  }

  /** `u` is `t` after the first `k` attempts of pass `p`. */
  predicate AfterAttempts(t: Thread, u: Thread, p: Phase, outcomes: seq<Outcome>, k: nat)
    requires p.Holding? && k <= |outcomes| && k <= |p.backlog|
  {
    && |u.rows| == |t.rows| && u.log == t.log + Reached(p.backlog, outcomes, k)
    && (forall i :: 0 <= i < |t.rows| && i !in p.backlog[..k] ==> u.rows[i] == t.rows[i])
    && (forall a :: 0 <= a < k ==> p.backlog[a] < |t.rows| && u.rows[p.backlog[a]] == Recorded(p, outcomes, a))
  }

  lemma OneAttemptMore(t: Thread, u: Thread, v: Thread, p: Phase, outcomes: seq<Outcome>, k: nat)
    requires p.Holding? && BacklogOk(t, p) && k < |outcomes| && k < |p.backlog|
    requires AfterAttempts(t, u, p, outcomes, k)
    requires var row := p.backlog[k];
             && v.rows == u.rows[row := Delivered(u.rows[row], outcomes[k], row == p.own && p.finalAttempt)]
             && v.log == if outcomes[k].sent then u.log + [row] else u.log
    ensures AfterAttempts(t, v, p, outcomes, k + 1)
  {
    assert p.backlog[..k + 1] == p.backlog[..k] + [p.backlog[k]];
    assert p.backlog[k] !in p.backlog[..k];
  }

  /** A pass sends its backlog in order, one attempt per row: what reaches the
      phone is recorded sent unless the write fails, a failing row does not stop
      the ones behind it, and rows outside the backlog are untouched. */
  lemma {:induction false} PassEffect(t: Thread, task: nat, outcomes: seq<Outcome>, k: nat)
    requires Exclusive(t) && Holds(t, task) && k <= |outcomes| && k <= |t.tasks[task].backlog|
    ensures AfterAttempts(t, SendMany(t, task, outcomes, k), t.tasks[task], outcomes, k)
  {
    if k == 0 {
      NoAttempts(t, t.tasks[task], outcomes);
    } else {
      PassEffect(t, task, outcomes, k - 1);
      NextAttempt(t, task, outcomes, k - 1);
    }
  }

  lemma NoAttempts(t: Thread, p: Phase, outcomes: seq<Outcome>)
    requires p.Holding?
    ensures AfterAttempts(t, t, p, outcomes, 0)
  {
  }

  lemma NextAttempt(t: Thread, task: nat, outcomes: seq<Outcome>, k: nat)
    requires Exclusive(t) && Holds(t, task) && k < |outcomes| && k < |t.tasks[task].backlog|
    requires AfterAttempts(t, SendMany(t, task, outcomes, k), t.tasks[task], outcomes, k)
    ensures AfterAttempts(t, SendMany(t, task, outcomes, k + 1), t.tasks[task], outcomes, k + 1)
  {
    var u, v := SendMany(t, task, outcomes, k), SendMany(t, task, outcomes, k + 1);
    SendNext(t, task, outcomes, k);
    assert BacklogOk(t, t.tasks[task]);
    OneAttemptMore(t, u, v, t.tasks[task], outcomes, k);
  }

  /** What a whole pass records: each row of its backlog is Sent if it was sent and the
      write went through; the task's own row is Failed if and only if this was the final
      attempt, its send failed and the write went through; every other row of the
      backlog stays Pending, and rows outside it are untouched. */
  lemma PassRecords(t: Thread, task: nat, outcomes: seq<Outcome>, i: nat)
    requires Exclusive(t) && Holds(t, task) && |outcomes| == |t.tasks[task].backlog| && i < |t.rows|
    ensures var u, p := SendMany(t, task, outcomes, |outcomes|), t.tasks[task];
            && |u.rows| == |t.rows|
            && (i !in p.backlog ==> u.rows[i] == t.rows[i])
            && forall a :: 0 <= a < |outcomes| && p.backlog[a] == i ==>
                 && (u.rows[i] == Sent <==> outcomes[a].sent && outcomes[a].written)
                 && (u.rows[i] == Failed <==> i == p.own && p.finalAttempt && !outcomes[a].sent && outcomes[a].written)
                 && (u.rows[i] == Pending <==> !outcomes[a].written || (!outcomes[a].sent && !(i == p.own && p.finalAttempt)))
  {
    PassEffect(t, task, outcomes, |outcomes|);
    assert t.tasks[task].backlog[..|outcomes|] == t.tasks[task].backlog;
  }

  /** When all sends and writes of a pass succeed, nothing up to the task's own
      row is left pending and the whole backlog has gone out, in order. */
  lemma SuccessfulPassClears(t: Thread, task: nat, outcomes: seq<Outcome>)
    requires Exclusive(t) && Holds(t, task) && Complete(t, t.tasks[task]) && |outcomes| == |t.tasks[task].backlog|
    requires forall k :: 0 <= k < |outcomes| ==> outcomes[k].sent && outcomes[k].written
    ensures var u, p := SendMany(t, task, outcomes, |outcomes|), t.tasks[task];
            && u.log == t.log + p.backlog
            && (forall i :: 0 <= i <= p.own && i < |u.rows| ==> u.rows[i] != Pending)
  {
    var p := t.tasks[task];
    PassEffect(t, task, outcomes, |outcomes|);
    ReachedAll(p.backlog, outcomes, |outcomes|);
    assert p.backlog[..|outcomes|] == p.backlog;
    NonePendingAfter(t, SendMany(t, task, outcomes, |outcomes|), p, outcomes);
  }

  lemma NonePendingAfter(t: Thread, u: Thread, p: Phase, outcomes: seq<Outcome>)
    requires p.Holding? && Complete(t, p) && |outcomes| == |p.backlog|
    requires AfterAttempts(t, u, p, outcomes, |outcomes|)
    requires forall k :: 0 <= k < |outcomes| ==> outcomes[k].sent && outcomes[k].written
    ensures forall i :: 0 <= i <= p.own && i < |u.rows| ==> u.rows[i] != Pending
  {
    assert p.backlog[..|outcomes|] == p.backlog;
    forall i | 0 <= i <= p.own && i < |u.rows| ensures u.rows[i] != Pending {
      if i in p.backlog {
        var a :| 0 <= a < |p.backlog| && p.backlog[a] == i;
      }
    }
  }

  lemma {:induction false} ReachedAll(backlog: seq<nat>, outcomes: seq<Outcome>, k: nat)
    requires k <= |outcomes| && k <= |backlog| && forall a :: 0 <= a < k ==> outcomes[a].sent
    ensures Reached(backlog, outcomes, k) == backlog[..k]
  {
    if k > 0 {
      ReachedAll(backlog, outcomes, k - 1);
    }
  }

  // ---- a late commit ------------------------------------------------------------------------

  /** Steps that are healthy in whatever state. */
  predicate Clean(steps: seq<Step>) {
    forall step <- steps :: !step.Sever? && !step.Commit? && (step.Send? ==> step.sent && step.written)
  }

  lemma CleanIsHealthy(t: Thread, steps: seq<Step>)
    requires Clean(steps)
    ensures HealthyRun(t, steps)
  {
  }

  lemma AppendOne(t: Thread, steps: seq<Step>, more: seq<Step>)
    requires more != [] && Run(t, steps + more[..|more| - 1]) == Run(Run(t, steps), more[..|more| - 1])
    ensures Run(t, steps + more) == Run(Run(t, steps), more)
  {
    FrontOfSum(steps, more);
  }

  lemma {:induction false} RunAppend(t: Thread, steps: seq<Step>, more: seq<Step>)
    ensures Run(t, steps + more) == Run(Run(t, steps), more)
    decreases |more|
  {
    if more == [] {
      assert steps + more == steps;
    } else {
      RunAppend(t, steps, more[..|more| - 1]);
      AppendOne(t, steps, more);
    }
  }

  /** Sending the next `k` rows of a pass. */
  function Passing(task: nat, k: nat): (steps: seq<Step>)
    ensures Clean(steps)
  {
    if k == 0 then [] else Passing(task, k - 1) + [Send(task, true, true)]
  }

  function AllWell(n: nat): (r: seq<Outcome>)
    ensures |r| == n && forall k :: 0 <= k < n ==> r[k] == Outcome(true, true)
  {
    if n == 0 then [] else AllWell(n - 1) + [Outcome(true, true)]
  }

  lemma {:induction false} PassingSends(t: Thread, task: nat, n: nat, k: nat)
    requires k <= n
    ensures Run(t, Passing(task, k)) == SendMany(t, task, AllWell(n), k)
  {
    if k > 0 {
      PassingSends(t, task, n, k - 1);
      RunNext(t, Passing(task, k - 1), Send(task, true, true));
    }
  }

  /** A pass sends all it has left and touches no other row. */
  lemma SendsAll(t: Thread, task: nat)
    requires Exclusive(t) && Holds(t, task)
    ensures var u, p := Run(t, Passing(task, |t.tasks[task].backlog|)), t.tasks[task];
            && Exclusive(u) && Holds(u, task) && u.tasks[task].backlog == [] && u.lock == t.lock
            && u.log == t.log + p.backlog && |u.rows| == |t.rows|
            && (forall i :: 0 <= i < |t.rows| && i !in p.backlog ==> u.rows[i] == t.rows[i])
  {
    var p := t.tasks[task];
    var n := |p.backlog|;
    PassingSends(t, task, n, n);
    SendManyBacklog(t, task, AllWell(n), n);
    PassEffect(t, task, AllWell(n), n);
    ReachedAll(p.backlog, AllWell(n), n);
    assert p.backlog[..n] == p.backlog;
  }

  lemma GivesUpLock(t: Thread, task: nat)
    requires Exclusive(t) && Holds(t, task) && t.tasks[task].backlog == []
    ensures var u := Apply(t, Release(task));
            Exclusive(u) && u.lock.None? && u.rows == t.rows && u.log == t.log
  {
    StepKeepsExclusive(t, Release(task));
  }

  /** Whoever has the lock finishes; rows outside its backlog keep their status. */
  lemma FinishPass(t: Thread, row: nat) returns (steps: seq<Step>)
    requires Exclusive(t) && row < |t.rows| && t.rows[row] == Pending
    requires forall task <- t.tasks :: t.tasks[task].Holding? ==> row !in t.tasks[task].backlog
    ensures Clean(steps)
    ensures var u := Run(t, steps);
            && Exclusive(u) && u.lock.None? && row < |u.rows| && u.rows[row] == Pending
            && u.log == t.log + if t.lock.None? then [] else t.tasks[t.lock.value].backlog
  {
    if t.lock.None? {
      steps := [];
    } else {
      var task := t.lock.value;
      var n := |t.tasks[task].backlog|;
      SendsAll(t, task);
      RunNext(t, Passing(task, n), Release(task));
      GivesUpLock(Run(t, Passing(task, n)), task);
      steps := Passing(task, n) + [Release(task)];
    }
  }

  lemma TakesLock(t: Thread, task: nat, own: nat)
    requires Exclusive(t) && t.lock.None? && task !in t.tasks && own < |t.rows| && t.rows[own] == Pending
    ensures var v := Run(t, [Load(task, own, false), Acquire(task)]);
            && Exclusive(v) && Holds(v, task) && v.tasks[task].backlog == Backlog(t.rows, own) && v.log == t.log
  {
    RunNext(t, [], Load(task, own, false));
    RunNext(t, [Load(task, own, false)], Acquire(task));
    assert [] + [Load(task, own, false)] == [Load(task, own, false)];
    assert [Load(task, own, false)] + [Acquire(task)] == [Load(task, own, false), Acquire(task)];
    StepKeepsExclusive(t, Load(task, own, false));
    StepKeepsExclusive(Apply(t, Load(task, own, false)), Acquire(task));
  }

  /** One undisturbed delivery of row `own` of an idle conversation. */
  lemma DeliverNow(t: Thread, own: nat) returns (steps: seq<Step>)
    requires Exclusive(t) && t.lock.None? && own < |t.rows| && t.rows[own] == Pending
    ensures Clean(steps) && Run(t, steps).log == t.log + Backlog(t.rows, own)
  {
    UnusedIdExists(t.tasks);
    var task: nat :| task !in t.tasks;
    var take := [Load(task, own, false), Acquire(task)];
    TakesLock(t, task, own);
    SendsAll(Run(t, take), task);
    var send := Passing(task, |Backlog(t.rows, own)|);
    RunAppend(t, take, send);
    steps := take + send;
  }

  /** Nothing newer than row `i` was sent or is about to be sent by the pass that
      has the lock. */
  predicate InTime(t: Thread, i: nat) {
    NewerThan(i, t.log) && forall task <- t.tasks :: t.tasks[task].Holding? ==> NewerThan(i, t.tasks[task].backlog)
  }

  lemma LateButOrdered(t: Thread, i: nat)
    requires Exclusive(t) && Ordered(t) && i < |t.rows| && t.rows[i] == Allocated && InTime(t, i)
    ensures Ordered(Apply(t, Commit(i, Pending)))
  {
    var u := Apply(t, Commit(i, Pending));
    forall task <- u.tasks | u.tasks[task].Holding? ensures Mindful(u, u.tasks[task]) {
      assert Mindful(t, t.tasks[task]);
    }
  }

  lemma OutOfOrder(log: seq<nat>, more: seq<nat>, i: nat)
    requires !NewerThan(i, log) && i in more
    ensures !Ascending(log + more)
  {
    var a :| 0 <= a < |log| && i <= log[a];
    var b :| 0 <= b < |more| && more[b] == i;
    assert (log + more)[a] >= (log + more)[|log| + b];
  }

  /** Otherwise: the pass under way finishes, and then the late row goes out. */
  lemma TooLate(t: Thread, i: nat) returns (steps: seq<Step>)
    requires Exclusive(t) && i < |t.rows| && t.rows[i] == Allocated && !InTime(t, i)
    ensures var u := Apply(t, Commit(i, Pending)); Clean(steps) && !Ascending(Run(u, steps).log)
  {
    var u := Apply(t, Commit(i, Pending));
    StepKeepsExclusive(t, Commit(i, Pending));
    NotListed(t, i);
    var finish := FinishPass(u, i);
    var v := Run(u, finish);
    var deliver := DeliverNow(v, i);
    RunAppend(u, finish, deliver);
    steps := finish + deliver;
    LaterInLog(t, i, v.log);
    OutOfOrder(v.log, Backlog(v.rows, i), i);
  }

  lemma NotListed(t: Thread, i: nat)
    requires Exclusive(t) && i < |t.rows| && t.rows[i] == Allocated
    ensures forall task <- t.tasks :: t.tasks[task].Holding? ==> i !in t.tasks[task].backlog
  {
    forall task <- t.tasks | t.tasks[task].Holding? ensures i !in t.tasks[task].backlog {
      assert Listed(t, t.tasks[task]);
    }
  }

  lemma LaterInLog(t: Thread, i: nat, log: seq<nat>)
    requires Exclusive(t) && !InTime(t, i)
    requires log == t.log + if t.lock.None? then [] else t.tasks[t.lock.value].backlog
    ensures !NewerThan(i, log)
  {
    if !NewerThan(i, t.log) {
      var a :| 0 <= a < |t.log| && i <= t.log[a];
      assert log[a] == t.log[a];
    } else {
      var task :| task in t.tasks && t.tasks[task].Holding? && !NewerThan(i, t.tasks[task].backlog);
      assert t.lock == Some(task);
      var a :| 0 <= a < |t.tasks[task].backlog| && i <= t.tasks[task].backlog[a];
      assert log[|t.log| + a] == t.tasks[task].backlog[a];
    }
  }

  /** Committing a row late is harmless, on every further healthy run, if and only
      if no newer row has been sent and the pass that has the lock, if any, has no
      newer row left to send. */
  lemma LateCommitExactly(t: Thread, i: nat)
    requires Exclusive(t) && Ordered(t) && i < |t.rows| && t.rows[i] == Allocated
    ensures var u := Apply(t, Commit(i, Pending));
            (forall steps :: HealthyRun(u, steps) ==> Ascending(Run(u, steps).log)) <==> InTime(t, i)
  {
    var u := Apply(t, Commit(i, Pending));
    if InTime(t, i) {
      StepKeepsExclusive(t, Commit(i, Pending));
      LateButOrdered(t, i);
      forall steps | HealthyRun(u, steps) ensures Ascending(Run(u, steps).log) {
        HealthyRunKeepsOrdered(u, steps);
      }
    } else {
      var steps := TooLate(t, i);
      CleanIsHealthy(u, steps);
      assert HealthyRun(u, steps) && !Ascending(Run(u, steps).log);
    }
  }

  /** Among the first `k` attempts of a pass is a failed one of its own row. */
  predicate OwnFailed(pass: Phase, outcomes: seq<Outcome>, k: nat)
    requires pass.Holding? && k <= |outcomes| == |pass.backlog|
  {
    exists a :: 0 <= a < k && pass.backlog[a] == pass.own && !outcomes[a].sent
  }

  class Conversation {
    var rows: seq<Status>
    var tasks: map<nat, Phase>
    var lock: Option<nat>
    var log: seq<nat>

    function Now(): Thread
      reads this
    {
      Thread(rows, tasks, lock, log)
    }

    constructor ()
      ensures Now() == EMPTY
    {
      rows, tasks, lock, log := [], map[], None, [];
    }

    /** Sends one row and records the result. Returns whether the send failed. */
    method DeliverOutbound(row: nat, o: Outcome, markFailed: bool) returns (failed: bool)
      requires row < |rows|
      modifies `rows, `log
      ensures failed <==> !o.sent
      ensures log == if o.sent then old(log) + [row] else old(log)
      ensures rows == old(rows)[row := Delivered(old(rows)[row], o, markFailed)]
      ensures o.sent && o.written ==> rows[row] == Sent
      ensures !o.sent && o.written && markFailed ==> rows[row] == Failed
      ensures !o.written || (!o.sent && !markFailed) ==> rows == old(rows)
    {
      if !o.sent {
        if markFailed && o.written {
          rows := rows[row := Failed];
        }
        return true;
      }
      log := log + [row];
      if o.written {
        rows := rows[row := Sent];
      }
      return false;
    }

    /** One turn of the backlog loop. */
    method SendOne(ghost start: Thread, task: nat, pass: Phase, outcomes: seq<Outcome>, k: nat, before: bool)
      returns (ownFailed: bool)
      requires Exclusive(start) && Holds(start, task) && start.tasks[task] == pass
      requires k < |outcomes| == |pass.backlog| && Now() == SendMany(start, task, outcomes, k)
      requires before <==> OwnFailed(pass, outcomes, k)
      modifies this
      ensures Now() == SendMany(start, task, outcomes, k + 1)
      ensures ownFailed <==> OwnFailed(pass, outcomes, k + 1)
    {
      SendManyBacklog(start, task, outcomes, k);
      SendNext(start, task, outcomes, k);
      var row := pass.backlog[k];
      var failed := DeliverOutbound(row, outcomes[k], row == pass.own && pass.finalAttempt);
      tasks := tasks[task := pass.(backlog := pass.backlog[k + 1..])];
      ownFailed := before || (failed && row == pass.own);
    }

    /** The critical section of one delivery: the backlog in seq order under the
        conversation's lock. Only the failure of the task's own row is returned. */
    method DeliverBacklog(task: nat, pass: Phase, outcomes: seq<Outcome>) returns (ownFailed: bool)
      requires Exclusive(Now()) && Holds(Now(), task) && tasks[task] == pass && |outcomes| == |pass.backlog|
      modifies this
      ensures Now() == Apply(SendMany(old(Now()), task, outcomes, |outcomes|), Release(task))
      ensures ownFailed <==> OwnFailed(pass, outcomes, |outcomes|)
    {
      ghost var start := Now();
      ownFailed := false;
      for k := 0 to |pass.backlog|
        invariant Now() == SendMany(start, task, outcomes, k) && (ownFailed <==> OwnFailed(pass, outcomes, k))
      {
        ownFailed := SendOne(start, task, pass, outcomes, k, ownFailed);
      }
      SendManyBacklog(start, task, outcomes, |pass.backlog|);
      tasks := tasks - {task};
      lock := None;
    }

    /** The start of a delivery: the status read before the lock, then the
        backlog read inside it. Returns whether there is anything to do. */
    method Begin(task: nat, own: nat, finalAttempt: bool) returns (goOn: bool)
      requires Exclusive(Now()) && task !in tasks && lock.None?
      modifies `tasks, `lock
      ensures Now() == Apply(Apply(old(Now()), Load(task, own, finalAttempt)), Acquire(task))
      ensures Exclusive(Now()) && (goOn <==> Holds(Now(), task))
    {
      StepKeepsExclusive(Now(), Load(task, own, finalAttempt));
      StepKeepsExclusive(Apply(Now(), Load(task, own, finalAttempt)), Acquire(task));
      if own >= |rows| || rows[own] == Allocated || Skips(rows[own]) {
        return false;
      }
      var backlog := Backlog(rows, own);
      lock := Some(task);
      tasks := tasks[task := Holding(own, finalAttempt, backlog)];
      return true;
    }
  }
}
