/** The transactional-outbox dispatcher: event rows are rolled back with their
    transaction, tasks handed to the queue are not. */
module Dispatcher {
  import opened Common

  datatype Status = PENDING | PUBLISHED | DEAD

  /** One domain_events row; rows are kept in occurred_at order. */
  datatype Row = Row(kind: string, status: Status, attempts: nat)

  /** One task handed to the queue: which event, which of its subscriptions. */
  datatype Handed = Handed(row: nat, subscription: nat)

  type Routes = map<string, nat>   // number of subscriptions per event type

  datatype Config = Config(routes: Routes, maxAttempts: int, batchSize: int) {
    function Max(): (r: int)
      ensures 1 <= r && (maxAttempts <= 0 ==> r == 5) && (maxAttempts == r || r == 5)
    {
      if maxAttempts > 0 then maxAttempts else 5
    }

    function Batch(): (r: int)
      ensures 1 <= r && (batchSize <= 0 ==> r == 100) && (batchSize == r || r == 100)
    {
      if batchSize > 0 then batchSize else 100
    }

    function Fanout(kind: string): nat { if kind in routes then routes[kind] else 0 }
  }

  datatype Outbox = Outbox(rows: seq<Row>, handed: seq<Handed>)

  /** A list of distinct row indices, oldest first. */
  predicate Ascending(s: seq<nat>) { forall a, b :: 0 <= a < b < |s| ==> s[a] < s[b] }

  predicate Below(s: seq<nat>, n: nat) { forall a :: 0 <= a < |s| ==> s[a] < n }

  /** The indices of the pending rows, oldest first. */
  function PendingRows(rows: seq<Row>): (r: seq<nat>)
    ensures Ascending(r) && Below(r, |rows|)
    ensures forall a :: 0 <= a < |r| ==> rows[r[a]].status == PENDING
    ensures forall i :: 0 <= i < |rows| && rows[i].status == PENDING ==> i in r
  {
    if rows == [] then []
    else
      var n := |rows| - 1;
      var rest := PendingRows(rows[..n]);
      assert rows[n].status == PENDING ==> (rest + [n])[|rest|] == n;
      if rows[n].status == PENDING then rest + [n] else rest
  }

  /** SELECT ... WHERE status = 'PENDING' ORDER BY occurred_at LIMIT batch. */
  function Selected(rows: seq<Row>, batch: int): (r: seq<nat>)
    requires 1 <= batch
    ensures Ascending(r) && Below(r, |rows|)
    ensures forall a :: 0 <= a < |r| ==> rows[r[a]].status == PENDING
    ensures r == [] <==> forall i :: 0 <= i < |rows| ==> rows[i].status != PENDING
    ensures |r| <= batch
    ensures forall i :: 0 <= i < |rows| && rows[i].status == PENDING && i !in r ==>
      |r| == batch && forall a :: 0 <= a < |r| ==> r[a] < i
  {
    var pending := PendingRows(rows);
    assert pending != [] ==> rows[pending[0]].status == PENDING;
    if |pending| <= batch then pending else pending[..batch]
  }

  /** How many subscriptions of row `i` were enqueued before the first failure. */
  function Reached(c: Config, rows: seq<Row>, i: nat, reach: map<nat, nat>): (n: nat)
    requires i < |rows|
    ensures n <= c.Fanout(rows[i].kind)
  {
    var fanout := c.Fanout(rows[i].kind);
    if i in reach && reach[i] <= fanout then reach[i] else if i in reach then fanout else 0
  }

  function HandedFor(i: nat, n: nat): seq<Handed> { seq(n, (k: nat) => Handed(i, k)) }

  /** The row after one publish attempt. */
  function Attempted(c: Config, row: Row, published: bool): Row {
    if published then row.(status := PUBLISHED)
    else row.(attempts := row.attempts + 1, status := if row.attempts + 1 >= c.Max() then DEAD else PENDING)
  }

  /** Publishing the rows listed in `todo`, in order. */
  function PublishAll(c: Config, o: Outbox, todo: seq<nat>, reach: map<nat, nat>): (r: Outbox)
    requires Below(todo, |o.rows|)
    ensures |r.rows| == |o.rows|
  {
    if todo == [] then o
    else
      var n := |todo| - 1;
      var p := PublishAll(c, o, todo[..n], reach);
      var i := todo[n];
      var sent := Reached(c, o.rows, i, reach);
      Outbox(p.rows[i := Attempted(c, o.rows[i], sent == c.Fanout(o.rows[i].kind))], p.handed + HandedFor(i, sent))
  }

  /** How a drain's transaction ends. */
  datatype End = Commits | CommitFails | AbortsAfter(done: nat)

  function Processed(todo: seq<nat>, end: End): seq<nat> {
    if end.AbortsAfter? && end.done <= |todo| then todo[..end.done] else todo
  }

  /** One drain: what reached the queue stays there; the rows keep their changes
      only if the transaction commits. */
  function Drain(c: Config, o: Outbox, reach: map<nat, nat>, end: End): Outbox {
    var p := PublishAll(c, o, Processed(Selected(o.rows, c.Batch()), end), reach);
    if end.Commits? then p else Outbox(o.rows, p.handed)
  }

  datatype Act = Emit(kind: string) | DrainAct(reach: map<nat, nat>, end: End)

  function Apply(c: Config, o: Outbox, act: Act): Outbox {
    match act
    case Emit(kind) => o.(rows := o.rows + [Row(kind, PENDING, 0)])
    case DrainAct(reach, end) => Drain(c, o, reach, end)
  }

  function Run(c: Config, o: Outbox, acts: seq<Act>): Outbox {
    if acts == [] then o else Apply(c, Run(c, o, acts[..|acts| - 1]), acts[|acts| - 1])
  }

  // ---- what every drain keeps ---------------------------------------------------

  predicate FullyHanded(c: Config, o: Outbox, i: nat)
    requires i < |o.rows|
  {
    forall k :: 0 <= k < c.Fanout(o.rows[i].kind) ==> Handed(i, k) in o.handed
  }

  /** Nothing is in the queue that no event asked for. */
  predicate HandedOk(c: Config, o: Outbox) {
    forall h <- o.handed :: h.row < |o.rows| && h.subscription < c.Fanout(o.rows[h.row].kind)
  }

  predicate Inv(c: Config, o: Outbox) {
    (forall i :: 0 <= i < |o.rows| ==> RowOk(c, o, i)) && HandedOk(c, o)
  }

  /** What publishing a list of distinct pending rows does to every row. */
  lemma {:induction false} PublishAllRows(c: Config, o: Outbox, todo: seq<nat>, reach: map<nat, nat>)
    requires Ascending(todo) && Below(todo, |o.rows|)
    ensures var p := PublishAll(c, o, todo, reach);
            && (forall i :: 0 <= i < |o.rows| && i !in todo ==> p.rows[i] == o.rows[i])
            && (forall i :: 0 <= i < |o.rows| && i in todo ==>
                  p.rows[i] == Attempted(c, o.rows[i], Reached(c, o.rows, i, reach) == c.Fanout(o.rows[i].kind)))
            && (forall h :: h in p.handed <==>
                  (h in o.handed || (h.row in todo && h.subscription < Reached(c, o.rows, h.row, reach))))
  {
    if todo != [] {
      var n := |todo| - 1;
      PublishAllRows(c, o, todo[..n], reach);
      assert todo == todo[..n] + [todo[n]];
      var sent := Reached(c, o.rows, todo[n], reach);
      HandedForMembers(todo[n], sent);
    }
  }

  lemma HandedForMembers(i: nat, n: nat)
    ensures forall h :: h in HandedFor(i, n) <==> h.row == i && h.subscription < n
  {
    forall h ensures h in HandedFor(i, n) <==> h.row == i && h.subscription < n {
      if h.row == i && h.subscription < n {
        assert HandedFor(i, n)[h.subscription] == h;
      }
    }
  }

  predicate RowOk(c: Config, o: Outbox, i: nat)
    requires i < |o.rows|
  {
    match o.rows[i].status
    case PUBLISHED => FullyHanded(c, o, i)
    case PENDING => o.rows[i].attempts < c.Max()
    case DEAD => o.rows[i].attempts == c.Max()
  }

  /** A row stays good whether or not the changes to it were rolled back. */
  lemma PublishKeepsRow(c: Config, o: Outbox, todo: seq<nat>, reach: map<nat, nat>, i: nat)
    requires Ascending(todo) && Below(todo, |o.rows|)
    requires i < |o.rows| && RowOk(c, o, i) && (i in todo ==> o.rows[i].status == PENDING)
    ensures var p := PublishAll(c, o, todo, reach);
            RowOk(c, p, i) && RowOk(c, Outbox(o.rows, p.handed), i)
  {
    PublishAllRows(c, o, todo, reach);
  }

  lemma PublishKeepsHanded(c: Config, o: Outbox, todo: seq<nat>, reach: map<nat, nat>)
    requires Ascending(todo) && Below(todo, |o.rows|) && HandedOk(c, o)
    ensures HandedOk(c, Outbox(o.rows, PublishAll(c, o, todo, reach).handed))
    ensures HandedOk(c, PublishAll(c, o, todo, reach))
  {
    PublishAllRows(c, o, todo, reach);
  }

  lemma DrainKeepsInv(c: Config, o: Outbox, reach: map<nat, nat>, end: End)
    requires Inv(c, o)
    ensures Inv(c, Drain(c, o, reach, end))
  {
    var todo := Processed(Selected(o.rows, c.Batch()), end);
    PublishKeepsHanded(c, o, todo, reach);
    forall i | 0 <= i < |o.rows| ensures RowOk(c, Drain(c, o, reach, end), i) {
      assert RowOk(c, o, i);
      PublishKeepsRow(c, o, todo, reach, i);
    }
  }

  /** Under arbitrary enqueue failures, crashes and rollbacks: PUBLISHED means
      every subscriber was enqueued, PENDING means attempts are left, DEAD means
      none are, and nothing is enqueued that no event asked for. */
  lemma {:induction false} RunInv(c: Config, acts: seq<Act>)
    ensures Inv(c, Run(c, Outbox([], []), acts))
  {
    if acts != [] {
      var n := |acts| - 1;
      RunInv(c, acts[..n]);
      var o := Run(c, Outbox([], []), acts[..n]);
      match acts[n]
      case Emit(kind) =>
        forall i | 0 <= i < |o.rows| ensures RowOk(c, Apply(c, o, acts[n]), i) { assert RowOk(c, o, i); }
      case DrainAct(reach, end) => DrainKeepsInv(c, o, reach, end);
    }
  }

  // ---- what one drain decides ------------------------------------------------------

  /** Publishing only appends to the queue: of each listed event, its leading
      subscriptions up to what the queue accepts. */
  lemma {:induction false} PublishAppends(c: Config, o: Outbox, todo: seq<nat>, reach: map<nat, nat>)
    requires Below(todo, |o.rows|)
    ensures var p := PublishAll(c, o, todo, reach);
            && o.handed <= p.handed
            && forall h :: h in p.handed[|o.handed|..] <==>
                 h.row in todo && h.row in reach && h.subscription < reach[h.row] && h.subscription < c.Fanout(o.rows[h.row].kind)
  {
    if todo != [] {
      var n := |todo| - 1;
      PublishAppends(c, o, todo[..n], reach);
      HandedForMembers(todo[n], Reached(c, o.rows, todo[n], reach));
      AppendedAfter(c, o, todo, reach);
      assert todo == todo[..n] + [todo[n]];
    }
  }

  lemma AppendedAfter(c: Config, o: Outbox, todo: seq<nat>, reach: map<nat, nat>)
    requires todo != [] && Below(todo, |o.rows|) && o.handed <= PublishAll(c, o, todo[..|todo| - 1], reach).handed
    ensures var i := todo[|todo| - 1];
            PublishAll(c, o, todo, reach).handed[|o.handed|..]
            == PublishAll(c, o, todo[..|todo| - 1], reach).handed[|o.handed|..] + HandedFor(i, Reached(c, o.rows, i, reach))
  {
  }

  /** The queue accepted every subscription of event `i` in the drain from `o` to `p`. */
  predicate Accepted(c: Config, o: Outbox, p: Outbox, i: nat)
    requires i < |o.rows| && o.handed <= p.handed
  {
    forall k: nat :: k < c.Fanout(o.rows[i].kind) ==> Handed(i, k) in p.handed[|o.handed|..]
  }

  lemma DrainAppends(c: Config, o: Outbox, reach: map<nat, nat>, end: End)
    ensures |Drain(c, o, reach, end).rows| == |o.rows| && o.handed <= Drain(c, o, reach, end).handed
    ensures forall h <- Drain(c, o, reach, end).handed[|o.handed|..] ::
      h.row < |o.rows| && o.rows[h.row].status == PENDING && h.row in Selected(o.rows, c.Batch())
  {
    var all := Selected(o.rows, c.Batch());
    var todo := Processed(all, end);
    assert forall a :: 0 <= a < |todo| ==> todo[a] == all[a];
    PublishAppends(c, o, todo, reach);
  }

  /** What a drain puts on the queue, however it ends: of each selected event, or of the
      first few when it aborts, the leading subscriptions up to what the queue accepts. */
  lemma DrainHandsExactly(c: Config, o: Outbox, reach: map<nat, nat>, end: End, i: nat, k: nat)
    requires i < |o.rows| && o.handed <= Drain(c, o, reach, end).handed
    ensures var selected := Selected(o.rows, c.Batch());
            Handed(i, k) in Drain(c, o, reach, end).handed[|o.handed|..] <==>
              && (exists a :: 0 <= a < |selected| && selected[a] == i && (end.AbortsAfter? && end.done <= |selected| ==> a < end.done))
              && i in reach && k < reach[i] && k < c.Fanout(o.rows[i].kind)
  {
    var selected := Selected(o.rows, c.Batch());
    var todo := Processed(selected, end);
    assert forall a :: 0 <= a < |todo| ==> todo[a] == selected[a];
    PublishAppends(c, o, todo, reach);
    if a :| 0 <= a < |selected| && selected[a] == i && (end.AbortsAfter? && end.done <= |selected| ==> a < end.done) {
      assert todo[a] == i;
    }
  }

  /** A committed drain makes a selected event PUBLISHED, its attempts unchanged, if
      and only if the queue accepted all its subscriptions in that drain; otherwise it
      spends an attempt and dies exactly with the last one. Every other row, and every
      row of a drain that does not commit, stays as it was. */
  lemma DrainExactly(c: Config, o: Outbox, reach: map<nat, nat>, end: End, i: nat)
    requires i < |o.rows|
    ensures var p := Drain(c, o, reach, end);
            && |p.rows| == |o.rows| && o.handed <= p.handed
            && (!end.Commits? || i !in Selected(o.rows, c.Batch()) ==> p.rows[i] == o.rows[i])
            && (end.Commits? && i in Selected(o.rows, c.Batch()) ==>
                 var accepted := Accepted(c, o, p, i);
                 var last := o.rows[i].attempts + 1 >= c.Max();
                 && p.rows[i].kind == o.rows[i].kind
                 && p.rows[i].attempts == o.rows[i].attempts + (if accepted then 0 else 1)
                 && (p.rows[i].status == PUBLISHED <==> accepted)
                 && (p.rows[i].status == DEAD <==> !accepted && last))
  {
    DrainAppends(c, o, reach, end);
    if end.Commits? {
      var todo := Selected(o.rows, c.Batch());
      PublishAllRows(c, o, todo, reach);
      if i in todo {
        AcceptedIs(c, o, reach, todo, i);
      }
    }
  }

  lemma AcceptedIs(c: Config, o: Outbox, reach: map<nat, nat>, todo: seq<nat>, i: nat)
    requires Below(todo, |o.rows|) && i in todo && i < |o.rows| && o.handed <= PublishAll(c, o, todo, reach).handed
    ensures Accepted(c, o, PublishAll(c, o, todo, reach), i) <==> Reached(c, o.rows, i, reach) == c.Fanout(o.rows[i].kind)
  {
    var p, fanout, reached := PublishAll(c, o, todo, reach), c.Fanout(o.rows[i].kind), Reached(c, o.rows, i, reach);
    PublishAppends(c, o, todo, reach);
    if reached < fanout {
      assert Handed(i, reached) !in p.handed[|o.handed|..];
    }
  }

  /** Once an event is no longer pending, no later drain hands it over again. */
  lemma {:induction false} FinishedNeverAgain(c: Config, o: Outbox, acts: seq<Act>, i: nat)
    requires i < |o.rows| && o.rows[i].status != PENDING
    ensures var p := Run(c, o, acts);
            && i < |p.rows| && p.rows[i] == o.rows[i] && o.handed <= p.handed
            && forall h <- p.handed[|o.handed|..] :: h.row != i
  {
    if acts != [] {
      var n := |acts| - 1;
      FinishedNeverAgain(c, o, acts[..n], i);
      StepSkips(c, o, Run(c, o, acts[..n]), acts[n], i);
    }
  }

  lemma StepSkips(c: Config, o: Outbox, q: Outbox, act: Act, i: nat)
    requires i < |q.rows| && q.rows[i].status != PENDING && o.handed <= q.handed
    requires forall h <- q.handed[|o.handed|..] :: h.row != i
    ensures var p := Apply(c, q, act);
            && i < |p.rows| && p.rows[i] == q.rows[i] && o.handed <= p.handed
            && forall h <- p.handed[|o.handed|..] :: h.row != i
  {
    StepIsMonotone(c, q, act, i);
    if act.DrainAct? {
      DrainAppends(c, q, act.reach, act.end);
      NoneInBetween(o.handed, q.handed, Drain(c, q, act.reach, act.end).handed, i);
    }
  }

  lemma NoneInBetween(first: seq<Handed>, then_: seq<Handed>, last: seq<Handed>, i: nat)
    requires first <= then_ <= last
    requires (forall h <- then_[|first|..] :: h.row != i) && (forall h <- last[|then_|..] :: h.row != i)
    ensures forall h <- last[|first|..] :: h.row != i
  {
    assert last[|first|..] == then_[|first|..] + last[|then_|..];
  }

  /** An event fully accepted in a committed drain is never handed over again. */
  lemma AcceptedNeverAgain(c: Config, o: Outbox, reach: map<nat, nat>, acts: seq<Act>, i: nat)
    requires i < |o.rows| && i in Selected(o.rows, c.Batch())
    requires o.handed <= Drain(c, o, reach, Commits).handed && Accepted(c, o, Drain(c, o, reach, Commits), i)
    ensures var q := Drain(c, o, reach, Commits);
            var p := Run(c, q, acts);
            && i < |p.rows| && p.rows[i].status == PUBLISHED
            && q.handed <= p.handed && forall h <- p.handed[|q.handed|..] :: h.row != i
  {
    DrainExactly(c, o, reach, Commits, i);
    FinishedNeverAgain(c, Drain(c, o, reach, Commits), acts, i);
  }

  function PendingOf(): Row -> int { (row: Row) => if row.status == PENDING then 1 else 0 }

  /** The selection: the pending events with fewer pending ones before them than the
      batch holds. */
  lemma SelectedExactly(rows: seq<Row>, batch: int, i: nat)
    requires 1 <= batch && i < |rows|
    ensures i in Selected(rows, batch) <==> rows[i].status == PENDING && Sum(rows[..i], PendingOf()) < batch
  {
    var pending := PendingRows(rows);
    if rows[i].status == PENDING {
      var a :| 0 <= a < |pending| && pending[a] == i;
      PlaceOf(rows, i, a);
      if i in Selected(rows, batch) {
        var b :| 0 <= b < |Selected(rows, batch)| && Selected(rows, batch)[b] == i;
        assert pending[b] == i;
      }
      if a < batch {
        assert Selected(rows, batch)[a] == pending[a];
      }
    }
  }

  lemma {:induction false} PlaceOf(rows: seq<Row>, i: nat, a: nat)
    requires i < |rows| && a < |PendingRows(rows)| && PendingRows(rows)[a] == i
    ensures Sum(rows[..i], PendingOf()) == a
  {
    var n := |rows| - 1;
    if i == n {
      PendingCount(rows[..n]);
      LastPlace(rows, a);
    } else {
      assert a < |PendingRows(rows[..n])|;
      PlaceOf(rows[..n], i, a);
      assert rows[..n][..i] == rows[..i];
    }
  }

  lemma LastPlace(rows: seq<Row>, a: nat)
    requires rows != [] && a < |PendingRows(rows)| && PendingRows(rows)[a] == |rows| - 1
    ensures a == |PendingRows(rows[..|rows| - 1])|
  {
    var rest := PendingRows(rows[..|rows| - 1]);
    assert forall b :: 0 <= b < |rest| ==> PendingRows(rows)[b] == rest[b] < |rows| - 1;
  }

  lemma {:induction false} PendingCount(rows: seq<Row>)
    ensures Sum(rows, PendingOf()) == |PendingRows(rows)|
  {
    if rows != [] {
      PendingCount(rows[..|rows| - 1]);
    }
  }

  /** PUBLISHED and DEAD are final, nothing already enqueued is taken back, and
      attempts only grow. */
  lemma StepIsMonotone(c: Config, o: Outbox, act: Act, i: nat)
    requires i < |o.rows|
    ensures var p := Apply(c, o, act);
            && i < |p.rows| && p.rows[i].kind == o.rows[i].kind
            && o.rows[i].attempts <= p.rows[i].attempts
            && (o.rows[i].status != PENDING ==> p.rows[i] == o.rows[i])
            && (forall h <- o.handed :: h in p.handed)
  {
    if act.DrainAct? {
      PublishIsMonotone(c, o, Processed(Selected(o.rows, c.Batch()), act.end), act.reach, i);
    }
  }

  lemma PublishIsMonotone(c: Config, o: Outbox, todo: seq<nat>, reach: map<nat, nat>, i: nat)
    requires Ascending(todo) && Below(todo, |o.rows|) && i < |o.rows|
    requires forall a :: 0 <= a < |todo| ==> o.rows[todo[a]].status == PENDING
    ensures var p := PublishAll(c, o, todo, reach);
            && p.rows[i].kind == o.rows[i].kind
            && o.rows[i].attempts <= p.rows[i].attempts
            && (o.rows[i].status != PENDING ==> p.rows[i] == o.rows[i])
            && (forall h <- o.handed :: h in p.handed)
  {
    PublishAllRows(c, o, todo, reach);
  }

  lemma {:induction false} FinalOnRun(c: Config, o: Outbox, acts: seq<Act>, i: nat)
    requires i < |o.rows| && o.rows[i].status != PENDING
    ensures i < |Run(c, o, acts).rows| && Run(c, o, acts).rows[i] == o.rows[i]
  {
    if acts != [] {
      FinalOnRun(c, o, acts[..|acts| - 1], i);
      StepIsMonotone(c, Run(c, o, acts[..|acts| - 1]), acts[|acts| - 1], i);
    }
  }

  // ---- draining terminates --------------------------------------------------------

  function LeftOf(c: Config): Row -> int {
    (row: Row) => if row.status == PENDING then c.Max() - row.attempts else 0
  }

  /** The publish attempts still available to pending events. */
  function Left(c: Config, o: Outbox): int { Sum(o.rows, LeftOf(c)) }

  lemma {:induction false} PublishAllSpends(c: Config, o: Outbox, todo: seq<nat>, reach: map<nat, nat>)
    requires Inv(c, o)
    requires Ascending(todo) && Below(todo, |o.rows|)
    requires forall a :: 0 <= a < |todo| ==> o.rows[todo[a]].status == PENDING
    ensures Left(c, PublishAll(c, o, todo, reach)) <= Left(c, o) - |todo|
  {
    if todo != [] {
      var n := |todo| - 1;
      PublishAllSpends(c, o, todo[..n], reach);
      PublishAllRows(c, o, todo[..n], reach);
      var i, p := todo[n], PublishAll(c, o, todo[..n], reach);
      assert i !in todo[..n] && p.rows[i] == o.rows[i] && RowOk(c, o, i);
      var row := Attempted(c, o.rows[i], Reached(c, o.rows, i, reach) == c.Fanout(o.rows[i].kind));
      SumUpdate(p.rows, i, row, LeftOf(c));
    }
  }

  /** A committed drain spends at least one attempt of every event it selected;
      any other drain spends none. */
  lemma DrainSpends(c: Config, o: Outbox, reach: map<nat, nat>, end: End)
    requires Inv(c, o)
    ensures Left(c, Drain(c, o, reach, end))
            <= Left(c, o) - (if end.Commits? then |Selected(o.rows, c.Batch())| else 0)
  {
    PublishAllSpends(c, o, Selected(o.rows, c.Batch()), reach);
  }

  predicate NonePending(o: Outbox) { forall row <- o.rows :: row.status != PENDING }

  lemma NothingLeft(c: Config, o: Outbox)
    requires Inv(c, o)
    ensures 0 <= Left(c, o)
    ensures Left(c, o) == 0 <==> NonePending(o)
  {
    forall row <- o.rows
      ensures 0 <= LeftOf(c)(row)
      ensures row.status == PENDING <==> LeftOf(c)(row) != 0
    {
      var i :| 0 <= i < |o.rows| && o.rows[i] == row;
      assert RowOk(c, o, i);
    }
    SumNonNegative(o.rows, LeftOf(c));
    SumZero(o.rows, LeftOf(c));
  }

  function CommittedDrains(acts: seq<Act>): nat {
    if acts == [] then 0
    else
      var last := acts[|acts| - 1];
      CommittedDrains(acts[..|acts| - 1]) + (if last.DrainAct? && last.end.Commits? then 1 else 0)
  }

  /** With no new events, as many committed drains as there were attempts left
      leave no event PENDING, whatever fails in between. */
  lemma {:induction false} DrainsFinish(c: Config, o: Outbox, acts: seq<Act>)
    requires Inv(c, o)
    requires forall act <- acts :: act.DrainAct?
    ensures var p := Run(c, o, acts);
            && Inv(c, p)
            && (NonePending(p) || Left(c, p) <= Left(c, o) - CommittedDrains(acts))
            && (Left(c, o) <= CommittedDrains(acts) ==> NonePending(p))
  {
    if acts == [] {
      NothingLeft(c, o);
    } else {
      var n := |acts| - 1;
      DrainsFinish(c, o, acts[..n]);
      var q, act := Run(c, o, acts[..n]), acts[n];
      DrainKeepsInv(c, q, act.reach, act.end);
      DrainSpends(c, q, act.reach, act.end);
      NothingLeft(c, Run(c, o, acts));
      if NonePending(q) {
        assert Selected(q.rows, c.Batch()) == [];
      }
    }
  }

  // ---- the dispatcher itself -------------------------------------------------------

  lemma PublishAllNext(c: Config, o: Outbox, todo: seq<nat>, k: nat, reach: map<nat, nat>)
    requires Below(todo, |o.rows|) && k < |todo|
    ensures var p, i := PublishAll(c, o, todo[..k], reach), todo[k];
            var sent := Reached(c, o.rows, i, reach);
            PublishAll(c, o, todo[..k + 1], reach)
            == Outbox(p.rows[i := Attempted(c, o.rows[i], sent == c.Fanout(o.rows[i].kind))],
                      p.handed + HandedFor(i, sent))
  {
    assert todo[..k + 1][..k] == todo[..k];
  }

  class EventStore {
    const config: Config
    var rows: seq<Row>       // the table, transactional
    var handed: seq<Handed>  // the queue, not transactional

    function Now(): Outbox
      reads this
    {
      Outbox(rows, handed)
    }

    /** Every subscription of row `i` accepts the event in this drain. */
    predicate Reaches(o: Outbox, i: nat, reach: map<nat, nat>)
      requires i < |o.rows|
    {
      Reached(config, o.rows, i, reach) == config.Fanout(o.rows[i].kind)
    }

    constructor (config: Config)
      ensures this.config == config && Now() == Outbox([], [])
    {
      this.config := config;
      rows, handed := [], [];
    }

    /** Fans one event out to its subscriptions; the queue accepts the first
        `accepts` of them and refuses the next. */
    method Publish(i: nat, kind: string, accepts: nat) returns (ok: bool)
      modifies `handed
      ensures var fanout := config.Fanout(kind);
              && handed == old(handed) + HandedFor(i, if accepts < fanout then accepts else fanout)
              && (ok <==> fanout <= accepts)
    {
      var fanout := config.Fanout(kind);
      for k := 0 to fanout
        invariant k <= accepts && handed == old(handed) + HandedFor(i, k)
      {
        if k == accepts {
          return false;
        }
        assert HandedFor(i, k + 1) == HandedFor(i, k) + [Handed(i, k)];
        handed := handed + [Handed(i, k)];
      }
      return true;
    }

    /** The row as the attempt leaves it: PUBLISHED, retried later, or DEAD. */
    method Outcome(row: Row, ok: bool) returns (after: Row)
      requires row.status == PENDING
      ensures after == Attempted(config, row, ok)
    {
      if ok {
        return row.(status := PUBLISHED);
      }
      var attempts := row.attempts + 1;
      var status := PENDING;
      if attempts >= config.Max() {
        status := DEAD;
      }
      return row.(attempts := attempts, status := status);
    }

    /** Publishes the next listed event and writes its outcome to the working rows. */
    method PublishNext(ghost start: Outbox, todo: seq<nat>, k: nat, working: seq<Row>, reach: map<nat, nat>)
      returns (after: seq<Row>, ok: bool)
      requires Below(todo, |start.rows|) && k < |todo| && start.rows[todo[k]].status == PENDING
      requires Outbox(working, handed) == PublishAll(config, start, todo[..k], reach)
      requires working[todo[k]] == start.rows[todo[k]]
      modifies `handed
      ensures Outbox(after, handed) == PublishAll(config, start, todo[..k + 1], reach)
      ensures |after| == |working| && forall i :: 0 <= i < |working| && i != todo[k] ==> after[i] == working[i]
      ensures ok <==> Reaches(start, todo[k], reach)
    {
      var i := todo[k];
      PublishAllNext(config, start, todo, k, reach);
      ok := Publish(i, working[i].kind, if i in reach then reach[i] else 0);
      var row := Outcome(working[i], ok);
      after := working[i := row];
    }

    /** The publish loop over the first `count` listed events: the working rows
        are only written back when the transaction commits. */
    method PublishListed(todo: seq<nat>, count: nat, reach: map<nat, nat>) returns (working: seq<Row>, published: nat)
      requires count <= |todo| && Ascending(todo) && Below(todo, |rows|)
      requires forall a :: 0 <= a < |todo| ==> rows[todo[a]].status == PENDING
      modifies `handed
      ensures Outbox(working, handed) == PublishAll(config, old(Now()), todo[..count], reach)
      ensures published <= count
      ensures published == count <==> forall a :: 0 <= a < count ==> Reaches(old(Now()), todo[a], reach)
    {
      ghost var start := Now();
      working, published := rows, 0;
      for k := 0 to count
        invariant |working| == |rows|
        invariant Outbox(working, handed) == PublishAll(config, start, todo[..k], reach)
        invariant forall a :: k <= a < |todo| ==> working[todo[a]] == start.rows[todo[a]]
        invariant published <= k
        invariant published == k <==> forall a :: 0 <= a < k ==> Reaches(start, todo[a], reach)
      {
        var ok;
        working, ok := PublishNext(start, todo, k, working, reach);
        if ok {
          published := published + 1;
        }
      }
    }

    /** Publishes the oldest pending events, recording each outcome in one
        transaction that ends as `end` says. */
    method DrainOnce(reach: map<nat, nat>, end: End) returns (published: nat)
      modifies `rows, `handed
      ensures Now() == Drain(config, old(Now()), reach, end)
      ensures !end.Commits? ==> published == 0
      ensures var todo := Selected(old(rows), config.Batch());
              end.Commits? ==>
                && published <= |todo|
                && (published == |todo| <==> forall a :: 0 <= a < |todo| ==> Reaches(old(Now()), todo[a], reach))
    {
      var todo := Selected(rows, config.Batch());
      var count := if end.AbortsAfter? && end.done <= |todo| then end.done else |todo|;
      assert todo[..|todo|] == todo;
      assert todo[..count] == Processed(todo, end);
      var working;
      working, published := PublishListed(todo, count, reach);
      if !end.Commits? {
        return 0;
      }
      rows := working;
    }
  }
}
