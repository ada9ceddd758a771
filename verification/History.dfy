/** Conversation history: the newest rows of each side, merged, sorted, cut to
    the newest overall, and for the assistant pruned to the current session. */
module History {
  const PER_SIDE: nat := 10
  const SESSION_GAP: int := 7200000   // two hours, milliseconds

  datatype Message = Message(at: int, inbound: bool, text: string)

  predicate Ascending(s: seq<Message>) { forall i, j :: 0 <= i < j < |s| ==> s[i].at <= s[j].at }

  function Min(a: nat, b: nat): nat { if a < b then a else b }

  /** `dropped` holds what is left of `all` after `kept`, and none of it is newer. */
  ghost predicate Splits(limit: nat, all: seq<Message>, kept: seq<Message>, dropped: seq<Message>) {
    && multiset(all) == multiset(kept) + multiset(dropped)
    && |kept| == Min(limit, |all|)
    && forall d, k :: d in dropped && k in kept ==> d.at <= k.at
  }

  /** Some `limit` newest messages of `all`; ties at the cut may go either way. */
  ghost predicate Newest(limit: nat, all: seq<Message>, kept: seq<Message>) {
    exists dropped :: Splits(limit, all, kept, dropped)
  }

  predicate DistinctTimes(s: seq<Message>) { forall i, j :: 0 <= i < j < |s| ==> s[i].at != s[j].at }

  // ---- stable sort ----------------------------------------------------------------------------

  function Insert(s: seq<Message>, m: Message): (r: seq<Message>)
    ensures multiset(r) == multiset(s) + multiset{m}
  {
    if s == [] || s[|s| - 1].at <= m.at then s + [m]
    else
      assert s == s[..|s| - 1] + [s[|s| - 1]];
      Insert(s[..|s| - 1], m) + [s[|s| - 1]]
  }

  function StableSort(s: seq<Message>): (r: seq<Message>)
    ensures multiset(r) == multiset(s) && |r| == |s|
  {
    if s == [] then []
    else
      assert s == s[..|s| - 1] + [s[|s| - 1]];
      var r := Insert(StableSort(s[..|s| - 1]), s[|s| - 1]);
      assert |multiset(r)| == |r| && |multiset(s)| == |s|;
      r
  }

  lemma AscendingAppend(s: seq<Message>, top: Message)
    requires Ascending(s) && forall i :: 0 <= i < |s| ==> s[i].at <= top.at
    ensures Ascending(s + [top])
  {
  }

  lemma InsertedBelow(s: seq<Message>, m: Message, top: Message)
    requires m.at <= top.at && forall i :: 0 <= i < |s| ==> s[i].at <= top.at
    ensures forall i :: 0 <= i < |Insert(s, m)| ==> Insert(s, m)[i].at <= top.at
  {
    var r := Insert(s, m);
    forall i | 0 <= i < |r| ensures r[i].at <= top.at {
      assert r[i] in multiset(r) && r[i] in multiset(s) + multiset{m};
      assert r[i] == m || r[i] in s;
    }
  }

  lemma {:induction false} InsertAscends(s: seq<Message>, m: Message)
    requires Ascending(s)
    ensures Ascending(Insert(s, m))
  {
    if s != [] && s[|s| - 1].at > m.at {
      var n := |s| - 1;
      InsertAscends(s[..n], m);
      InsertedBelow(s[..n], m, s[n]);
      AscendingAppend(Insert(s[..n], m), s[n]);
    }
  }

  lemma {:induction false} SortAscends(s: seq<Message>)
    ensures Ascending(StableSort(s))
  {
    if s != [] {
      SortAscends(s[..|s| - 1]);
      InsertAscends(StableSort(s[..|s| - 1]), s[|s| - 1]);
    }
  }

  function At(s: seq<Message>, t: int): seq<Message> {
    if s == [] then [] else At(s[..|s| - 1], t) + if s[|s| - 1].at == t then [s[|s| - 1]] else []
  }

  lemma AtAppend(s: seq<Message>, m: Message, t: int)
    ensures At(s + [m], t) == At(s, t) + if m.at == t then [m] else []
  {
    assert (s + [m])[..|s|] == s;
  }

  lemma {:induction false} InsertIsStable(s: seq<Message>, m: Message, t: int)
    ensures At(Insert(s, m), t) == At(s + [m], t)
  {
    if s != [] && s[|s| - 1].at > m.at {
      var front, last := s[..|s| - 1], s[|s| - 1];
      assert s == front + [last];
      InsertIsStable(front, m, t);
      InsertsBefore(front, last, m, t);
    }
  }

  lemma InsertPast(front: seq<Message>, last: Message, m: Message)
    requires last.at > m.at
    ensures Insert(front + [last], m) == Insert(front, m) + [last]
  {
    assert (front + [last])[..|front|] == front;
  }

  lemma InsertsBefore(front: seq<Message>, last: Message, m: Message, t: int)
    requires At(Insert(front, m), t) == At(front + [m], t) && last.at > m.at
    ensures At(Insert(front + [last], m), t) == At(front + [last] + [m], t)
  {
    InsertPast(front, last, m);
    AtAppend(Insert(front, m), last, t);
    AtSwap(front, last, m, t);
  }

  /** Two messages with different times pass each other unnoticed. */
  lemma AtSwap(s: seq<Message>, a: Message, b: Message, t: int)
    requires a.at != b.at
    ensures At(s + [b], t) + (if a.at == t then [a] else []) == At(s + [a] + [b], t)
  {
    AtAppend(s, b, t);
    AtAppend(s, a, t);
    AtAppend(s + [a], b, t);
  }

  /** Messages with the same time keep the order they were merged in, so inbound
      stays before outbound. */
  lemma {:induction false} SortIsStable(s: seq<Message>, t: int)
    ensures At(StableSort(s), t) == At(s, t)
  {
    if s != [] {
      var n := |s| - 1;
      SortIsStable(s[..n], t);
      InsertIsStable(StableSort(s[..n]), s[n], t);
      AtAppend(StableSort(s[..n]), s[n], t);
    }
  }

  // ---- truncating each side first loses nothing -------------------------------------------------

  function KeepLast(limit: nat, s: seq<Message>): seq<Message> { if |s| > limit then s[|s| - limit..] else s }

  function Merge(limit: nat, a: seq<Message>, b: seq<Message>): seq<Message> { KeepLast(limit, StableSort(a + b)) }

  lemma AllLaterAreFew(m: seq<Message>, i: nat, side: seq<Message>)
    requires Ascending(m) && i < |m| && multiset(side) <= multiset(m)
    requires forall y :: y in side ==> m[i].at < y.at
    ensures |side| <= |m| - 1 - i
  {
    var front, back := m[..i + 1], m[i + 1..];
    assert m == front + back;
    forall y | y in multiset(side) ensures multiset(side)[y] <= multiset(back)[y] {
      assert y in side && y !in front;
      assert multiset(side)[y] <= multiset(m)[y];
    }
    assert multiset(side) <= multiset(back);
    assert |multiset(back)| == |multiset(side)| + |multiset(back) - multiset(side)|;
    assert |multiset(back)| == |back| && |multiset(side)| == |side|;
  }

  /** A message of the merge that outlives the cut is no older than the oldest of
      a full side: otherwise that whole side would come after it. */
  lemma OutlivesOneOfFullSide(limit: nat, m: seq<Message>, i: nat, side: seq<Message>)
    requires Ascending(m) && i < |m| && |m| - limit <= i && |side| == limit && multiset(side) <= multiset(m)
    ensures exists y :: y in side && y.at <= m[i].at
  {
    if forall y :: y in side ==> m[i].at < y.at {
      AllLaterAreFew(m, i, side);
    }
  }

  lemma CutIsNewest(limit: nat, all: seq<Message>, kept: seq<Message>, dropped: seq<Message>, m: seq<Message>, i: nat, d: Message)
    requires Splits(limit, all, kept, dropped) && d in dropped
    requires Ascending(m) && multiset(kept) <= multiset(m) && i < |m| && |m| - limit <= i
    ensures d.at <= m[i].at
  {
    assert |multiset(all)| == |all| && |multiset(kept)| == |kept| && |multiset(dropped)| == |dropped|;
    OutlivesOneOfFullSide(limit, m, i, kept);
  }

  lemma MergeAscends(limit: nat, a: seq<Message>, b: seq<Message>)
    ensures Ascending(Merge(limit, a, b))
  {
    SortAscends(a + b);
  }

  /** Taking the newest of each side, merging, sorting and keeping the newest
      gives the newest of the whole timeline, oldest first. */
  lemma MergeKeepsNewest(limit: nat, inTable: seq<Message>, outTable: seq<Message>, a: seq<Message>, b: seq<Message>)
    requires limit >= 1 && Newest(limit, inTable, a) && Newest(limit, outTable, b)
    ensures Newest(limit, inTable + outTable, Merge(limit, a, b)) && Ascending(Merge(limit, a, b))
  {
    MergeAscends(limit, a, b);
    var da :| Splits(limit, inTable, a, da);
    var db :| Splits(limit, outTable, b, db);
    MergeSplits(limit, inTable, outTable, a, b, da, db);
  }

  lemma MergeSplits(limit: nat, inTable: seq<Message>, outTable: seq<Message>, a: seq<Message>, b: seq<Message>,
                    da: seq<Message>, db: seq<Message>)
    requires limit >= 1 && Splits(limit, inTable, a, da) && Splits(limit, outTable, b, db)
    ensures Newest(limit, inTable + outTable, Merge(limit, a, b))
  {
    var kept, dropped := Merge(limit, a, b), Dropped(limit, a, b, da, db);
    SidesAddUp(limit, inTable, outTable, a, b, da, db);
    forall d, k | d in dropped && k in kept ensures d.at <= k.at {
      DroppedIsOlder(limit, inTable, outTable, a, b, da, db, d, k);
    }
    SplitsBy(limit, inTable + outTable, kept, dropped);
  }

  /** All that a merge leaves out: the head of the sorted merge and what either
      side's own limit had already dropped. */
  function Dropped(limit: nat, a: seq<Message>, b: seq<Message>, da: seq<Message>, db: seq<Message>): seq<Message> {
    StableSort(a + b)[..|a + b| - |Merge(limit, a, b)|] + da + db
  }

  lemma SplitsBy(limit: nat, all: seq<Message>, kept: seq<Message>, dropped: seq<Message>)
    requires multiset(all) == multiset(kept) + multiset(dropped) && |kept| == Min(limit, |all|)
    requires forall d, k :: d in dropped && k in kept ==> d.at <= k.at
    ensures Newest(limit, all, kept)
  {
    assert Splits(limit, all, kept, dropped);
  }

  lemma SidesAreMerged(a: seq<Message>, b: seq<Message>)
    ensures multiset(a) <= multiset(StableSort(a + b)) && multiset(b) <= multiset(StableSort(a + b))
  {
    assert multiset(a + b) == multiset(a) + multiset(b);
  }

  lemma KeptAt(limit: nat, m: seq<Message>, k: Message) returns (i: nat)
    requires k in KeepLast(limit, m)
    ensures |m| - |KeepLast(limit, m)| <= i < |m| && |m| - limit <= i && m[i] == k
  {
    var kept := KeepLast(limit, m);
    var j :| 0 <= j < |kept| && kept[j] == k;
    i := j + |m| - |kept|;
  }

  lemma DroppedIsOlder(limit: nat, inTable: seq<Message>, outTable: seq<Message>, a: seq<Message>, b: seq<Message>,
                       da: seq<Message>, db: seq<Message>, d: Message, k: Message)
    requires limit >= 1 && Splits(limit, inTable, a, da) && Splits(limit, outTable, b, db)
    requires k in Merge(limit, a, b) && d in Dropped(limit, a, b, da, db)
    ensures d.at <= k.at
  {
    var m := StableSort(a + b);
    var cut := |m| - |Merge(limit, a, b)|;
    var i := KeptAt(limit, m, k);
    SortAscends(a + b);
    SidesAreMerged(a, b);
    if d in m[..cut] {
      HeadIsOlder(m, cut, i, d);
    } else {
      SideIsOlder(limit, inTable, outTable, a, b, da, db, m, i, d);
    }
  }

  lemma SideIsOlder(limit: nat, inTable: seq<Message>, outTable: seq<Message>, a: seq<Message>, b: seq<Message>,
                    da: seq<Message>, db: seq<Message>, m: seq<Message>, i: nat, d: Message)
    requires Splits(limit, inTable, a, da) && Splits(limit, outTable, b, db) && (d in da || d in db)
    requires Ascending(m) && multiset(a) <= multiset(m) && multiset(b) <= multiset(m) && i < |m| && |m| - limit <= i
    ensures d.at <= m[i].at
  {
    if d in da {
      CutIsNewest(limit, inTable, a, da, m, i, d);
    } else {
      CutIsNewest(limit, outTable, b, db, m, i, d);
    }
  }

  lemma HeadIsOlder(m: seq<Message>, cut: nat, i: nat, d: Message)
    requires Ascending(m) && cut <= i < |m| && d in m[..cut]
    ensures d.at <= m[i].at
  {
    var j :| 0 <= j < cut && m[..cut][j] == d;
    assert m[j] == d;
  }

  lemma SidesAddUp(limit: nat, inTable: seq<Message>, outTable: seq<Message>, a: seq<Message>, b: seq<Message>,
                   da: seq<Message>, db: seq<Message>)
    requires Splits(limit, inTable, a, da) && Splits(limit, outTable, b, db)
    ensures multiset(inTable + outTable) == multiset(Merge(limit, a, b)) + multiset(Dropped(limit, a, b, da, db))
    ensures |Merge(limit, a, b)| == Min(limit, |inTable + outTable|)
  {
    MergeAndHead(limit, a, b);
    SplitSizes(limit, inTable, a, da);
    SplitSizes(limit, outTable, b, db);
    var kept := Merge(limit, a, b);
    var head := StableSort(a + b)[..|a + b| - |kept|];
    Regroup(multiset(head), multiset(kept), multiset(a), multiset(b), multiset(da), multiset(db));
    assert Dropped(limit, a, b, da, db) == head + da + db;
    SumOfThree(head, da, db);
    assert multiset(inTable + outTable) == multiset(inTable) + multiset(outTable);
  }

  lemma SplitSizes(limit: nat, all: seq<Message>, kept: seq<Message>, dropped: seq<Message>)
    requires Splits(limit, all, kept, dropped)
    ensures multiset(all) == multiset(kept) + multiset(dropped) && |kept| == Min(limit, |all|)
  {
  }

  lemma SumOfThree(x: seq<Message>, y: seq<Message>, z: seq<Message>)
    ensures multiset(x + y + z) == multiset(x) + multiset(y) + multiset(z)
  {
  }

  lemma Regroup<T>(head: multiset<T>, kept: multiset<T>, a: multiset<T>, b: multiset<T>, da: multiset<T>, db: multiset<T>)
    requires head + kept == a + b
    ensures (a + da) + (b + db) == kept + (head + da + db)
  {
    assert (a + da) + (b + db) == (a + b) + (da + db);
    assert kept + (head + da + db) == (head + kept) + (da + db);
  }

  lemma MergeAndHead(limit: nat, a: seq<Message>, b: seq<Message>)
    ensures var kept := Merge(limit, a, b);
            && |kept| == Min(limit, |a| + |b|)
            && multiset(StableSort(a + b)[..|a + b| - |kept|]) + multiset(kept) == multiset(a) + multiset(b)
  {
    var m := StableSort(a + b);
    assert |m| == |a + b| == |a| + |b| && multiset(m) == multiset(a + b);
    KeepLastSplits(limit, m);
    MultisetOfBoth(a, b);
  }

  lemma MultisetOfBoth(a: seq<Message>, b: seq<Message>)
    ensures multiset(a + b) == multiset(a) + multiset(b)
  {
  }

  lemma KeepLastSplits(limit: nat, m: seq<Message>)
    ensures var kept := KeepLast(limit, m);
            && |kept| == Min(limit, |m|)
            && multiset(m[..|m| - |kept|]) + multiset(kept) == multiset(m)
  {
    assert m == m[..|m| - |KeepLast(limit, m)|] + KeepLast(limit, m);
  }

  lemma {:induction false} DistinctCounts(s: seq<Message>, e: Message)
    requires DistinctTimes(s)
    ensures multiset(s)[e] <= 1
  {
    if s != [] {
      var n := |s| - 1;
      assert s == s[..n] + [s[n]];
      DistinctCounts(s[..n], e);
    }
  }

  lemma {:induction false} AscendingIsUnique(x: seq<Message>, y: seq<Message>)
    requires Ascending(x) && Ascending(y) && multiset(x) == multiset(y) && DistinctTimes(x)
    ensures x == y
  {
    assert |multiset(x)| == |x| && |multiset(y)| == |y|;
    if x != [] {
      var n := |x| - 1;
      SameLast(x, y);
      FrontsAgree(x, y);
      AscendingIsUnique(x[..n], y[..n]);
      assert x == x[..n] + [x[n]] && y == y[..n] + [y[n]];
    }
  }

  lemma FrontsAgree(x: seq<Message>, y: seq<Message>)
    requires |x| == |y| > 0 && multiset(x) == multiset(y) && x[|x| - 1] == y[|y| - 1]
    ensures multiset(x[..|x| - 1]) == multiset(y[..|y| - 1])
  {
    var n := |x| - 1;
    assert x == x[..n] + [x[n]] && y == y[..n] + [y[n]];
    assert multiset(x[..n]) == multiset(x) - multiset{x[n]};
    assert multiset(y[..n]) == multiset(y) - multiset{y[n]};
  }

  lemma SameLast(x: seq<Message>, y: seq<Message>)
    requires Ascending(x) && Ascending(y) && multiset(x) == multiset(y) && DistinctTimes(x) && |x| == |y| > 0
    ensures x[|x| - 1] == y[|y| - 1]
  {
    var n := |x| - 1;
    assert y[n] in multiset(x) && x[n] in multiset(y);
    var i :| 0 <= i <= n && x[i] == y[n];
    var j :| 0 <= j <= n && y[j] == x[n];
    assert x[i].at <= x[n].at && y[j].at <= y[n].at;
  }

  /** Anything of one answer is in every other one. */
  lemma NewestAgree(limit: nat, all: seq<Message>, x: seq<Message>, y: seq<Message>)
    requires DistinctTimes(all) && Newest(limit, all, x) && Newest(limit, all, y)
    ensures multiset(x) <= multiset(y)
  {
    var dx :| Splits(limit, all, x, dx);
    var dy :| Splits(limit, all, y, dy);
    forall e | e in multiset(x) ensures multiset(x)[e] <= multiset(y)[e] {
      if multiset(y)[e] < multiset(x)[e] {
        Straggler(x, y, e);
        var f :| multiset(x)[f] < multiset(y)[f];
        Exchanged(limit, all, x, dx, y, dy, e, f);
        SameTimeIsSame(all, e, f);
      }
    }
  }

  /** A message kept here and dropped there is as new as one kept there and
      dropped here. */
  lemma Exchanged(limit: nat, all: seq<Message>, x: seq<Message>, dx: seq<Message>, y: seq<Message>, dy: seq<Message>, e: Message, f: Message)
    requires Splits(limit, all, x, dx) && Splits(limit, all, y, dy)
    requires multiset(y)[e] < multiset(x)[e] && multiset(x)[f] < multiset(y)[f]
    ensures e.at == f.at && e in all && f in all
  {
    assert multiset(all)[e] == multiset(x)[e] + multiset(dx)[e] == multiset(y)[e] + multiset(dy)[e];
    assert multiset(all)[f] == multiset(x)[f] + multiset(dx)[f] == multiset(y)[f] + multiset(dy)[f];
    assert e in multiset(x) && f in multiset(y) && e in multiset(dy) && f in multiset(dx);
    assert e in dy && f in y && f in dx && e in x;
  }

  lemma SameTimeIsSame(all: seq<Message>, e: Message, f: Message)
    requires DistinctTimes(all) && e in all && f in all && e.at == f.at
    ensures e == f
  {
  }

  lemma Contained(x: seq<Message>, y: seq<Message>)
    requires |x| == |y| && multiset(y) <= multiset(x)
    ensures multiset(x) == multiset(y)
  {
    assert |multiset(x)| == |multiset(y)| + |multiset(x) - multiset(y)|;
    assert |multiset(x)| == |x| && |multiset(y)| == |y|;
    assert multiset(x) == multiset(y) + (multiset(x) - multiset(y));
  }

  lemma Straggler(x: seq<Message>, y: seq<Message>, e: Message)
    requires |x| == |y| && multiset(y)[e] < multiset(x)[e]
    ensures exists f :: multiset(x)[f] < multiset(y)[f]
  {
    if multiset(y) <= multiset(x) {
      Contained(x, y);
    }
  }

  /** With distinct times there is exactly one such answer. */
  lemma NewestIsUnique(limit: nat, all: seq<Message>, x: seq<Message>, y: seq<Message>)
    requires DistinctTimes(all) && Newest(limit, all, x) && Newest(limit, all, y) && Ascending(x) && Ascending(y)
    ensures x == y
  {
    NewestAgree(limit, all, x, y);
    NewestAgree(limit, all, y, x);
    assert multiset(x) == multiset(y);
    var dx :| Splits(limit, all, x, dx);
    KeptDistinct(all, x, dx);
    AscendingIsUnique(x, y);
  }

  lemma KeptDistinct(all: seq<Message>, x: seq<Message>, dx: seq<Message>)
    requires DistinctTimes(all) && multiset(all) == multiset(x) + multiset(dx)
    ensures DistinctTimes(x)
  {
    forall i, j | 0 <= i < j < |x| ensures x[i].at != x[j].at {
      DistinctCounts(all, x[i]);
      Twice(x, i, j);
      assert x[i] in multiset(all) && x[j] in multiset(all);
      var p :| 0 <= p < |all| && all[p] == x[i];
      var q :| 0 <= q < |all| && all[q] == x[j];
    }
  }

  lemma Twice(x: seq<Message>, i: nat, j: nat)
    requires i < j < |x|
    ensures x[i] == x[j] ==> multiset(x)[x[i]] >= 2
  {
    assert x == x[..j] + x[j..];
    assert x[i] in multiset(x[..j]) && x[j] in multiset(x[j..]);
  }

  // ---- sessions ---------------------------------------------------------------------------------

  predicate Gapless(s: seq<Message>) { forall i :: 0 < i < |s| ==> s[i].at - s[i - 1].at <= 2 * 60 * 60 * 1000 }

  /** Where the session under way starts: after the latest gap. */
  function SessionStart(s: seq<Message>): (cut: nat)
    ensures cut <= |s| && (s != [] ==> cut < |s|)
    ensures cut > 0 ==> s[cut].at - s[cut - 1].at > SESSION_GAP
    ensures forall i :: cut < i < |s| ==> s[i].at - s[i - 1].at <= SESSION_GAP
  {
    if |s| <= 1 then 0
    else if s[|s| - 1].at - s[|s| - 2].at > SESSION_GAP then |s| - 1
    else SessionStart(s[..|s| - 1])
  }

  function Session(s: seq<Message>): seq<Message> { s[SessionStart(s)..] }

  /** The session is the longest suffix whose consecutive gaps are all at most
      two hours. */
  lemma SessionIsLongestGapless(s: seq<Message>, cut: nat)
    requires cut <= |s|
    ensures Gapless(Session(s))
    ensures Gapless(s[cut..]) <==> SessionStart(s) <= cut
  {
    GaplessFrom(s, SessionStart(s));
    GaplessFrom(s, cut);
  }

  lemma GaplessFrom(s: seq<Message>, cut: nat)
    requires cut <= |s|
    ensures Gapless(s[cut..]) <==> SessionStart(s) <= cut
  {
    GaplessFromStart(s, SessionStart(s), cut);
  }

  lemma GaplessFromStart(s: seq<Message>, start: nat, cut: nat)
    requires cut <= |s| && start <= |s| && (s != [] ==> start < |s|)
    requires start > 0 ==> s[start].at - s[start - 1].at > SESSION_GAP
    requires forall i :: start < i < |s| ==> s[i].at - s[i - 1].at <= SESSION_GAP
    ensures Gapless(s[cut..]) <==> start <= cut
  {
    if cut < start {
      GapInTail(s, cut, start);
    } else {
      GaplessTail(s, cut);
    }
  }

  lemma GapInTail(s: seq<Message>, cut: nat, gap: nat)
    requires cut < gap < |s| && s[gap].at - s[gap - 1].at > SESSION_GAP
    ensures !Gapless(s[cut..])
  {
    var k := gap - cut;
    assert s[cut..][k] == s[gap] && s[cut..][k - 1] == s[gap - 1];
  }

  lemma GaplessTail(s: seq<Message>, cut: nat)
    requires cut <= |s| && forall i :: cut < i < |s| ==> s[i].at - s[i - 1].at <= SESSION_GAP
    ensures Gapless(s[cut..])
  {
    var tail := s[cut..];
    forall i | 0 < i < |tail| ensures tail[i].at - tail[i - 1].at <= SESSION_GAP {
      assert tail[i] == s[cut + i] && tail[i - 1] == s[cut + i - 1];
    }
  }

  /** Cutting to the newest and pruning to the session commute, so the assistant
      sees the newest of the session, not of some older one. */
  lemma SessionOfNewest(limit: nat, s: seq<Message>)
    requires limit >= 1
    ensures Session(KeepLast(limit, s)) == KeepLast(limit, Session(s))
  {
    var off := if |s| > limit then |s| - limit else 0;
    var kept := KeepLast(limit, s);
    assert kept == s[off..];
    var start, inner := SessionStart(s), SessionStart(kept);
    if inner > 0 {
      assert s[off + inner].at - s[off + inner - 1].at > SESSION_GAP;
      assert off + inner <= start;
    }
    if start > off {
      assert kept[start - off].at - kept[start - off - 1].at > SESSION_GAP;
      assert start - off <= inner;
    }
  }

  // ---- the two readers ----------------------------------------------------------------------------

  /** ORDER BY time DESC LIMIT n over `table`. */
  ghost predicate Fetched(limit: nat, table: seq<Message>, rows: seq<Message>) {
    Newest(limit, table, rows) && forall i, j :: 0 <= i < j < |rows| ==> rows[i].at >= rows[j].at
  }

  method SortStable(s: seq<Message>) returns (r: seq<Message>)
    ensures r == StableSort(s)
  {
    r := [];
    for n := 0 to |s|
      invariant r == StableSort(s[..n])
    {
      assert s[..n + 1][..n] == s[..n];
      r := Insert(r, s[n]);
    }
    assert s[..|s|] == s;
  }

  /** The inbox page of a conversation. */
  method ConversationMessages(limit: nat, ghost inTable: seq<Message>, ghost outTable: seq<Message>,
                              inRows: seq<Message>, outRows: seq<Message>) returns (page: seq<Message>)
    requires 1 <= limit && Fetched(limit, inTable, inRows) && Fetched(limit, outTable, outRows)
    ensures Ascending(page) && Newest(limit, inTable + outTable, page)
  {
    var merged := AppendRows(inRows, outRows);
    page := SortStable(merged);
    if |page| > limit {
      page := page[|page| - limit..];
    }
    assert page == Merge(limit, inRows, outRows);
    MergeKeepsNewest(limit, inTable, outTable, inRows, outRows);
  }

  method AppendRows(inRows: seq<Message>, outRows: seq<Message>) returns (merged: seq<Message>)
    ensures merged == inRows + outRows
  {
    merged := [];
    for i := 0 to |inRows|
      invariant merged == inRows[..i]
    {
      merged := merged + [inRows[i]];
    }
    for i := 0 to |outRows|
      invariant merged == inRows + outRows[..i]
    {
      merged := merged + [outRows[i]];
    }
  }

  /** The session pruning loop: remember the latest gap, cut there. */
  method PruneToSession(history: seq<Message>) returns (r: seq<Message>)
    ensures r == Session(history)
  {
    r := history;
    if |history| > 1 {
      var lastGap := -1;
      for i := 1 to |history|
        invariant lastGap == -1 || 0 < lastGap < i
        invariant lastGap > 0 ==> history[lastGap].at - history[lastGap - 1].at > SESSION_GAP
        invariant forall k :: 0 < k < i && lastGap < k ==> history[k].at - history[k - 1].at <= SESSION_GAP
      {
        if history[i].at - history[i - 1].at > SESSION_GAP {
          lastGap := i;
        }
      }
      if lastGap > 0 {
        r := history[lastGap..];
      }
      assert SessionStart(history) == if lastGap > 0 then lastGap else 0;
    }
  }

  function NonBlank(s: seq<Message>, blank: string -> bool): seq<Message> {
    if s == [] then []
    else NonBlank(s[..|s| - 1], blank) + if blank(s[|s| - 1].text) then [] else [s[|s| - 1]]
  }

  /** `kept` is exactly the messages of `s` whose text is not blank, each once and in
      order; `from` says where each was. */
  predicate Picks(s: seq<Message>, kept: seq<Message>, from: seq<nat>, blank: string -> bool) {
    && |from| == |kept| && (forall j, k :: 0 <= j < k < |from| ==> from[j] < from[k])
    && (forall k :: 0 <= k < |from| ==> from[k] < |s| && kept[k] == s[from[k]] && !blank(kept[k].text))
    && (forall i :: 0 <= i < |s| && !blank(s[i].text) ==> i in from)
  }

  lemma PickOneMore(s: seq<Message>, kept: seq<Message>, from: seq<nat>, m: Message, blank: string -> bool)
    requires Picks(s, kept, from, blank)
    ensures Picks(s + [m], if blank(m.text) then kept else kept + [m], if blank(m.text) then from else from + [|s|], blank)
  {
    var all, more := s + [m], if blank(m.text) then from else from + [|s|];
    forall i | 0 <= i < |all| && !blank(all[i].text) ensures i in more {
      if i < |s| {
        assert all[i] == s[i] && i in from;
      } else {
        assert more[|from|] == i;
      }
    }
  }

  lemma {:induction false} KeptExactly(s: seq<Message>, blank: string -> bool) returns (from: seq<nat>)
    ensures Picks(s, NonBlank(s, blank), from, blank)
  {
    if s == [] {
      from := [];
    } else {
      var front, last := s[..|s| - 1], s[|s| - 1];
      assert s == front + [last];
      from := KeptExactly(front, blank);
      PickOneMore(front, NonBlank(front, blank), from, last, blank);
      if !blank(last.text) {
        from := from + [|front|];
      }
    }
  }

  /** The history the assistant is given; blank messages go last, after they have
      used up their place among the newest ten. */
  method FetchConversationHistory(ghost inTable: seq<Message>, ghost outTable: seq<Message>,
                                  inRows: seq<Message>, outRows: seq<Message>, blank: string -> bool)
      returns (messages: seq<Message>)
    requires Fetched(PER_SIDE, inTable, inRows) && Fetched(PER_SIDE, outTable, outRows)
    ensures exists page, from ::
      && Ascending(page) && Newest(10, inTable + outTable, page)
      && Picks(Session(page), messages, from, blank)
  {
    var history := ConversationMessages(PER_SIDE, inTable, outTable, inRows, outRows);
    ghost var page := history;
    history := PruneToSession(history);
    messages := DropBlank(history, blank);
    ghost var from := KeptExactly(Session(page), blank);
  }

  method DropBlank(history: seq<Message>, blank: string -> bool) returns (messages: seq<Message>)
    ensures messages == NonBlank(history, blank)
  {
    messages := [];
    for i := 0 to |history|
      invariant messages == NonBlank(history[..i], blank)
    {
      assert history[..i + 1][..i] == history[..i];
      if !blank(history[i].text) {
        messages := messages + [history[i]];
      }
    }
    assert history[..|history|] == history;
  }
}
