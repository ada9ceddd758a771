/** One profiling session: frames and stacks are interned into tables as the
    sampler adds goroutine dumps, and samples point into the tables. */
module Profiler {
  import opened Common

  const MAX_DURATION: int := 30000000000   // nanoseconds
  const MIN_TICKS: nat := 2
  const MAX_HOPS: nat := 64

  /** A frame as read from the dump: function name and "file:line". */
  datatype Raw = Raw(function_: string, location: string)

  function Key(raw: Raw): string { raw.function_ + "@" + raw.location }

  // ---- the stack key --------------------------------------------------------------------------

  function Digit(d: nat): char
    requires d < 10
  {
    ('0' as int + d) as char
  }

  function Itoa(n: nat): (s: string)
    ensures s != "" && forall i :: 0 <= i < |s| ==> '0' <= s[i] <= '9'
  {
    if n < 10 then [Digit(n)] else Itoa(n / 10) + [Digit(n % 10)]
  }

  lemma {:induction false} ItoaIsInjective(m: nat, n: nat)
    requires Itoa(m) == Itoa(n)
    ensures m == n
  {
    var s := Itoa(m);
    assert m >= 10 ==> s == Itoa(m / 10) + [Digit(m % 10)];
    assert n >= 10 ==> s == Itoa(n / 10) + [Digit(n % 10)];
    assert s[|s| - 1] == Digit(m % 10) == Digit(n % 10);
    if m >= 10 && n >= 10 {
      assert Itoa(m / 10) == s[..|s| - 1] == Itoa(n / 10);
      ItoaIsInjective(m / 10, n / 10);
    }
  }

  /** Frame ids in decimal, each ended by a comma. */
  function StackKey(stack: seq<nat>): string {
    if stack == [] then "" else StackKey(stack[..|stack| - 1]) + Itoa(stack[|stack| - 1]) + ","
  }

  /** The last number of the key starts at `j`. */
  predicate LastStarts(key: string, j: nat) {
    j < |key| && (j == 0 || key[j - 1] == ',') && forall i :: j <= i < |key| - 1 ==> key[i] != ','
  }

  lemma LastNumber(stack: seq<nat>)
    requires stack != []
    ensures LastStarts(StackKey(stack), |StackKey(stack[..|stack| - 1])|)
  {
    var n := |stack| - 1;
    StartsAfter(StackKey(stack[..n]), Itoa(stack[n]));
  }

  lemma StartsAfter(p: string, d: string)
    requires p == "" || p[|p| - 1] == ','
    requires forall i :: 0 <= i < |d| ==> d[i] != ','
    ensures LastStarts(p + d + ",", |p|)
  {
    var key := p + d + ",";
    forall i | |p| <= i < |key| - 1 ensures key[i] != ',' {
      assert key[i] == d[i - |p|];
    }
  }

  /** Without the terminating comma [1, 12] and [11, 2] would share a key; with it
      different stacks never do. */
  lemma {:induction false} StackKeyIsInjective(s: seq<nat>, t: seq<nat>)
    requires StackKey(s) == StackKey(t)
    ensures s == t
  {
    if s != [] && t != [] {
      var m, n := |s| - 1, |t| - 1;
      LastNumber(s);
      LastNumber(t);
      var p, q, d, e := StackKey(s[..m]), StackKey(t[..n]), Itoa(s[m]), Itoa(t[n]);
      var key := StackKey(s);
      assert key == p + d + "," == q + e + ",";
      assert |p| == |q|;
      assert p == key[..|p|] == q;
      assert d == key[|p|..|key| - 1] == e;
      StackKeyIsInjective(s[..m], t[..n]);
      ItoaIsInjective(s[m], t[n]);
      assert s == s[..m] + [s[m]] && t == t[..n] + [t[n]];
    }
  }

  // ---- the tables -----------------------------------------------------------------------------

  datatype Sample = Sample(elapsed: int, stackId: nat, thread: nat)

  /** What the sampler saw: kept only to say what the tables mean. */
  datatype Seen = Seen(elapsed: int, thread: nat, frames: seq<Raw>)

  predicate FramesOk(frames: seq<Raw>, index: map<string, nat>) {
    && (forall i :: 0 <= i < |frames| ==> Key(frames[i]) in index && index[Key(frames[i])] == i)
    && (forall k <- index :: index[k] < |frames| && Key(frames[index[k]]) == k)
  }

  predicate InRange(stack: seq<nat>, n: nat) { forall i :: 0 <= i < |stack| ==> stack[i] < n }

  predicate StacksOk(stacks: seq<seq<nat>>, index: map<string, nat>, n: nat) {
    && (forall i :: 0 <= i < |stacks| ==> stacks[i] != [] && InRange(stacks[i], n))
    && (forall i :: 0 <= i < |stacks| ==> StackKey(stacks[i]) in index && index[StackKey(stacks[i])] == i)
    && (forall k <- index :: index[k] < |stacks| && StackKey(stacks[index[k]]) == k)
  }

  /** `stack` names frames with the same keys as `raws`. */
  predicate Names(frames: seq<Raw>, stack: seq<nat>, raws: seq<Raw>) {
    |stack| == |raws| && InRange(stack, |frames|) && forall i :: 0 <= i < |raws| ==> Key(frames[stack[i]]) == Key(raws[i])
  }

  predicate SampleOk(frames: seq<Raw>, stacks: seq<seq<nat>>, sample: Sample, seen: Seen) {
    && sample.elapsed == seen.elapsed <= MAX_DURATION && sample.thread == seen.thread && seen.frames != []
    && sample.stackId < |stacks| && Names(frames, stacks[sample.stackId], seen.frames)
  }

  predicate SamplesOk(frames: seq<Raw>, stacks: seq<seq<nat>>, samples: seq<Sample>, log: seq<Seen>) {
    |samples| == |log| && forall i :: 0 <= i < |samples| ==> SampleOk(frames, stacks, samples[i], log[i])
  }

  predicate KeyDetermines(raws: set<Raw>) { forall x <- raws, y <- raws :: Key(x) == Key(y) ==> x == y }

  predicate FramesMet(frames: seq<Raw>, met: set<Raw>) { forall k :: 0 <= k < |frames| ==> frames[k] in met }

  predicate LogMet(log: seq<Seen>, met: set<Raw>) { forall s <- log :: FramesMet(s.frames, met) }

  function ThreadsOf(log: seq<Seen>): set<nat> { set s <- log :: s.thread }

  function Resolve(frames: seq<Raw>, stack: seq<nat>): seq<Raw>
    requires InRange(stack, |frames|)
  {
    seq(|stack|, i requires 0 <= i < |stack| => frames[stack[i]])
  }

  /** Equal stacks share one id. */
  lemma EqualStacksShareId(stacks: seq<seq<nat>>, index: map<string, nat>, n: nat, i: nat, j: nat)
    requires StacksOk(stacks, index, n) && i < |stacks| && j < |stacks|
    ensures stacks[i] == stacks[j] <==> i == j
  {
  }

  /** Interning is lossless wherever a key determines its frame. */
  lemma ResolvesToWhatWasSampled(frames: seq<Raw>, stacks: seq<seq<nat>>, samples: seq<Sample>, log: seq<Seen>, met: set<Raw>, i: nat)
    requires SamplesOk(frames, stacks, samples, log) && i < |samples| && KeyDetermines(met)
    requires FramesMet(frames, met) && FramesMet(log[i].frames, met)
    ensures InRange(stacks[samples[i].stackId], |frames|) && Resolve(frames, stacks[samples[i].stackId]) == log[i].frames
  {
    assert SampleOk(frames, stacks, samples[i], log[i]);
  }

  /** Function names without an at-sign make every key determine its frame. */
  lemma PlainNamesDetermine(raws: set<Raw>)
    requires forall r <- raws :: forall i :: 0 <= i < |r.function_| ==> r.function_[i] != '@'
    ensures KeyDetermines(raws)
  {
    forall x <- raws, y <- raws | Key(x) == Key(y) ensures x == y {
      FirstAtSign(x);
      FirstAtSign(y);
      var n := |x.function_|;
      assert n == |y.function_|;
      assert x.function_ == Key(x)[..n] == y.function_;
      assert x.location == Key(x)[n + 1..] == y.location;
    }
  }

  predicate FirstAt(key: string, n: nat) { n < |key| && key[n] == '@' && forall i :: 0 <= i < n ==> key[i] != '@' }

  lemma FirstAtSign(raw: Raw)
    requires forall i :: 0 <= i < |raw.function_| ==> raw.function_[i] != '@'
    ensures FirstAt(Key(raw), |raw.function_|)
  {
    forall i | 0 <= i < |raw.function_| ensures Key(raw)[i] != '@' {
      assert Key(raw)[i] == raw.function_[i];
    }
  }

  /** The name of `y` continues that of `x` across an at-sign, and the location of
      `x` makes up for it. */
  predicate Confusable(x: Raw, y: Raw) {
    && |x.function_| < |y.function_|
    && var mid := y.function_[|x.function_| + 1..];
       y.function_ == x.function_ + "@" + mid && x.location == mid + "@" + y.location
  }

  /** Two different frames share a key exactly when one name continues the other
      across an at-sign. */
  lemma SameKeyExactly(x: Raw, y: Raw)
    requires |x.function_| <= |y.function_|
    ensures Key(x) == Key(y) && x != y <==> Confusable(x, y)
  {
    var n, m := |x.function_|, |y.function_|;
    assert Key(x)[..n] == x.function_ && Key(y)[..m] == y.function_;
    assert Key(x)[n + 1..] == x.location && Key(y)[m + 1..] == y.location;
    if Key(x) == Key(y) && n < m {
      SplitKey(x, y);
    }
    if Confusable(x, y) {
      var mid := y.function_[n + 1..];
      assert x.function_ + "@" + (mid + "@" + y.location) == x.function_ + "@" + mid + "@" + y.location;
    }
  }

  lemma SplitKey(x: Raw, y: Raw)
    requires |x.function_| < |y.function_| && Key(x) == Key(y)
    ensures Confusable(x, y)
  {
    var n, m, k := |x.function_|, |y.function_|, Key(x);
    var mid := y.function_[n + 1..];
    assert y.function_ == k[..m] && k[..m][..n] == k[..n] == x.function_ && k[n] == '@';
    assert y.function_ == y.function_[..n] + [y.function_[n]] + mid;
    assert x.location == k[n + 1..] == k[n + 1..m] + k[m..];
    assert k[n + 1..m] == mid && k[m..] == "@" + y.location;
  }

  /** Keys determine frames, in any set, if and only if no two of its frames are
      confusable. */
  lemma KeyDeterminesExactly(raws: set<Raw>)
    ensures KeyDetermines(raws) <==> forall x <- raws, y <- raws :: !Confusable(x, y)
  {
    forall x <- raws, y <- raws
      ensures Key(x) == Key(y) && x != y <==> Confusable(x, y) || Confusable(y, x)
    {
      if |x.function_| <= |y.function_| {
        SameKeyExactly(x, y);
      } else {
        SameKeyExactly(y, x);
      }
    }
  }

  /** The key relies on names without an at-sign, and Go function names and import
      paths have none. Were there one, two frames could share a key and the second
      would be recorded as the first. */
  lemma AtSignIsAmbiguous()
    ensures var x, y := Raw("f@g", "a.go:1"), Raw("f", "g@a.go:1");
            x != y && !KeyDetermines({x, y})
  {
    var x, y := Raw("f@g", "a.go:1"), Raw("f", "g@a.go:1");
    assert Key(x) == "f@g@a.go:1" == Key(y);
  }

  // ---- which goroutines belong to the session ---------------------------------------------------

  /** The ancestor `hops` generations up, while the dump still knows it. */
  function Ancestor(parent: map<nat, nat>, id: nat, hops: nat): Option<nat>
    decreases hops
  {
    if hops == 0 then Some(id)
    else if id in parent then Ancestor(parent, parent[id], hops - 1)
    else None
  }

  ghost predicate Descends(parent: map<nat, nat>, id: nat, root: nat) {
    exists k: nat :: k < 64 && Ancestor(parent, id, k) == Some(root)
  }

  lemma {:induction false} AncestorStep(parent: map<nat, nat>, id: nat, k: nat)
    ensures Ancestor(parent, id, k + 1) ==
            match Ancestor(parent, id, k) case None => None case Some(a) => if a in parent then Some(parent[a]) else None
    decreases k
  {
    if k > 0 && id in parent {
      AncestorStep(parent, parent[id], k - 1);
    }
  }

  lemma {:induction false} NoneFromThere(parent: map<nat, nat>, id: nat, k: nat, later: nat)
    requires Ancestor(parent, id, k) == None && k <= later
    ensures Ancestor(parent, id, later) == None
  {
    if k < later {
      NoneFromThere(parent, id, k, later - 1);
      AncestorStep(parent, id, later - 1);
    }
  }

  /** The root is an ancestor fewer than 64 generations up, whatever cycles the
      parent links form. */
  method DescendsFrom(parent: map<nat, nat>, id: nat, root: nat) returns (r: bool)
    ensures r <==> Descends(parent, id, root)
  {
    var at := id;
    for k := 0 to MAX_HOPS
      invariant Ancestor(parent, id, k) == Some(at)
      invariant forall j: nat :: j < k ==> Ancestor(parent, id, j) != Some(root)
    {
      if at == root {
        return true;
      }
      AncestorStep(parent, id, k);
      if at !in parent {
        forall j: nat | k < j ensures Ancestor(parent, id, j) == None {
          NoneFromThere(parent, id, k + 1, j);
        }
        return false;
      }
      at := parent[at];
    }
    return false;
  }

  datatype Goroutine = Goroutine(id: nat, frames: seq<Raw>)
  datatype Dump = Dump(goroutines: seq<Goroutine>, parent: map<nat, nat>)

  ghost function Share(g: Goroutine, parent: map<nat, nat>, root: nat, elapsed: int): seq<Seen> {
    if Descends(parent, g.id, root) && g.frames != [] then [Seen(elapsed, g.id, g.frames)] else []
  }

  /** What one dump contributes: its descending goroutines that have frames. */
  ghost function Taken(gs: seq<Goroutine>, parent: map<nat, nat>, root: nat, elapsed: int): seq<Seen> {
    if gs == [] then []
    else Taken(gs[..|gs| - 1], parent, root, elapsed) + Share(gs[|gs| - 1], parent, root, elapsed)
  }

  /** A dump contributes exactly its goroutines that have frames and `root` among their
      ancestors fewer than 64 generations up, each once and in order. */
  lemma {:induction false} TakenExactly(gs: seq<Goroutine>, parent: map<nat, nat>, root: nat, elapsed: int) returns (from: seq<nat>)
    ensures var seen := Taken(gs, parent, root, elapsed);
            && |from| == |seen| && (forall j, k :: 0 <= j < k < |from| ==> from[j] < from[k])
            && (forall k :: 0 <= k < |from| ==> from[k] < |gs| && IsSeen(gs[from[k]], parent, root, elapsed, seen[k]))
            && (forall i :: 0 <= i < |gs| && i !in from ==>
                 gs[i].frames == [] || forall k: nat :: k < 64 ==> Ancestor(parent, gs[i].id, k) != Some(root))
  {
    if gs == [] {
      from := [];
    } else {
      var n := |gs| - 1;
      from := TakenExactly(gs[..n], parent, root, elapsed);
      if Descends(parent, gs[n].id, root) && gs[n].frames != [] {
        TakenOneMore(gs, parent, root, elapsed, from);
        from := from + [n];
      } else {
        assert Taken(gs, parent, root, elapsed) == Taken(gs[..n], parent, root, elapsed);
      }
    }
  }

  ghost predicate IsSeen(g: Goroutine, parent: map<nat, nat>, root: nat, elapsed: int, seen: Seen) {
    && seen.elapsed == elapsed && seen.thread == g.id && seen.frames == g.frames != []
    && exists k: nat :: k < 64 && Ancestor(parent, g.id, k) == Some(root)
  }

  lemma TakenOneMore(gs: seq<Goroutine>, parent: map<nat, nat>, root: nat, elapsed: int, from: seq<nat>)
    requires gs != [] && Descends(parent, gs[|gs| - 1].id, root) && gs[|gs| - 1].frames != []
    requires |from| == |Taken(gs[..|gs| - 1], parent, root, elapsed)|
    ensures var n := |gs| - 1;
            var seen := Taken(gs, parent, root, elapsed);
            && seen == Taken(gs[..n], parent, root, elapsed) + [seen[|from|]] && |seen| == |from| + 1
            && IsSeen(gs[n], parent, root, elapsed, seen[|from|])
  {
  }

  datatype Payload = Payload(frames: seq<Raw>, stacks: seq<seq<nat>>, samples: seq<Sample>, threads: set<nat>)

  class ProfileSession {
    const root: nat
    var stopped: bool
    var frames: seq<Raw>
    var frameIndex: map<string, nat>
    var stacks: seq<seq<nat>>
    var stackIndex: map<string, nat>
    var samples: seq<Sample>
    var threads: set<nat>
    var ticks: nat
    ghost var log: seq<Seen>
    ghost var met: set<Raw>

    ghost predicate Valid()
      reads this
    {
      && FramesOk(frames, frameIndex)
      && StacksOk(stacks, stackIndex, |frames|)
      && SamplesOk(frames, stacks, samples, log)
      && FramesMet(frames, met) && LogMet(log, met)
      && threads == ThreadsOf(log)
    }

    constructor (goid: nat)
      ensures Valid() && log == [] && met == {} && ticks == 0 && !stopped && root == goid
    {
      root := goid;
      stopped, ticks := false, 0;
      frames, frameIndex, stacks, stackIndex, samples, threads := [], map[], [], map[], [], {};
      log, met := [], {};
    }

    method InternFrame(raw: Raw) returns (idx: nat)
      requires Valid()
      modifies this`frames, this`frameIndex, this`met
      ensures Valid() && old(frames) <= frames && met == old(met) + {raw}
      ensures idx < |frames| && Key(frames[idx]) == Key(raw)
    {
      if Key(raw) in frameIndex {
        idx := frameIndex[Key(raw)];
      } else {
        idx := |frames|;
        TablesGrow(frames, frames + [raw], stacks, stacks, stackIndex, samples, log);
        frames := frames + [raw];
        frameIndex := frameIndex[Key(raw) := idx];
      }
      met := met + {raw};
    }

    /** The first `n` frames have their ids; before them the session had the
        frames `first` and had met `known`. */
    ghost predicate Interning(raws: seq<Raw>, n: nat, stack: seq<nat>, key: string, first: seq<Raw>, known: set<Raw>)
      requires n <= |raws|
      reads this
    {
      && Valid() && first <= frames
      && Names(frames, stack, raws[..n]) && key == StackKey(stack)
      && met == known + RawSet(raws[..n])
    }

    /** Frame ids for one goroutine and their key. */
    method InternFrames(raws: seq<Raw>) returns (stack: seq<nat>, key: string)
      requires Valid()
      modifies this`frames, this`frameIndex, this`met
      ensures Valid() && old(frames) <= frames
      ensures Names(frames, stack, raws) && key == StackKey(stack)
      ensures met == old(met) + RawSet(raws)
    {
      stack, key := [], "";
      for n := 0 to |raws|
        invariant Interning(raws, n, stack, key, old(frames), old(met))
      {
        stack, key := InternNext(raws, n, stack, key, old(frames), old(met));
      }
      assert raws[..|raws|] == raws;
    }

    method InternNext(raws: seq<Raw>, n: nat, stack: seq<nat>, key: string, ghost first: seq<Raw>, ghost known: set<Raw>)
      returns (stack': seq<nat>, key': string)
      requires n < |raws| && Interning(raws, n, stack, key, first, known)
      modifies this`frames, this`frameIndex, this`met
      ensures Interning(raws, n + 1, stack', key', first, known)
    {
      ghost var before := frames;
      var idx := InternFrame(raws[n]);
      NamesOneMore(before, frames, stack, raws, n, idx);
      stack' := stack + [idx];
      key' := key + Itoa(idx) + ",";
    }

    method InternStack(stack: seq<nat>, key: string) returns (stackId: nat)
      requires Valid() && stack != [] && InRange(stack, |frames|) && key == StackKey(stack)
      modifies this`stacks, this`stackIndex
      ensures Valid() && old(stacks) <= stacks
      ensures stackId < |stacks| && stacks[stackId] == stack
    {
      if key in stackIndex {
        stackId := stackIndex[key];
        StackKeyIsInjective(stacks[stackId], stack);
      } else {
        stackId := |stacks|;
        stacks := stacks + [stack];
        stackIndex := stackIndex[key := stackId];
        SamplesGrow(frames, frames, old(stacks), stacks, samples, log);
      }
    }

    /** One goroutine of a dump: interned and sampled, unless it has no frames. */
    method AddGoroutine(elapsed: int, g: Goroutine) returns (taken: bool)
      requires Valid() && elapsed <= MAX_DURATION
      modifies this`frames, this`frameIndex, this`stacks, this`stackIndex, this`samples, this`threads, this`log, this`met
      ensures Valid() && old(frames) <= frames && old(stacks) <= stacks && old(samples) <= samples
      ensures taken <==> g.frames != []
      ensures log == if taken then old(log) + [Seen(elapsed, g.id, g.frames)] else old(log)
      ensures met == old(met) + RawSet(g.frames)
    {
      var stack, key := InternFrames(g.frames);
      taken := stack != [];
      if taken {
        var stackId := InternStack(stack, key);
        Record(elapsed, stackId, g);
      }
    }

    method Record(elapsed: int, stackId: nat, g: Goroutine)
      requires Valid() && elapsed <= MAX_DURATION && stackId < |stacks| && g.frames != []
      requires Names(frames, stacks[stackId], g.frames) && RawSet(g.frames) <= met
      modifies this`samples, this`threads, this`log
      ensures Valid() && old(samples) <= samples && log == old(log) + [Seen(elapsed, g.id, g.frames)]
    {
      samples := samples + [Sample(elapsed, stackId, g.id)];
      log := log + [Seen(elapsed, g.id, g.frames)];
      threads := threads + {g.id};
    }

    /** One tick of the sampler. A stopped or overlong session ignores it. */
    method Add(elapsed: int, dump: Dump)
      requires Valid()
      modifies this
      ensures Valid() && old(frames) <= frames && old(stacks) <= stacks && old(samples) <= samples && stopped == old(stopped)
      ensures stopped || elapsed > 30_000_000_000 ==> log == old(log) && ticks == old(ticks)
      ensures !stopped && elapsed <= 30_000_000_000 ==>
        var seen := Taken(dump.goroutines, dump.parent, root, elapsed);
        log == old(log) + seen && ticks == old(ticks) + if seen == [] then 0 else 1
    {
      if stopped || elapsed > MAX_DURATION {
        return;
      }
      var sampled := AddGoroutines(elapsed, dump);
      assert dump.goroutines[..|dump.goroutines|] == dump.goroutines;
      if sampled {
        ticks := ticks + 1;
      }
    }

    method AddIfDescends(elapsed: int, g: Goroutine, parent: map<nat, nat>) returns (taken: bool)
      requires Valid() && elapsed <= MAX_DURATION
      modifies this`frames, this`frameIndex, this`stacks, this`stackIndex, this`samples, this`threads, this`log, this`met
      ensures Valid() && old(frames) <= frames && old(stacks) <= stacks && old(samples) <= samples
      ensures log == old(log) + Share(g, parent, root, elapsed)
      ensures taken <==> Share(g, parent, root, elapsed) != []
    {
      taken := DescendsFrom(parent, g.id, root);
      if taken {
        taken := AddGoroutine(elapsed, g);
      }
    }

    method AddNext(elapsed: int, dump: Dump, n: nat, sampled: bool, ghost start: seq<Seen>) returns (sampled': bool)
      requires Valid() && elapsed <= MAX_DURATION && n < |dump.goroutines|
      requires Progress(start, log, dump, n, root, elapsed, sampled)
      modifies this`frames, this`frameIndex, this`stacks, this`stackIndex, this`samples, this`threads, this`log, this`met
      ensures Valid() && old(frames) <= frames && old(stacks) <= stacks && old(samples) <= samples
      ensures Progress(start, log, dump, n + 1, root, elapsed, sampled')
    {
      TakenStep(dump, n, root, elapsed);
      var taken := AddIfDescends(elapsed, dump.goroutines[n], dump.parent);
      sampled' := sampled || taken;
    }

    method AddGoroutines(elapsed: int, dump: Dump) returns (sampled: bool)
      requires Valid() && elapsed <= MAX_DURATION
      modifies this`frames, this`frameIndex, this`stacks, this`stackIndex, this`samples, this`threads, this`log, this`met
      ensures Valid() && old(frames) <= frames && old(stacks) <= stacks && old(samples) <= samples
      ensures Progress(old(log), log, dump, |dump.goroutines|, root, elapsed, sampled)
    {
      sampled := false;
      for n := 0 to |dump.goroutines|
        invariant Valid() && old(frames) <= frames && old(stacks) <= stacks && old(samples) <= samples
        invariant Progress(old(log), log, dump, n, root, elapsed, sampled)
      {
        sampled := AddNext(elapsed, dump, n, sampled, old(log));
      }
    }

    /** The profile of the session: none when already stopped or with fewer than
        two ticks; every sample in it resolves to what was sampled. */
    method Stop() returns (payload: Option<Payload>)
      requires Valid()
      modifies this`stopped
      ensures Valid() && stopped
      ensures payload.None? <==> old(stopped) || ticks < 2
      ensures payload.Some? ==>
        && SamplesOk(payload.value.frames, payload.value.stacks, payload.value.samples, log)
        && payload.value.threads == ThreadsOf(log)
    {
      if stopped || ticks < MIN_TICKS {
        stopped := true;
        return None;
      }
      stopped := true;
      return Some(Payload(frames, stacks, samples, threads));
    }
  }

  /** The first `n` goroutines of the dump have been added. */
  ghost predicate Progress(start: seq<Seen>, log: seq<Seen>, dump: Dump, n: nat, root: nat, elapsed: int, sampled: bool)
    requires n <= |dump.goroutines|
  {
    var seen := Taken(dump.goroutines[..n], dump.parent, root, elapsed);
    log == start + seen && (sampled <==> seen != [])
  }

  lemma TakenStep(dump: Dump, n: nat, root: nat, elapsed: int)
    requires n < |dump.goroutines|
    ensures Taken(dump.goroutines[..n + 1], dump.parent, root, elapsed)
         == Taken(dump.goroutines[..n], dump.parent, root, elapsed) + Share(dump.goroutines[n], dump.parent, root, elapsed)
  {
    assert dump.goroutines[..n + 1][..n] == dump.goroutines[..n];
  }

  function RawSet(raws: seq<Raw>): set<Raw> { set r <- raws }

  lemma NamesOneMore(f: seq<Raw>, f': seq<Raw>, stack: seq<nat>, raws: seq<Raw>, n: nat, idx: nat)
    requires n < |raws| && Names(f, stack, raws[..n]) && f <= f' && idx < |f'| && Key(f'[idx]) == Key(raws[n])
    ensures Names(f', stack + [idx], raws[..n + 1])
    ensures StackKey(stack + [idx]) == StackKey(stack) + Itoa(idx) + ","
    ensures RawSet(raws[..n + 1]) == RawSet(raws[..n]) + {raws[n]}
  {
    assert (stack + [idx])[..n] == stack;
    assert raws[..n + 1] == raws[..n] + [raws[n]];
    forall i | 0 <= i < n ensures Key(f'[stack[i]]) == Key(raws[..n + 1][i]) {
      assert raws[..n][i] == raws[i];
    }
  }

  lemma SamplesGrow(f: seq<Raw>, f': seq<Raw>, t: seq<seq<nat>>, t': seq<seq<nat>>, samples: seq<Sample>, log: seq<Seen>)
    requires SamplesOk(f, t, samples, log) && f <= f' && t <= t'
    ensures SamplesOk(f', t', samples, log)
  {
    forall i | 0 <= i < |samples| ensures SampleOk(f', t', samples[i], log[i]) {
      assert SampleOk(f, t, samples[i], log[i]);
    }
  }

  /** Growing the frame table leaves stacks and samples meaning what they meant. */
  lemma TablesGrow(f: seq<Raw>, f': seq<Raw>, t: seq<seq<nat>>, t': seq<seq<nat>>, index: map<string, nat>,
                   samples: seq<Sample>, log: seq<Seen>)
    requires SamplesOk(f, t, samples, log) && f <= f' && t <= t' && StacksOk(t, index, |f|)
    ensures SamplesOk(f', t', samples, log) && StacksOk(t, index, |f'|)
  {
    SamplesGrow(f, f', t, t', samples, log);
    forall i | 0 <= i < |t| ensures InRange(t[i], |f'|) {
      assert InRange(t[i], |f|);
    }
  }
}
