/** The images of one product: a position per image id, under a unique
    (product, position) index that is checked at every single row write. */
module ImagePositions {
  import opened Common

  const MAX_IMAGES: int := 5
  const REORDER_OFFSET: int := 1000

  type Rows = map<string, int>

  predicate Unique(rows: Rows) {
    forall a <- rows, b <- rows :: a != b ==> rows[a] != rows[b]
  }

  /** Positions 0..n-1, each taken once. */
  predicate Dense(rows: Rows) {
    Unique(rows) && forall a <- rows :: 0 <= rows[a] < |rows|
  }

  predicate Distinct(ids: seq<string>) { forall i, j :: 0 <= i < j < |ids| ==> ids[i] != ids[j] }

  function Ids(ids: seq<string>): set<string> { set i | 0 <= i < |ids| :: ids[i] }

  lemma {:induction false} DistinctSize(ids: seq<string>)
    requires Distinct(ids)
    ensures |Ids(ids)| == |ids|
  {
    if ids != [] {
      var n := |ids| - 1;
      DistinctSize(ids[..n]);
      assert Ids(ids) == Ids(ids[..n]) + {ids[n]};
    }
  }

  function Positions(rows: Rows): set<int> { set a <- rows :: rows[a] }

  function Range(n: nat): (r: set<int>)
    ensures |r| == n && forall p :: p in r <==> 0 <= p < n
  {
    if n == 0 then {} else Range(n - 1) + {n - 1}
  }

  lemma UniqueSize(rows: Rows)
    requires Unique(rows)
    ensures |Positions(rows)| == |rows|
    decreases |rows|
  {
    if rows == map[] {
      assert Positions(rows) == {};
    } else {
      var a :| a in rows;
      var rest := rows - {a};
      UniqueSize(rest);
      forall p ensures p in Positions(rows) <==> p in Positions(rest) + {rows[a]} {
        if b :| b in rows && rows[b] == p {
          assert b == a || b in rest;
        }
      }
      assert rows[a] !in Positions(rest);
      assert Positions(rows) == Positions(rest) + {rows[a]};
      assert rows.Keys == rest.Keys + {a};
    }
  }

  lemma SubsetOfSameSize<T>(s: set<T>, t: set<T>)
    requires s <= t && |s| == |t|
    ensures s == t
  {
    if x :| x in t && x !in s {
      SubsetSize(s, t - {x});
      assert false;
    }
  }

  lemma SubsetSize<T>(s: set<T>, t: set<T>)
    requires s <= t
    ensures |s| <= |t|
    decreases |s|
  {
    if s != {} {
      var x :| x in s;
      SubsetSize(s - {x}, t - {x});
    }
  }

  /** Dense means every position below n is taken by some image. */
  lemma DenseIsFull(rows: Rows)
    ensures Dense(rows) <==> Unique(rows) && Positions(rows) == Range(|rows|)
  {
    if Dense(rows) {
      UniqueSize(rows);
      SubsetOfSameSize(Positions(rows), Range(|rows|));
    }
    if Positions(rows) == Range(|rows|) {
      forall a <- rows ensures rows[a] in Range(|rows|) {
        assert rows[a] in Positions(rows);
      }
    }
  }

  // ---- serialised operations ------------------------------------------------------------

  predicate Fresh(rows: Rows, ids: seq<string>) { Distinct(ids) && forall i :: 0 <= i < |ids| ==> ids[i] !in rows }

  /** The rows after appending `ids` at positions next, next+1, ... */
  function Appended(rows: Rows, ids: seq<string>, next: int): Rows {
    if ids == [] then rows
    else Appended(rows, ids[..|ids| - 1], next)[ids[|ids| - 1] := next + |ids| - 1]
  }

  lemma {:induction false} AppendedKeys(rows: Rows, ids: seq<string>, next: int)
    ensures Appended(rows, ids, next).Keys == rows.Keys + Ids(ids)
  {
    if ids != [] {
      var n := |ids| - 1;
      AppendedKeys(rows, ids[..n], next);
      assert Ids(ids) == Ids(ids[..n]) + {ids[n]};
    }
  }

  lemma {:induction false} AppendedNew(rows: Rows, ids: seq<string>, next: int, i: nat)
    requires Distinct(ids) && i < |ids|
    ensures ids[i] in Appended(rows, ids, next) && Appended(rows, ids, next)[ids[i]] == next + i
  {
    if i < |ids| - 1 {
      AppendedNew(rows, ids[..|ids| - 1], next, i);
    }
  }

  lemma {:induction false} AppendedOld(rows: Rows, ids: seq<string>, next: int, a: string)
    requires a in rows && forall i :: 0 <= i < |ids| ==> ids[i] != a
    ensures a in Appended(rows, ids, next) && Appended(rows, ids, next)[a] == rows[a]
  {
    if ids != [] {
      AppendedOld(rows, ids[..|ids| - 1], next, a);
    }
  }

  lemma AppendedSize(rows: Rows, ids: seq<string>, next: int)
    requires Fresh(rows, ids)
    ensures |Appended(rows, ids, next)| == |rows| + |ids|
  {
    var r := Appended(rows, ids, next);
    DistinctSize(ids);
    AppendedKeys(rows, ids, next);
    assert rows.Keys !! Ids(ids);
    assert |r| == |r.Keys| && |rows| == |rows.Keys|;
  }

  lemma {:induction false} AppendedFrom(rows: Rows, ids: seq<string>, next: int, a: string)
    requires a in Appended(rows, ids, next)
    ensures a in rows || a in ids
  {
    if ids != [] && a != ids[|ids| - 1] {
      AppendedFrom(rows, ids[..|ids| - 1], next, a);
    }
  }

  lemma AppendedAt(rows: Rows, ids: seq<string>, next: int)
    requires Fresh(rows, ids)
    ensures var r := Appended(rows, ids, next);
            && |r| == |rows| + |ids|
            && (forall i :: 0 <= i < |ids| ==> ids[i] in r && r[ids[i]] == next + i)
            && (forall a <- rows :: a in r && r[a] == rows[a])
            && (forall a <- r :: a in rows || a in ids)
  {
    var r := Appended(rows, ids, next);
    AppendedSize(rows, ids, next);
    forall i | 0 <= i < |ids| ensures ids[i] in r && r[ids[i]] == next + i {
      AppendedNew(rows, ids, next, i);
    }
    forall a <- rows ensures a in r && r[a] == rows[a] {
      AppendedOld(rows, ids, next, a);
    }
    forall a <- r ensures a in rows || a in ids {
      AppendedFrom(rows, ids, next, a);
    }
  }

  /** Closing the gap a removed image leaves. */
  function Removed(rows: Rows, id: string): Rows {
    if id !in rows then rows
    else map a | a in rows && a != id :: if rows[a] < rows[id] then rows[a] else rows[a] - 1
  }

  /** Park-then-assign: listed images take their index, unlisted ones stay parked. */
  function Reordered(rows: Rows, ids: seq<string>): Rows {
    map a | a in rows :: if a in Ids(ids) then IndexOf(ids, a) else rows[a] + REORDER_OFFSET
  }

  function IndexOf(ids: seq<string>, a: string): (k: nat)
    ensures k <= |ids|
    ensures a in Ids(ids) ==> k < |ids| && ids[k] == a
  {
    if ids == [] then 0
    else if ids[0] == a then 0
    else
      assert a in Ids(ids) ==> a in Ids(ids[1..]) by {
        if a in Ids(ids) {
          var i :| 0 <= i < |ids| && ids[i] == a;
          assert ids[1..][i - 1] == a;
        }
      }
      1 + IndexOf(ids[1..], a)
  }

  lemma IndexOfAt(ids: seq<string>, i: nat)
    requires Distinct(ids) && i < |ids|
    ensures IndexOf(ids, ids[i]) == i
  {
    assert ids[i] in Ids(ids);
  }

  datatype Op = Upload(ids: seq<string>) | Remove(id: string) | Reorder(ids: seq<string>)

  predicate ValidOp(rows: Rows, op: Op) {
    match op
    case Upload(ids) => Fresh(rows, ids)
    case Remove(_) => true
    case Reorder(ids) => Distinct(ids)
  }

  function Apply(rows: Rows, op: Op): Rows {
    match op
    case Upload(ids) => if |rows| + |ids| > MAX_IMAGES then rows else Appended(rows, ids, |rows|)
    case Remove(id) => Removed(rows, id)
    case Reorder(ids) => if rows.Keys == Ids(ids) then Reordered(rows, ids) else rows
  }

  /** Where an upload leaves an image: where it was, or behind all others. */
  lemma UploadedAt(rows: Rows, ids: seq<string>, a: string) returns (i: nat)
    requires Dense(rows) && Fresh(rows, ids) && a in Appended(rows, ids, |rows|) && a !in rows
    ensures i < |ids| && ids[i] == a && Appended(rows, ids, |rows|)[a] == |rows| + i
  {
    AppendedFrom(rows, ids, |rows|, a);
    i :| 0 <= i < |ids| && ids[i] == a;
    AppendedNew(rows, ids, |rows|, i);
  }

  lemma UploadedApart(rows: Rows, ids: seq<string>, a: string, b: string)
    requires Dense(rows) && Fresh(rows, ids) && a != b
    requires a in Appended(rows, ids, |rows|) && b in Appended(rows, ids, |rows|)
    ensures Appended(rows, ids, |rows|)[a] != Appended(rows, ids, |rows|)[b]
  {
    if a in rows {
      AppendedOld(rows, ids, |rows|, a);
    } else {
      var i := UploadedAt(rows, ids, a);
    }
    if b in rows {
      AppendedOld(rows, ids, |rows|, b);
    } else {
      var j := UploadedAt(rows, ids, b);
    }
  }

  lemma UploadedInRange(rows: Rows, ids: seq<string>, a: string)
    requires Dense(rows) && Fresh(rows, ids) && a in Appended(rows, ids, |rows|)
    ensures 0 <= Appended(rows, ids, |rows|)[a] < |rows| + |ids|
  {
    if a in rows {
      AppendedOld(rows, ids, |rows|, a);
    } else {
      var i := UploadedAt(rows, ids, a);
    }
  }

  lemma UploadKeepsDense(rows: Rows, ids: seq<string>)
    requires Dense(rows) && Fresh(rows, ids)
    ensures Dense(Appended(rows, ids, |rows|))
  {
    var r := Appended(rows, ids, |rows|);
    AppendedSize(rows, ids, |rows|);
    forall a <- r, b <- r | a != b ensures r[a] != r[b] {
      UploadedApart(rows, ids, a, b);
    }
    forall a <- r ensures 0 <= r[a] < |r| {
      UploadedInRange(rows, ids, a);
    }
  }

  lemma RemoveKeepsDense(rows: Rows, id: string)
    requires Dense(rows)
    ensures Dense(Removed(rows, id))
    ensures |Removed(rows, id)| == if id in rows then |rows| - 1 else |rows|
  {
    if id in rows {
      assert Removed(rows, id).Keys == rows.Keys - {id};
    }
  }

  lemma ReorderKeepsDense(rows: Rows, ids: seq<string>)
    requires Distinct(ids) && rows.Keys == Ids(ids)
    ensures Dense(Reordered(rows, ids))
    ensures forall i :: 0 <= i < |ids| ==> ids[i] in rows && Reordered(rows, ids)[ids[i]] == i
  {
    var r := Reordered(rows, ids);
    DistinctSize(ids);
    assert r.Keys == rows.Keys;
    forall i | 0 <= i < |ids| ensures ids[i] in rows && r[ids[i]] == i {
      IndexOfAt(ids, i);
    }
  }

  function Run(rows: Rows, ops: seq<Op>): Rows {
    if ops == [] then rows else Apply(Run(rows, ops[..|ops| - 1]), ops[|ops| - 1])
  }

  /** What an upload does: refused when it would make more than five images, and else
      its images follow the old ones in request order. */
  lemma UploadExactly(rows: Rows, ids: seq<string>)
    requires Dense(rows) && Fresh(rows, ids)
    ensures var r := Apply(rows, Upload(ids));
            if |rows| + |ids| > 5 then r == rows
            else |r| == |rows| + |ids| && (forall a <- rows :: a in r && r[a] == rows[a])
                 && forall i :: 0 <= i < |ids| ==> ids[i] in r && r[ids[i]] == |rows| + i
  {
    AppendedAt(rows, ids, |rows|);
  }

  /** What a removal does: the others stay, in the same order. */
  lemma RemoveExactly(rows: Rows, id: string)
    requires Dense(rows)
    ensures var r := Apply(rows, Remove(id));
            && r.Keys == rows.Keys - {id} && Dense(r)
            && forall a <- r, b <- r :: r[a] < r[b] <==> rows[a] < rows[b]
  {
    RemoveKeepsDense(rows, id);
  }

  /** What a reorder does: refused unless it lists exactly the images, and else every
      image takes its place in the list. */
  lemma ReorderExactly(rows: Rows, ids: seq<string>)
    requires Distinct(ids)
    ensures var r := Apply(rows, Reorder(ids));
            if rows.Keys != Ids(ids) then r == rows
            else r.Keys == rows.Keys && forall i :: 0 <= i < |ids| ==> ids[i] in r && r[ids[i]] == i
  {
    if rows.Keys == Ids(ids) {
      ReorderKeepsDense(rows, ids);
    }
  }

  /** Any sequence of serialised uploads, removals and reorders keeps positions
      dense and at most five. */
  lemma {:induction false} RunKeepsDense(rows: Rows, ops: seq<Op>)
    requires Dense(rows) && |rows| <= MAX_IMAGES
    requires forall k :: 0 <= k < |ops| ==> ValidOp(Run(rows, ops[..k]), ops[k])
    ensures Dense(Run(rows, ops)) && |Run(rows, ops)| <= 5
  {
    if ops != [] {
      var n := |ops| - 1;
      forall k | 0 <= k < n ensures ValidOp(Run(rows, ops[..n][..k]), ops[..n][k]) {
        assert ops[..n][..k] == ops[..k];
      }
      RunKeepsDense(rows, ops[..n]);
      var before := Run(rows, ops[..n]);
      match ops[n]
      case Upload(ids) =>
        AppendedAt(before, ids, |before|);
        UploadKeepsDense(before, ids);
      case Remove(id) => RemoveKeepsDense(before, id);
      case Reorder(ids) =>
        if before.Keys == Ids(ids) {
          ReorderKeepsDense(before, ids);
          DistinctSize(ids);
          assert Reordered(before, ids).Keys == before.Keys;
        }
    }
  }

  // ---- what stale reads can and cannot break ----------------------------------------------

  /** COALESCE(MAX(position), -1) + 1. */
  ghost predicate IsNext(rows: Rows, next: int) {
    && (forall a <- rows :: rows[a] < next)
    && (if rows == map[] then next == 0 else exists a <- rows :: rows[a] == next - 1)
  }

  /** Dense positions make the next position the image count. */
  lemma NextIsCount(rows: Rows, next: int)
    requires Dense(rows) && IsNext(rows, next)
    ensures next == |rows|
  {
    DenseIsFull(rows);
    forall p | p in Range(|rows|) ensures exists a <- rows :: rows[a] == p {
      assert p in Positions(rows);
    }
    if rows != map[] {
      assert |rows| - 1 in Range(|rows|);
    }
  }

  /** An insert transaction at `next` commits only if none of its positions is taken. */
  predicate Collides(rows: Rows, count: nat, next: int) {
    exists a <- rows :: next <= rows[a] < next + count
  }

  function CommitUpload(rows: Rows, ids: seq<string>, total: nat, next: int): Rows {
    if total + |ids| > MAX_IMAGES || Collides(rows, |ids|, next) then rows else Appended(rows, ids, next)
  }

  lemma OverlapRollsBack(rows: Rows, ids: seq<string>, total: nat)
    requires Dense(rows) && ids != [] && total < |rows|
    ensures CommitUpload(rows, ids, total, total) == rows
  {
    DenseIsFull(rows);
    assert total in Range(|rows|) && total in Positions(rows);
    var a :| a in rows && rows[a] == total;
  }

  lemma RemovalLeavesGap(rows: Rows, ids: seq<string>, total: nat)
    requires Dense(rows) && Fresh(rows, ids) && ids != [] && total > |rows| && total + |ids| <= MAX_IMAGES
    ensures !Dense(CommitUpload(rows, ids, total, total))
  {
    AppendedAt(rows, ids, total);
    var r, last := Appended(rows, ids, total), ids[|ids| - 1];
    assert last in Ids(ids);
    assert r[last] == total + |ids| - 1 >= |r|;
  }

  /** An upload that counted `total` images some time ago keeps the positions
      dense exactly when images were at most added since: an overlapping upload
      makes it collide and roll back, a removal makes it leave a gap. */
  lemma StaleUploadExactly(rows: Rows, ids: seq<string>, total: nat)
    requires Dense(rows) && Fresh(rows, ids) && ids != [] && total + |ids| <= MAX_IMAGES
    ensures Dense(CommitUpload(rows, ids, total, total)) <==> total <= |rows|
    ensures total < |rows| ==> CommitUpload(rows, ids, total, total) == rows
  {
    if total < |rows| {
      OverlapRollsBack(rows, ids, total);
    } else if total == |rows| {
      UploadKeepsDense(rows, ids);
    } else {
      RemovalLeavesGap(rows, ids, total);
    }
  }

  /** What an upload in flight has read: the count and the next position. */
  datatype Aggregate = Aggregate(total: nat, next: int)
  datatype Gallery = Gallery(rows: Rows, counted: map<nat, Aggregate>)

  datatype Step = ReadAggregate(upload: nat, next: int) | CommitRows(upload: nat, ids: seq<string>)

  function Advance(g: Gallery, step: Step): Gallery {
    match step
    case ReadAggregate(u, next) => g.(counted := g.counted[u := Aggregate(|g.rows|, next)])
    case CommitRows(u, ids) =>
      if u in g.counted then
        Gallery(CommitUpload(g.rows, ids, g.counted[u].total, g.counted[u].next), g.counted - {u})
      else g
  }

  function RunUploads(g: Gallery, steps: seq<Step>): Gallery {
    if steps == [] then g else Advance(RunUploads(g, steps[..|steps| - 1]), steps[|steps| - 1])
  }

  ghost predicate ValidStep(g: Gallery, step: Step) {
    match step
    case ReadAggregate(_, next) => IsNext(g.rows, next)
    case CommitRows(_, ids) => Fresh(g.rows, ids) && ids != []
  }

  ghost predicate GalleryInv(g: Gallery) {
    && Dense(g.rows) && |g.rows| <= MAX_IMAGES
    && forall u <- g.counted :: g.counted[u].total == g.counted[u].next <= |g.rows|
  }

  lemma AdvanceKeepsInv(g: Gallery, step: Step)
    requires GalleryInv(g) && ValidStep(g, step)
    ensures GalleryInv(Advance(g, step))
  {
    match step
    case ReadAggregate(_, next) => NextIsCount(g.rows, next);
    case CommitRows(u, ids) =>
      if u in g.counted {
        var total := g.counted[u].total;
        if total + |ids| <= MAX_IMAGES {
          StaleUploadExactly(g.rows, ids, total);
          AppendedAt(g.rows, ids, total);
        }
      }
  }

  /** Concurrent uploads that read count and maximum from stale snapshots still
      never exceed five images or leave a gap. */
  lemma {:induction false} ConcurrentUploadsStayDense(g: Gallery, steps: seq<Step>)
    requires Dense(g.rows) && |g.rows| <= MAX_IMAGES && g.counted == map[]
    requires forall k :: 0 <= k < |steps| ==> ValidStep(RunUploads(g, steps[..k]), steps[k])
    ensures GalleryInv(RunUploads(g, steps))
  {
    if steps != [] {
      var n := |steps| - 1;
      forall k | 0 <= k < n ensures ValidStep(RunUploads(g, steps[..n][..k]), steps[..n][k]) {
        assert steps[..n][..k] == steps[..k];
      }
      ConcurrentUploadsStayDense(g, steps[..n]);
      AdvanceKeepsInv(RunUploads(g, steps[..n]), steps[n]);
    }
  }

  /** An upload overtaken by no other is an upload on the rows it counted. */
  lemma UndisturbedUpload(g: Gallery, u: nat, ids: seq<string>, next: int)
    requires Dense(g.rows) && IsNext(g.rows, next) && Fresh(g.rows, ids)
    ensures Advance(Advance(g, ReadAggregate(u, next)), CommitRows(u, ids)).rows == Apply(g.rows, Upload(ids))
  {
    NextIsCount(g.rows, next);
  }

  /** A reorder whose list was checked against an older set of images leaves dense
      positions exactly when the images present form a prefix of the list. */
  lemma StaleReorderExactly(rows: Rows, ids: seq<string>)
    requires Dense(rows) && |rows| <= MAX_IMAGES && Distinct(ids) && |ids| <= MAX_IMAGES
    ensures Dense(Reordered(rows, ids)) <==> |rows| <= |ids| && rows.Keys == Ids(ids[..|rows|])
    ensures forall a <- rows :: a !in Ids(ids) ==> Reordered(rows, ids)[a] == rows[a] + 1000
  {
    if Dense(Reordered(rows, ids)) {
      PrefixNeeded(rows, ids);
    }
    if |rows| <= |ids| && rows.Keys == Ids(ids[..|rows|]) {
      PrefixSuffices(rows, ids);
    }
  }

  lemma ReorderedSize(rows: Rows, ids: seq<string>)
    ensures Reordered(rows, ids).Keys == rows.Keys && |Reordered(rows, ids)| == |rows|
  {
    assert |Reordered(rows, ids)| == |Reordered(rows, ids).Keys| && |rows| == |rows.Keys|;
  }

  lemma PrefixNeeded(rows: Rows, ids: seq<string>)
    requires Dense(rows) && |rows| <= MAX_IMAGES && Distinct(ids) && Dense(Reordered(rows, ids))
    ensures |rows| <= |ids| && rows.Keys == Ids(ids[..|rows|])
  {
    var r := Reordered(rows, ids);
    ReorderedSize(rows, ids);
    forall a <- rows ensures a in Ids(ids) && IndexOf(ids, a) < |rows| {
      assert r[a] < |rows|;
    }
    ListedPrefix(rows, ids);
  }

  lemma PrefixSuffices(rows: Rows, ids: seq<string>)
    requires Distinct(ids) && |rows| <= |ids| && rows.Keys == Ids(ids[..|rows|])
    ensures Dense(Reordered(rows, ids))
  {
    var r := Reordered(rows, ids);
    ReorderedSize(rows, ids);
    forall a <- rows ensures a in Ids(ids) && r[a] == IndexOf(ids, a) < |rows| {
      var i :| 0 <= i < |rows| && ids[..|rows|][i] == a;
      assert ids[i] == a;
      IndexOfAt(ids, i);
    }
  }

  lemma ListedPrefix(rows: Rows, ids: seq<string>)
    requires Distinct(ids) && forall a <- rows :: a in Ids(ids) && IndexOf(ids, a) < |rows|
    ensures |rows| <= |ids| && rows.Keys == Ids(ids[..|rows|])
  {
    DistinctSize(ids);
    SubsetSize(rows.Keys, Ids(ids));
    assert |rows.Keys| == |rows|;
    var prefix := ids[..|rows|];
    DistinctSize(prefix);
    forall a <- rows ensures a in Ids(prefix) {
      assert prefix[IndexOf(ids, a)] == a;
    }
    SubsetOfSameSize(rows.Keys, Ids(prefix));
  }

  // ---- order and rank -----------------------------------------------------------------------

  predicate SameOrder(r1: Rows, r2: Rows) {
    r1.Keys == r2.Keys && forall a <- r1, b <- r1 :: r1[a] < r1[b] <==> r2[a] < r2[b]
  }

  function Below(rows: Rows, a: string): Rows
    requires a in rows
  {
    map b | b in rows && rows[b] < rows[a] :: rows[b]
  }

  lemma RankIsPosition(rows: Rows, a: string)
    requires Dense(rows) && a in rows
    ensures |Below(rows, a)| == rows[a]
  {
    DenseIsFull(rows);
    var below := Below(rows, a);
    UniqueSize(below);
    forall p ensures p in Positions(below) <==> 0 <= p < rows[a] {
      if 0 <= p < rows[a] {
        assert p in Range(|rows|) && p in Positions(rows);
        var b :| b in rows && rows[b] == p;
        assert b in below;
      }
    }
    assert Positions(below) == Range(rows[a]);
  }

  /** Dense positions are determined by their order. */
  lemma OrderDetermines(r1: Rows, r2: Rows)
    requires Dense(r1) && Dense(r2) && SameOrder(r1, r2)
    ensures r1 == r2
  {
    forall a <- r1 ensures r1[a] == r2[a] {
      RankIsPosition(r1, a);
      RankIsPosition(r2, a);
      assert Below(r1, a).Keys == Below(r2, a).Keys;
      assert |Below(r1, a).Keys| == |Below(r1, a)| && |Below(r2, a).Keys| == |Below(r2, a)|;
    }
  }

  lemma LowestExists(rows: Rows, left: set<string>)
    requires left <= rows.Keys && left != {}
    ensures exists a :: a in left && forall b <- left :: rows[a] <= rows[b]
  {
    var f := (a: string) => if a in rows then rows[a] else 0;
    LeastExists(left, f);
    var a :| a in left && forall b <- left :: f(a) <= f(b);
    assert forall b <- left :: rows[a] <= rows[b];
  }

  /** `order` lists every row once, lowest position first. */
  predicate Listing(rows: Rows, order: seq<string>) {
    && Ids(order) == rows.Keys
    && (forall k :: 0 <= k < |order| ==> order[k] in rows)
    && (forall i, j :: 0 <= i < j < |order| ==> rows[order[i]] < rows[order[j]])
  }

  /** Increasing non-negative positions: the k-th is at least k. */
  lemma {:induction false} PositionAtLeastIndex(rows: Rows, order: seq<string>, k: nat)
    requires Listing(rows, order) && k < |order| && forall a <- rows :: 0 <= rows[a]
    ensures k <= rows[order[k]]
  {
    if k > 0 {
      PositionAtLeastIndex(rows, order, k - 1);
    }
  }

  predicate Spread(rows: Rows) { forall a <- rows, b <- rows :: rows[a] < rows[b] + REORDER_OFFSET }

  /** The files of one request to upload: the first of each distinct content that
      the product does not hold yet, in request order. */
  method DistinctUploads(hashes: seq<string>, held: set<string>) returns (picked: seq<nat>)
    ensures forall k :: 0 <= k < |picked| ==> picked[k] < |hashes|
    ensures forall i, j :: 0 <= i < j < |picked| ==> picked[i] < picked[j]
    ensures forall i :: 0 <= i < |hashes| ==>
      (i in picked <==> hashes[i] !in held && hashes[i] !in hashes[..i])
  {
    var seen: set<string> := {};
    picked := [];
    for n := 0 to |hashes|
      invariant seen == set i | 0 <= i < n :: hashes[i]
      invariant forall k :: 0 <= k < |picked| ==> picked[k] < n
      invariant forall i, j :: 0 <= i < j < |picked| ==> picked[i] < picked[j]
      invariant forall i :: 0 <= i < n ==> (i in picked <==> hashes[i] !in held && hashes[i] !in hashes[..i])
    {
      ghost var before := picked;
      if hashes[n] !in seen && hashes[n] !in held {
        picked := picked + [n];
      }
      assert forall i :: 0 <= i < n ==> (i in picked <==> i in before);
      assert hashes[n] in hashes[..n] <==> hashes[n] in seen;
      seen := seen + {hashes[n]};
    }
  }

  /** The product_images rows of one product; every write is checked against the
      unique index on its own. */
  class ImageTable {
    var rows: Rows

    constructor ()
      ensures rows == map[]
    {
      rows := map[];
    }

    /** One UPDATE: refused when another row holds the position, a no-op when the
        row is gone. */
    method UpdateImagePosition(id: string, position: int) returns (ok: bool)
      modifies this
      ensures ok <==> id !in old(rows) || forall a <- old(rows) :: a != id ==> old(rows)[a] != position
      ensures rows == if ok && id in old(rows) then old(rows)[id := position] else old(rows)
    {
      ok := id !in rows || forall a <- rows :: a != id ==> rows[a] != position;
      if ok && id in rows {
        rows := rows[id := position];
      }
    }

    method ListImageIDPositions() returns (order: seq<string>)
      requires Unique(rows)
      ensures Listing(rows, order)
    {
      order := [];
      var left := rows.Keys;
      while left != {}
        invariant left <= rows.Keys && Ids(order) == rows.Keys - left
        invariant forall k :: 0 <= k < |order| ==> order[k] in rows && forall b <- left :: rows[order[k]] < rows[b]
        invariant forall i, j :: 0 <= i < j < |order| ==> rows[order[i]] < rows[order[j]]
        decreases left
      {
        LowestExists(rows, left);
        var a :| a in left && forall b <- left :: rows[a] <= rows[b];
        ghost var before := order;
        order := order + [a];
        left := left - {a};
        assert Ids(order) == Ids(before) + {a} by {
          assert order[|before|] == a;
          assert forall i :: 0 <= i < |before| ==> order[i] == before[i];
        }
      }
    }

    /** Closes gaps lowest first; no single update ever hits the unique index. */
    method Redensify()
      requires Unique(rows) && forall a <- rows :: 0 <= rows[a]
      modifies this
      ensures Dense(rows) && SameOrder(old(rows), rows)
    {
      var was := rows;
      var order := ListImageIDPositions();
      for n := 0 to |order|
        invariant rows.Keys == was.Keys
        invariant forall k :: 0 <= k < n ==> rows[order[k]] == k
        invariant forall k :: n <= k < |order| ==> rows[order[k]] == was[order[k]]
      {
        if rows[order[n]] != n {
          PositionAtLeastIndex(was, order, n);
          forall a <- rows | a != order[n] ensures rows[a] != n {
            assert a in Ids(order);
          }
          var ok := UpdateImagePosition(order[n], n);
          assert ok;
        }
      }
      ListedInOrder(was, rows, order);
    }

    /** Deleting an image closes exactly the gap it leaves. */
    method RemoveImage(id: string)
      requires Dense(rows)
      modifies this
      ensures rows == Removed(old(rows), id)
    {
      ghost var was := rows;
      rows := rows - {id};
      Redensify();
      RemovedIs(was, id, rows);
    }

    /** One INSERT: refused when a row holds the position. */
    method InsertProductImage(id: string, position: int) returns (ok: bool)
      modifies this
      ensures ok <==> FreeAt(old(rows), position)
      ensures rows == if ok then old(rows)[id := position] else old(rows)
    {
      ok := forall a <- rows :: rows[a] != position;
      if ok {
        rows := rows[id := position];
      }
    }

    /** The insert transaction, given the aggregate it read: row by row, rolled
        back whole on the first conflict. */
    method InsertImageRows(ids: seq<string>, total: nat, next: int) returns (ok: bool)
      requires Fresh(rows, ids)
      modifies this
      ensures rows == CommitUpload(old(rows), ids, total, next)
      ensures ok <==> total + |ids| <= 5 && !Collides(old(rows), |ids|, next)
    {
      if total + |ids| > MAX_IMAGES {
        return false;
      }
      ok := InsertAll(ids, next);
    }

    method InsertNext(ghost was: Rows, ids: seq<string>, next: int, i: nat) returns (ok: bool)
      requires Fresh(was, ids) && i < |ids| && Inserting(was, rows, ids, next, i)
      modifies this
      ensures ok ==> Inserting(was, rows, ids, next, i + 1)
      ensures !ok ==> Collides(was, |ids|, next)
    {
      InsertedNext(was, rows, ids, next, i);
      ok := InsertProductImage(ids[i], next + i);
    }

    /** All rows at their positions, or none. */
    method InsertAll(ids: seq<string>, next: int) returns (ok: bool)
      requires Fresh(rows, ids)
      modifies this
      ensures ok <==> !Collides(old(rows), |ids|, next)
      ensures rows == if ok then Appended(old(rows), ids, next) else old(rows)
    {
      var was := rows;
      InsertNone(was, ids, next);
      for i := 0 to |ids|
        invariant Inserting(was, rows, ids, next, i)
      {
        ok := InsertNext(was, ids, next, i);
        if !ok {
          rows := was;
          return;
        }
      }
      InsertedAll(was, rows, ids, next);
      ok := true;
    }

    /** Phase one of a reorder: in whatever order the rows are visited, adding the
        offset never meets a row still in place. */
    method ParkImagePositions()
      requires Unique(rows) && Spread(rows)
      modifies this
      ensures rows == Parked(old(rows))
    {
      var was, left := rows, rows.Keys;
      while left != {}
        invariant left <= rows.Keys == was.Keys
        invariant forall a <- rows :: rows[a] == if a in left then was[a] else was[a] + REORDER_OFFSET
        decreases left
      {
        var a :| a in left;
        var ok := UpdateImagePosition(a, rows[a] + REORDER_OFFSET);
        assert ok;
        left := left - {a};
      }
    }

    /** The whole reorder: refused unless the list is exactly the set of images
        read before the transaction; then every single write goes through. */
    method ReorderImages(ids: seq<string>, current: set<string>) returns (accepted: bool)
      requires Dense(rows) && |rows| <= MAX_IMAGES && Distinct(ids) && 0 < |ids| <= MAX_IMAGES
      modifies this
      ensures accepted <==> Ids(ids) == current
      ensures rows == if accepted then Reordered(old(rows), ids) else old(rows)
    {
      accepted := Ids(ids) == current;
      if !accepted {
        return;
      }
      ghost var was := rows;
      ParkImagePositions();
      AssignPositions(ids, was);
      AllReordered(was, rows, ids);
    }

    /** Phase two: every listed image takes its index. */
    method AssignPositions(ids: seq<string>, ghost was: Rows)
      requires Distinct(ids) && |ids| <= MAX_IMAGES && PartlyReordered(was, rows, ids, 0) && forall a <- was :: 0 <= was[a]
      modifies this
      ensures PartlyReordered(was, rows, ids, |ids|)
    {
      for n := 0 to |ids|
        invariant PartlyReordered(was, rows, ids, n)
      {
        NoneAt(was, rows, ids, n);
        OneMoreInPlace(was, rows, ids, n);
        var ok := UpdateImagePosition(ids[n], n);
        assert ok;
      }
    }
  }

  /** The first n listed images are in place, every other one is parked. */
  predicate PartlyReordered(was: Rows, rows: Rows, ids: seq<string>, n: nat)
    requires n <= |ids|
  {
    && rows.Keys == was.Keys
    && (forall k :: 0 <= k < n && ids[k] in was ==> rows[ids[k]] == k)
    && (forall a <- was :: (forall k :: 0 <= k < n ==> ids[k] != a) ==> rows[a] == was[a] + REORDER_OFFSET)
  }

  lemma NoneAt(was: Rows, rows: Rows, ids: seq<string>, n: nat)
    requires n < |ids| <= MAX_IMAGES && PartlyReordered(was, rows, ids, n) && forall a <- was :: 0 <= was[a]
    ensures forall a <- rows :: rows[a] != n
  {
    forall a <- rows ensures rows[a] != n {
      if k :| 0 <= k < n && ids[k] == a {
        assert rows[ids[k]] == k;
      }
    }
  }

  lemma OneMoreInPlace(was: Rows, rows: Rows, ids: seq<string>, n: nat)
    requires n < |ids| && Distinct(ids) && PartlyReordered(was, rows, ids, n)
    ensures PartlyReordered(was, if ids[n] in rows then rows[ids[n] := n] else rows, ids, n + 1)
  {
    var r := if ids[n] in rows then rows[ids[n] := n] else rows;
    forall a <- was | forall k :: 0 <= k < n + 1 ==> ids[k] != a ensures r[a] == was[a] + REORDER_OFFSET {
      assert ids[n] != a;
    }
  }

  lemma AllReordered(was: Rows, rows: Rows, ids: seq<string>)
    requires Distinct(ids) && PartlyReordered(was, rows, ids, |ids|)
    ensures rows == Reordered(was, ids)
  {
    forall a <- was ensures rows[a] == Reordered(was, ids)[a] {
      if a in Ids(ids) {
        assert rows[ids[IndexOf(ids, a)]] == IndexOf(ids, a);
      }
    }
  }

  function Parked(rows: Rows): Rows { map a | a in rows :: rows[a] + REORDER_OFFSET }

  lemma RemovedIs(was: Rows, id: string, r: Rows)
    requires Dense(was) && Dense(r) && SameOrder(was - {id}, r)
    ensures r == Removed(was, id)
  {
    RemoveKeepsDense(was, id);
    RemovedKeepsOrder(was, id);
    var gapped, closed := was - {id}, Removed(was, id);
    forall a <- closed, b <- closed ensures closed[a] < closed[b] <==> r[a] < r[b] {
      assert a in gapped && b in gapped;
    }
    OrderDetermines(r, closed);
  }

  lemma RemovedKeepsOrder(was: Rows, id: string)
    requires Dense(was)
    ensures SameOrder(was - {id}, Removed(was, id))
  {
    var gapped, closed := was - {id}, Removed(was, id);
    assert gapped.Keys == closed.Keys;
    if id in was {
      forall a <- gapped, b <- gapped ensures gapped[a] < gapped[b] <==> closed[a] < closed[b] {
        assert was[a] != was[id] && was[b] != was[id];
      }
    }
  }

  /** The first `i` rows are in, none of them in conflict. */
  predicate Inserting(was: Rows, rows: Rows, ids: seq<string>, next: int, i: nat)
    requires i <= |ids|
  {
    rows == Appended(was, ids[..i], next) && !Collides(was, i, next)
  }

  lemma InsertNone(was: Rows, ids: seq<string>, next: int)
    ensures Inserting(was, was, ids, next, 0)
  {
  }

  lemma InsertedNext(was: Rows, rows: Rows, ids: seq<string>, next: int, i: nat)
    requires Fresh(was, ids) && i < |ids| && Inserting(was, rows, ids, next, i)
    ensures !FreeAt(rows, next + i) ==> Collides(was, |ids|, next)
    ensures FreeAt(rows, next + i) ==> Inserting(was, rows[ids[i] := next + i], ids, next, i + 1)
  {
    if FreeAt(rows, next + i) {
      InsertedFree(was, rows, ids, next, i);
    } else {
      var a :| a in rows && rows[a] == next + i;
      ConflictIsOld(was, ids[..i], next, a);
    }
  }

  predicate FreeAt(rows: Rows, position: int) { forall a <- rows :: rows[a] != position }

  lemma InsertedFree(was: Rows, rows: Rows, ids: seq<string>, next: int, i: nat)
    requires Fresh(was, ids) && i < |ids| && Inserting(was, rows, ids, next, i) && FreeAt(rows, next + i)
    ensures Inserting(was, rows[ids[i] := next + i], ids, next, i + 1)
  {
    InsertOne(was, ids, next, i);
    forall a <- was ensures was[a] != next + i {
      AppendedOld(was, ids[..i], next, a);
      assert a in rows && rows[a] == was[a];
    }
  }

  lemma InsertedAll(was: Rows, rows: Rows, ids: seq<string>, next: int)
    requires Inserting(was, rows, ids, next, |ids|)
    ensures rows == Appended(was, ids, next) && !Collides(was, |ids|, next)
  {
    assert ids[..|ids|] == ids;
  }

  /** A conflict with the rows inserted so far is a conflict with an older row. */
  lemma ConflictIsOld(was: Rows, ids: seq<string>, next: int, a: string)
    requires Fresh(was, ids) && a in Appended(was, ids, next) && Appended(was, ids, next)[a] == next + |ids|
    ensures a in was && was[a] == next + |ids|
  {
    AppendedFrom(was, ids, next, a);
    if a !in was {
      var k :| 0 <= k < |ids| && ids[k] == a;
      AppendedNew(was, ids, next, k);
      assert false;
    }
    AppendedOld(was, ids, next, a);
  }

  /** Inserting one more row when nothing holds its position. */
  lemma InsertOne(was: Rows, ids: seq<string>, next: int, i: nat)
    requires i < |ids|
    ensures Appended(was, ids[..i + 1], next) == Appended(was, ids[..i], next)[ids[i] := next + i]
  {
    assert ids[..i + 1][..i] == ids[..i];
  }

  lemma ListedInOrder(was: Rows, rows: Rows, order: seq<string>)
    requires Listing(was, order) && rows.Keys == was.Keys
    requires forall k :: 0 <= k < |order| ==> rows[order[k]] == k
    ensures Dense(rows) && SameOrder(was, rows)
  {
    assert Distinct(order);
    DistinctSize(order);
    assert |rows.Keys| == |order|;
    forall a <- rows, b <- rows
      ensures 0 <= rows[a] < |rows| && (a != b ==> rows[a] != rows[b]) && (was[a] < was[b] <==> rows[a] < rows[b])
    {
      assert a in Ids(order) && b in Ids(order);
      var i :| 0 <= i < |order| && order[i] == a;
      var j :| 0 <= j < |order| && order[j] == b;
    }
  }

  /** The failing upload: it counts two images, the second is removed, and what it
      then commits leaves position one empty. */
  lemma UploadAcrossRemovalLeavesGap(a: string, b: string, c: string)
    requires a != b && a != c
    ensures Dense(Pair(a, b)) && |Pair(a, b)| == 2 && Removed(Pair(a, b), b) == map[a := 0]
    ensures !Dense(CommitUpload(map[a := 0], [c], 2, 2))
  {
    PairIsDense(a, b);
    assert Removed(Pair(a, b), b).Keys == {a};
    LateUploadToOne(a, c);
  }

  lemma PairIsDense(a: string, b: string)
    requires a != b
    ensures Dense(Pair(a, b)) && |Pair(a, b)| == 2
  {
  }

  lemma LateUploadToOne(a: string, c: string)
    requires a != c
    ensures !Dense(CommitUpload(map[a := 0], [c], 2, 2))
  {
    assert |map[a := 0]| == 1;
    StaleUploadExactly(map[a := 0], [c], 2);
  }

  function Pair(a: string, b: string): Rows { map[a := 0, b := 1] }

  /** The failing reorder: its list was checked when both images were there, the
      first is removed, and the other keeps the index it had in the list. */
  lemma ReorderAcrossRemovalLeavesGap(a: string, b: string)
    requires a != b
    ensures Dense(Pair(a, b)) && Pair(a, b).Keys == Ids([a, b]) && Removed(Pair(a, b), a) == map[b := 0]
    ensures !Dense(Reordered(map[b := 0], [a, b]))
  {
    var ids := [a, b];
    assert ids[0] in Ids(ids) && ids[1] in Ids(ids);
    assert Removed(Pair(a, b), a).Keys == {b};
    IndexOfAt(ids, 1);
    assert Reordered(map[b := 0], ids)[b] == 1 && |Reordered(map[b := 0], ids)| == 1 by {
      assert Reordered(map[b := 0], ids) == map[b := 1];
    }
  }
}
