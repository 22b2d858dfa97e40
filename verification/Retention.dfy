/** Retention: which restore points one reconciliation pass selects, sorting and compacting one
    array in place, and what it claims in the store. */
module Retention {

  datatype Option<T> = None | Some(value: T)

  /** A restore point with the metadata the pass reads. Times are instants; zero is Go's zero time. */
  datatype Point = Point(
    id: string, status: string, veleroName: string, completedAt: int, createdAt: int,
    retentionState: string, cleanupTask: string, manualRetained: bool, drillRetained: bool, replaced: bool)

  /** The time a point is ranked by. */
  function OrderTime(p: Point): int {
    if p.completedAt == 0 then p.createdAt else p.completedAt
  }

  datatype Task = Task(
    id: string, kind: string, active: bool, startedAt: int, acceptedAt: int, dispatchedAt: int, createdAt: int)

  const STALE_AFTER := 35 * 60

  function LastActivity(t: Task): int {
    if t.startedAt != 0 then t.startedAt
    else if t.acceptedAt != 0 then t.acceptedAt
    else if t.dispatchedAt != 0 then t.dispatchedAt
    else t.createdAt
  }

  /** A cleanup task still at work: active, and heard of in the last 35 minutes. */
  predicate Live(t: Task, now: int) {
    t.kind == "retention-cleanup" && t.active && LastActivity(t) > now - STALE_AFTER
  }

  method LiveTasks(tasks: seq<Task>, now: int) returns (live: set<string>)
    ensures forall id :: id in live <==> exists t <- tasks :: t.id == id && Live(t, now)
  {
    live := {};
    for i := 0 to |tasks|
      invariant forall id :: id in live <==> exists k :: 0 <= k < i && tasks[k].id == id && Live(tasks[k], now)
    {
      if tasks[i].kind != "retention-cleanup" || !tasks[i].active {
        continue;
      }
      if LastActivity(tasks[i]) > now - STALE_AFTER {
        live := live + {tasks[i].id};
      }
    }
  }

  /** When a cleanup task was last heard of: when it started, or else was accepted, dispatched, created. It is
      live if that was less than 35 minutes ago. */
  lemma LiveIff(t: Task, now: int)
    ensures Live(t, now) <==>
            && t.kind == "retention-cleanup" && t.active
            && (|| (t.startedAt != 0 && now - t.startedAt < 2100)
                || (t.startedAt == 0 && t.acceptedAt != 0 && now - t.acceptedAt < 2100)
                || (t.startedAt == 0 && t.acceptedAt == 0 && t.dispatchedAt != 0 && now - t.dispatchedAt < 2100)
                || (t.startedAt == 0 && t.acceptedAt == 0 && t.dispatchedAt == 0 && now - t.createdAt < 2100))
  {
  }

  // ---------------------------------------------------------------- filtering

  /** A point the pass may count: available, named, and not in the hands of a live cleanup task. */
  predicate IsAvailable(p: Point, live: set<string>) {
    p.status == "available" && p.veleroName != "" && !(p.retentionState == "deleting" && p.cleanupTask in live)
  }

  function Available(points: seq<Point>, live: set<string>): (r: seq<Point>)
    ensures forall p :: p in r <==> p in points && IsAvailable(p, live)
    ensures |r| <= |points|
  {
    if points == [] then []
    else
      var n := |points| - 1;
      assert points == points[..n] + [points[n]];
      Available(points[..n], live) + if IsAvailable(points[n], live) then [points[n]] else []
  }

  /** Points kept whatever their rank. `retained` are those a retention rule selected. */
  predicate Protected(p: Point, retained: set<string>) {
    p.manualRetained || p.drillRetained || p.replaced || p.id in retained
  }

  function Eligible(points: seq<Point>, retained: set<string>): (r: seq<Point>)
    ensures forall p :: p in r <==> p in points && !Protected(p, retained)
    ensures |r| <= |points|
  {
    if points == [] then []
    else
      var n := |points| - 1;
      assert points == points[..n] + [points[n]];
      Eligible(points[..n], retained) + if Protected(points[n], retained) then [] else [points[n]]
  }

  lemma EligibleNone(retained: set<string>)
    ensures Eligible([], retained) == []
  {
  }

  lemma EligibleStep(points: seq<Point>, k: nat, retained: set<string>)
    requires k < |points|
    ensures Eligible(points[..k + 1], retained) ==
            Eligible(points[..k], retained) + if Protected(points[k], retained) then [] else [points[k]]
  {
    assert points[..k + 1][..k] == points[..k];
  }

  /** No two points share an id: it is the table's key. */
  ghost predicate DistinctIds(s: seq<Point>) {
    forall i, j :: 0 <= i < j < |s| ==> s[i].id != s[j].id
  }

  lemma {:induction false} AvailableDistinct(points: seq<Point>, live: set<string>)
    requires DistinctIds(points)
    ensures DistinctIds(Available(points, live))
  {
    if points != [] {
      var n := |points| - 1;
      AvailableDistinct(points[..n], live);
      forall p | p in Available(points[..n], live) ensures p.id != points[n].id { assert p in points[..n]; }
    }
  }

  lemma {:induction false} EligibleDistinct(points: seq<Point>, retained: set<string>)
    requires DistinctIds(points)
    ensures DistinctIds(Eligible(points, retained))
  {
    if points != [] {
      var n := |points| - 1;
      EligibleDistinct(points[..n], retained);
      forall p | p in Eligible(points[..n], retained) ensures p.id != points[n].id { assert p in points[..n]; }
    }
  }

  // ---------------------------------------------------------------- stable order, newest first

  predicate NewestFirst(s: seq<Point>) {
    forall i, j :: 0 <= i < j < |s| ==> OrderTime(s[i]) >= OrderTime(s[j])
  }

  /** Puts `x` behind everything not older than it. */
  function InsertStable(s: seq<Point>, x: Point): (r: seq<Point>)
    ensures |r| == |s| + 1
  {
    if s != [] && OrderTime(x) > OrderTime(s[|s| - 1]) then InsertStable(s[..|s| - 1], x) + [s[|s| - 1]]
    else s + [x]
  }

  function StableSort(s: seq<Point>): (r: seq<Point>)
    ensures |r| == |s|
  {
    if s == [] then [] else InsertStable(StableSort(s[..|s| - 1]), s[|s| - 1])
  }

  lemma SpliceNewestFirst(s: seq<Point>, x: Point, c: nat)
    requires NewestFirst(s) && c <= |s|
    requires forall k :: 0 <= k < |s| ==> (OrderTime(s[k]) >= OrderTime(x) <==> k < c)
    ensures NewestFirst(s[..c] + [x] + s[c..])
  {
    hide OrderTime;
    var r := s[..c] + [x] + s[c..];
    forall i | 0 <= i < |r| ensures r[i] == if i < c then s[i] else if i == c then x else s[i - 1] {}
  }

  /** `x` goes to the first position behind which everything is older. */
  lemma {:induction false} InsertAt(s: seq<Point>, x: Point) returns (c: nat)
    requires NewestFirst(s)
    ensures c <= |s| && InsertStable(s, x) == s[..c] + [x] + s[c..]
    ensures forall k :: 0 <= k < |s| ==> (OrderTime(s[k]) >= OrderTime(x) <==> k < c)
  {
    hide OrderTime;
    if s != [] && OrderTime(x) > OrderTime(s[|s| - 1]) {
      var n := |s| - 1;
      c := InsertAt(s[..n], x);
      assert s[..n][..c] == s[..c] && s[..n][c..] + [s[n]] == s[c..];
      assert s[..c] + [x] + s[c..] == s[..c] + [x] + s[..n][c..] + [s[n]];
      forall k | 0 <= k < |s| ensures OrderTime(s[k]) >= OrderTime(x) <==> k < c {
        if k < n { assert s[..n][k] == s[k]; }
      }
    } else {
      c := |s|;
      assert s[..c] + [x] + s[c..] == s + [x];
    }
  }

  lemma {:induction false} StableSortOrders(s: seq<Point>)
    ensures NewestFirst(StableSort(s))
  {
    hide InsertStable, NewestFirst, OrderTime;
    if s != [] {
      StableSortOrders(s[..|s| - 1]);
      var c := SortStep(s);
      var t := StableSort(s[..|s| - 1]);
      SpliceNewestFirst(t, s[|s| - 1], c);
    } else {
      NoneNewestFirst();
    }
  }

  lemma NoneNewestFirst()
    ensures NewestFirst([])
  {
  }

  /** One more point: the sorted rest, with the point spliced in where it belongs. */
  lemma SortStep(s: seq<Point>) returns (c: nat)
    requires s != [] && NewestFirst(StableSort(s[..|s| - 1]))
    ensures var t, x := StableSort(s[..|s| - 1]), s[|s| - 1];
            && c <= |t| && StableSort(s) == t[..c] + [x] + t[c..]
            && forall k :: 0 <= k < |t| ==> (OrderTime(t[k]) >= OrderTime(x) <==> k < c)
  {
    hide InsertStable, NewestFirst, OrderTime;
    c := InsertAt(StableSort(s[..|s| - 1]), s[|s| - 1]);
  }

  lemma SpliceMultiset(t: seq<Point>, x: Point, c: nat)
    requires c <= |t|
    ensures multiset(t[..c] + [x] + t[c..]) == multiset(t) + multiset{x}
  {
    assert t == t[..c] + t[c..];
  }

  lemma {:induction false} StableSortPermutes(s: seq<Point>)
    ensures multiset(StableSort(s)) == multiset(s)
  {
    hide InsertStable, NewestFirst, OrderTime;
    if s != [] {
      var n := |s| - 1;
      StableSortPermutes(s[..n]);
      StableSortOrders(s[..n]);
      var c := SortStep(s);
      SpliceMultiset(StableSort(s[..n]), s[n], c);
      SpliceMultiset(s[..n], s[n], n);
      assert s[..n][..n] + [s[n]] + s[..n][n..] == s;
    }
  }

  // ---------------------------------------------------------------- rank

  /** The point at `j` comes before the one at `i`: it is newer, or equally old and listed earlier. */
  predicate Precedes(s: seq<Point>, j: nat, i: nat)
    requires j < |s| && i < |s|
  {
    OrderTime(s[j]) > OrderTime(s[i]) || (OrderTime(s[j]) == OrderTime(s[i]) && j < i)
  }

  /** How many of the first `k` points come before the one at `i`. */
  function RankUpTo(s: seq<Point>, i: nat, k: nat): (r: nat)
    requires i < |s| && k <= |s|
    ensures r <= k
  {
    if k == 0 then 0 else RankUpTo(s, i, k - 1) + if Precedes(s, k - 1, i) then 1 else 0
  }

  function Rank(s: seq<Point>, i: nat): nat
    requires i < |s|
  {
    RankUpTo(s, i, |s|)
  }

  /** How many of the points are at least as new as `t`. */
  function CountNotOlder(s: seq<Point>, t: int): (n: nat)
    ensures n <= |s|
  {
    if s == [] then 0 else CountNotOlder(s[..|s| - 1], t) + if OrderTime(s[|s| - 1]) >= t then 1 else 0
  }

  lemma {:induction false} CountConcat(a: seq<Point>, b: seq<Point>, t: int)
    ensures CountNotOlder(a + b, t) == CountNotOlder(a, t) + CountNotOlder(b, t)
  {
    if b == [] {
      assert a + b == a;
    } else {
      assert (a + b)[..|a + b| - 1] == a + b[..|b| - 1];
      CountConcat(a, b[..|b| - 1], t);
    }
  }

  lemma {:induction false} CountSorted(s: seq<Point>, t: int, c: nat)
    requires c <= |s| && forall k :: 0 <= k < |s| ==> (OrderTime(s[k]) >= t <==> k < c)
    ensures CountNotOlder(s, t) == c
  {
    if s != [] { CountSorted(s[..|s| - 1], t, if c == |s| then c - 1 else c); }
  }

  lemma CountSplice(u: seq<Point>, x: Point, c: nat, t: int)
    requires c <= |u|
    ensures CountNotOlder(u[..c] + [x] + u[c..], t) == CountNotOlder(u + [x], t)
  {
    hide CountNotOlder;
    CountConcat(u[..c] + [x], u[c..], t);
    CountConcat(u[..c], [x], t);
    CountConcat(u[..c], u[c..], t);
    CountConcat(u, [x], t);
    assert u == u[..c] + u[c..];
  }

  lemma {:induction false} CountStableSort(s: seq<Point>, t: int)
    ensures CountNotOlder(StableSort(s), t) == CountNotOlder(s, t)
  {
    hide InsertStable, NewestFirst, OrderTime, CountNotOlder;
    if s != [] {
      var n := |s| - 1;
      var u, x := StableSort(s[..n]), s[n];
      CountStableSort(s[..n], t);
      StableSortOrders(s[..n]);
      var c := SortStep(s);
      CountSplice(u, x, c, t);
      CountConcat(u, [x], t);
      CountConcat(s[..n], [x], t);
      assert s == s[..n] + [x];
    }
  }

  lemma {:induction false} RankPrefix(s: seq<Point>, x: Point, i: nat, k: nat)
    requires i < |s| && k <= |s|
    ensures RankUpTo(s + [x], i, k) == RankUpTo(s, i, k)
  {
    if k > 0 { RankPrefix(s, x, i, k - 1); }
  }

  lemma {:induction false} RankLast(s: seq<Point>, x: Point, k: nat)
    requires k <= |s|
    ensures RankUpTo(s + [x], |s|, k) == CountNotOlder(s[..k], OrderTime(x))
  {
    if k > 0 {
      RankLast(s, x, k - 1);
      assert s[..k][..k - 1] == s[..k - 1];
    }
  }

  /** Sorting puts every point where its rank says. */
  lemma {:induction false} RankIsPosition(s: seq<Point>, i: nat)
    requires i < |s|
    ensures Rank(s, i) < |s| && StableSort(s)[Rank(s, i)] == s[i]
    decreases |s|
  {
    hide OrderTime, Precedes, InsertStable, NewestFirst, CountNotOlder;
    var n := |s| - 1;
    var init, x := s[..n], s[n];
    assert s == init + [x];
    var t := StableSort(init);
    StableSortOrders(init);
    var c := SortStep(s);
    CountSorted(t, OrderTime(x), c);
    CountStableSort(init, OrderTime(x));
    var r := t[..c] + [x] + t[c..];
    assert StableSort(s) == r;
    if i == n {
      RankLast(init, x, n);
      assert init[..n] == init;
      assert !Precedes(s, n, n) by { PrecedesIrreflexive(s, n); }
      assert Rank(s, n) == c;
    } else {
      RankPrefix(init, x, i, n);
      RankIsPosition(init, i);
      var q := Rank(init, i);
      assert OrderTime(t[q]) == OrderTime(s[i]);
      PrecedesLast(s, i);
      assert Rank(s, i) == if q < c then q else q + 1;
    }
  }

  lemma PrecedesIrreflexive(s: seq<Point>, i: nat)
    requires i < |s|
    ensures !Precedes(s, i, i)
  {
  }

  lemma PrecedesLast(s: seq<Point>, i: nat)
    requires i < |s| - 1
    ensures Precedes(s, |s| - 1, i) <==> !(OrderTime(s[i]) >= OrderTime(s[|s| - 1]))
  {
  }

  /** Different points have different ranks, so sorting is exactly the arrangement by rank. */
  lemma RanksDiffer(s: seq<Point>, i: nat, j: nat)
    requires DistinctIds(s) && i < j < |s|
    ensures Rank(s, i) != Rank(s, j)
  {
    RankIsPosition(s, i);
    RankIsPosition(s, j);
  }

  // ---------------------------------------------------------------- one array, sorted and compacted in place

  /** `sort.SliceStable`, newest first. */
  method SliceStable(a: array<Point>)
    modifies a
    ensures a[..] == StableSort(old(a[..]))
  {
    hide InsertStable, OrderTime;
    ghost var was := a[..];
    for i := 0 to a.Length
      invariant a[..i] == StableSort(was[..i])
      invariant a[i..] == was[i..]
    {
      assert was[..i + 1][..i] == was[..i] && was[i] == was[i..][0] == a[i];
      ghost var tail := a[i + 1..];
      SinkLast(a, i);
      assert a[i + 1..] == tail == was[i + 1..];
    }
    assert was[..a.Length] == was && a[..a.Length] == a[..];
  }

  /** Halfway through moving `x` from `i` down to `j` in what was `was`. */
  ghost predicate Sinking(was: seq<Point>, cur: seq<Point>, x: Point, i: nat, j: nat) {
    && j <= i < |was| && |cur| == |was| && x == was[i]
    && cur[..j] == was[..j] && cur[j + 1..i + 1] == was[j..i] && cur[i + 1..] == was[i + 1..]
    && forall k :: j <= k < i ==> OrderTime(x) > OrderTime(was[k])
  }

  lemma SinkOne(was: seq<Point>, cur: seq<Point>, x: Point, i: nat, j: nat)
    requires Sinking(was, cur, x, i, j) && j > 0 && OrderTime(x) > OrderTime(cur[j - 1])
    ensures Sinking(was, cur[j := cur[j - 1]], x, i, j - 1)
  {
    hide OrderTime;
    var next := cur[j := cur[j - 1]];
    assert cur[j - 1] == cur[..j][j - 1] == was[j - 1];
    assert next[..j - 1] == cur[..j][..j - 1];
    assert next[j..i + 1] == [was[j - 1]] + cur[j + 1..i + 1] == was[j - 1..i];
    assert next[i + 1..] == cur[i + 1..];
  }

  lemma Sunk(was: seq<Point>, cur: seq<Point>, x: Point, i: nat, j: nat)
    requires Sinking(was, cur, x, i, j) && (j > 0 ==> OrderTime(x) <= OrderTime(cur[j - 1]))
    ensures cur[j := x][..i + 1] == InsertStable(was[..i], x) && cur[j := x][i + 1..] == was[i + 1..]
  {
    hide OrderTime, InsertStable;
    var t := was[..i];
    assert j > 0 ==> cur[j - 1] == cur[..j][j - 1] == t[j - 1];
    InsertStableIs(t, x, j);
    assert t[..j] == was[..j] && t[j..] == was[j..i];
    assert cur[j := x][..i + 1] == cur[..j] + [x] + cur[j + 1..i + 1];
    assert cur[j := x][i + 1..] == cur[i + 1..];
  }

  /** Moves the element at `i` left past every older one. */
  method SinkLast(a: array<Point>, i: nat)
    requires i < a.Length
    modifies a
    ensures a[..i + 1] == InsertStable(old(a[..i]), old(a[i]))
    ensures a[i + 1..] == old(a[i + 1..])
  {
    hide InsertStable, OrderTime, Sinking;
    ghost var was, cur := a[..], a[..];
    var x := a[i];
    var j := i;
    assert Sinking(was, cur, x, i, i) by { SinkStart(was, i); }
    while j > 0 && OrderTime(x) > OrderTime(a[j - 1])
      invariant 0 <= j <= i
      invariant a[..] == cur && Sinking(was, cur, x, i, j)
    {
      SinkOne(was, cur, x, i, j);
      cur := cur[j := cur[j - 1]];
      a[j] := a[j - 1];
      j := j - 1;
    }
    Sunk(was, cur, x, i, j);
    cur := cur[j := x];
    a[j] := x;
    assert a[..] == cur;
    assert a[..i + 1] == cur[..i + 1] && a[i + 1..] == cur[i + 1..] && was[..i] == old(a[..i]);
  }

  lemma SinkStart(was: seq<Point>, i: nat)
    requires i < |was|
    ensures Sinking(was, was, was[i], i, i)
  {
  }

  lemma {:induction false} InsertStableIs(s: seq<Point>, x: Point, c: nat)
    requires c <= |s| && forall k :: c <= k < |s| ==> OrderTime(x) > OrderTime(s[k])
    requires c > 0 ==> OrderTime(x) <= OrderTime(s[c - 1])
    ensures InsertStable(s, x) == s[..c] + [x] + s[c..]
  {
    hide OrderTime;
    if c < |s| {
      var n := |s| - 1;
      InsertStableIs(s[..n], x, c);
      assert s[..n][..c] == s[..c] && s[..n][c..] + [s[n]] == s[c..];
    } else {
      assert s[..c] == s && s[c..] == [];
    }
  }

  /** Halfway through compacting what was `was`: candidates before `r` are read, the kept ones lie in
      `start..end`, and those from `r` on are untouched. */
  ghost predicate Compacting(was: seq<Point>, cur: seq<Point>, start: nat, end: nat, r: nat, retained: set<string>) {
    && start <= end <= r <= |was| && |cur| == |was|
    && cur[..start] == was[..start] && cur[r..] == was[r..]
    && cur[start..end] == Eligible(was[start..r], retained)
  }

  lemma CompactOne(was: seq<Point>, cur: seq<Point>, start: nat, end: nat, r: nat, retained: set<string>)
    requires Compacting(was, cur, start, end, r, retained) && r < |was|
    ensures cur[r] == was[r]
    ensures Protected(cur[r], retained) ==> Compacting(was, cur, start, end, r + 1, retained)
    ensures !Protected(cur[r], retained) ==> Compacting(was, cur[end := cur[r]], start, end + 1, r + 1, retained)
  {
    hide Protected, Eligible;
    assert cur[r] == cur[r..][0] == was[r];
    assert cur[r + 1..] == cur[r..][1..] == was[r + 1..];
    EligibleStep(was[start..], r - start, retained);
    assert was[start..][..r - start] == was[start..r] && was[start..][..r + 1 - start] == was[start..r + 1];
    var next := cur[end := cur[r]];
    assert next[..start] == cur[..start] && next[r + 1..] == cur[r + 1..];
    assert next[start..end + 1] == cur[start..end] + [cur[r]];
  }

  /** `eligible := candidates[:0]` and the append loop: the kept candidates overwrite the front of the
      very array being read. */
  method CompactInPlace(a: array<Point>, start: nat, retained: set<string>) returns (end: nat)
    requires start <= a.Length
    modifies a
    ensures start <= end <= a.Length
    ensures a[start..end] == Eligible(old(a[start..]), retained)
    ensures a[..start] == old(a[..start])
  {
    hide Protected, Eligible, Compacting;
    ghost var was, cur := a[..], a[..];
    end := start;
    assert Compacting(was, cur, start, end, start, retained) by { CompactStart(was, start, retained); }
    for r := start to a.Length
      invariant start <= end <= r
      invariant a[..] == cur && Compacting(was, cur, start, end, r, retained)
    {
      CompactOne(was, cur, start, end, r, retained);
      var point := a[r];
      if Protected(point, retained) {
        continue;
      }
      cur := cur[end := cur[r]];
      a[end] := point;
      end := end + 1;
      assert a[..] == cur;
    }
    Compacted(was, cur, start, end, retained);
    assert a[start..end] == cur[start..end] && a[..start] == cur[..start] && was[start..] == old(a[start..]);
  }

  lemma CompactStart(was: seq<Point>, start: nat, retained: set<string>)
    requires start <= |was|
    ensures Compacting(was, was, start, start, start, retained)
  {
    EligibleNone(retained);
  }

  lemma Compacted(was: seq<Point>, cur: seq<Point>, start: nat, end: nat, retained: set<string>)
    requires Compacting(was, cur, start, end, |was|, retained)
    ensures start <= end <= |cur| && cur[..start] == was[..start] && cur[start..end] == Eligible(was[start..], retained)
  {
    assert was[start..|was|] == was[start..];
  }

  /** What a pass selects: of the available points, newest first, those beyond the first `count` that
      nothing protects. */
  function Selection(points: seq<Point>, live: set<string>, retained: set<string>, count: nat): seq<Point> {
    var available := Available(points, live);
    if |available| <= count then [] else Eligible(StableSort(available)[count..], retained)
  }

  /** Selects with one array, sorted and then compacted in place. */
  method Select(points: seq<Point>, live: set<string>, retained: set<string>, count: nat) returns (selected: seq<Point>)
    ensures selected == Selection(points, live, retained, count)
  {
    hide Available, Eligible, StableSort, IsAvailable;
    var available: seq<Point> := CollectAvailable(points, live);
    if |available| <= count {
      return [];
    }
    var a := new Point[|available|](i requires 0 <= i < |available| => available[i]);
    assert a[..] == available;
    SliceStable(a);
    assert a[count..] == a[..][count..];
    var end := CompactInPlace(a, count, retained);
    selected := a[count..end];
  }

  method CollectAvailable(points: seq<Point>, live: set<string>) returns (available: seq<Point>)
    ensures available == Available(points, live)
  {
    available := [];
    for i := 0 to |points|
      invariant available == Available(points[..i], live)
    {
      assert points[..i + 1][..i] == points[..i];
      if points[i].status != "available" || points[i].veleroName == "" {
        continue;
      }
      if points[i].retentionState == "deleting" && points[i].cleanupTask in live {
        continue;
      }
      available := available + [points[i]];
    }
    assert points[..|points|] == points;
  }

  // ---------------------------------------------------------------- what the selection is

  /** A pass selects exactly the available, unprotected points whose rank is at or beyond the count. */
  lemma SelectionByRank(points: seq<Point>, live: set<string>, retained: set<string>, count: nat, i: nat)
    requires DistinctIds(points) && i < |Available(points, live)|
    ensures var available := Available(points, live);
            available[i] in Selection(points, live, retained, count) <==>
              Rank(available, i) >= count && !Protected(available[i], retained)
  {
    hide Available, Eligible, StableSort, Protected, Rank;
    var available := Available(points, live);
    var sorted := StableSort(available);
    AvailableDistinct(points, live);
    RankIsPosition(available, i);
    var r := Rank(available, i);
    if |available| > count {
      if r >= count {
        assert sorted[count..][r - count] == available[i];
      } else if available[i] in sorted[count..] {
        var q :| 0 <= q < |sorted| - count && sorted[count..][q] == available[i];
        StableSortDistinct(available);
      }
    }
  }

  lemma StableSortDistinct(s: seq<Point>)
    requires DistinctIds(s)
    ensures DistinctIds(StableSort(s))
  {
    hide StableSort;
    StableSortPermutes(s);
    var t := StableSort(s);
    forall i, j | 0 <= i < j < |t| ensures t[i].id != t[j].id {
      if t[i].id == t[j].id {
        assert t[i] in multiset(s) && t[j] in multiset(s);
        var p :| 0 <= p < |s| && s[p] == t[i];
        var q :| 0 <= q < |s| && s[q] == t[j];
        assert p == q;
        TwiceInSequence(t, i, j);
        OnceInSequence(s, p);
      }
    }
  }

  lemma TwiceInSequence(t: seq<Point>, i: nat, j: nat)
    requires i < j < |t| && t[i] == t[j]
    ensures multiset(t)[t[i]] >= 2
  {
    assert t == t[..i] + [t[i]] + t[i + 1..j] + [t[j]] + t[j + 1..];
  }

  lemma OnceInSequence(s: seq<Point>, p: nat)
    requires DistinctIds(s) && p < |s|
    ensures multiset(s)[s[p]] == 1
  {
    assert s == s[..p] + [s[p]] + s[p + 1..];
    assert s[p] !in s[..p] && s[p] !in s[p + 1..];
  }

  /** What is never selected: points kept by hand or by a drill, points with a replacement, points a retention
      rule keeps, and points that are not available, have no backup name or are in the hands of a live task. */
  lemma NeverSelected(points: seq<Point>, live: set<string>, retained: set<string>, count: nat, p: Point)
    requires DistinctIds(points)
    requires || p.manualRetained || p.drillRetained || p.replaced || p.id in retained
             || p.status != "available" || p.veleroName == "" || (p.retentionState == "deleting" && p.cleanupTask in live)
    ensures p !in Selection(points, live, retained, count)
  {
    hide Selection;
    SelectionListed(points, live, retained, count);
  }

  /** Of two available points that nothing protects, the one that completed later is never selected without the
      other; a point without a completion time counts from its creation. */
  lemma LaterIsKeptLonger(points: seq<Point>, live: set<string>, retained: set<string>, count: nat, i: nat, j: nat)
    requires DistinctIds(points) && i < |Available(points, live)| && j < |Available(points, live)|
    requires var p, q := Available(points, live)[i], Available(points, live)[j];
             && !Protected(p, retained) && !Protected(q, retained)
             && (if p.completedAt != 0 then p.completedAt else p.createdAt) > (if q.completedAt != 0 then q.completedAt else q.createdAt)
    ensures var p, q := Available(points, live)[i], Available(points, live)[j];
            p in Selection(points, live, retained, count) ==> q in Selection(points, live, retained, count)
  {
    hide Available, Selection, Protected, Rank, StableSort;
    var available := Available(points, live);
    SelectionByRank(points, live, retained, count, i);
    SelectionByRank(points, live, retained, count, j);
    EarlierRanksLower(available, i, j);
  }

  /** A newer point has the lower rank. */
  lemma EarlierRanksLower(s: seq<Point>, i: nat, j: nat)
    requires i < |s| && j < |s| && OrderTime(s[i]) > OrderTime(s[j])
    ensures Rank(s, i) < Rank(s, j)
  {
    hide StableSort, Rank, OrderTime;
    RankIsPosition(s, i);
    RankIsPosition(s, j);
    StableSortOrders(s);
  }

  /** Whenever something is selected, `count` other available points remain that are no older than it,
      and nothing selected is in the hands of a live cleanup task. */
  lemma SelectionKeepsNewest(points: seq<Point>, live: set<string>, retained: set<string>, count: nat) returns (kept: seq<Point>)
    requires DistinctIds(points) && Selection(points, live, retained, count) != []
    ensures |kept| == count && DistinctIds(kept)
    ensures forall k <- kept :: k in points && k !in Selection(points, live, retained, count)
    ensures forall k <- kept, p <- Selection(points, live, retained, count) :: OrderTime(k) >= OrderTime(p)
    ensures forall p <- Selection(points, live, retained, count) ::
              p in points && !(p.retentionState == "deleting" && p.cleanupTask in live)
  {
    hide Available, Eligible, StableSort, Protected, OrderTime;
    var available := Available(points, live);
    var sorted := StableSort(available);
    AvailableDistinct(points, live);
    StableSortDistinct(available);
    StableSortOrders(available);
    StableSortPermutes(available);
    kept := sorted[..count];
    forall p <- sorted ensures p in available { assert p in multiset(sorted); }
    forall k <- kept ensures k in points && k !in Selection(points, live, retained, count) {
      assert k in sorted;
      var i :| 0 <= i < count && sorted[i] == k;
      assert k !in sorted[count..];
    }
    forall k <- kept, p <- Selection(points, live, retained, count) ensures OrderTime(k) >= OrderTime(p) {
      var i :| 0 <= i < count && sorted[i] == k;
      assert p in sorted[count..];
      var j :| 0 <= j < |sorted| - count && sorted[count..][j] == p;
      assert sorted[count + j] == p;
    }
    forall p <- Selection(points, live, retained, count) ensures p in points && !(p.retentionState == "deleting" && p.cleanupTask in live) {
      assert p in sorted[count..] && p in sorted;
    }
  }

  // ---------------------------------------------------------------- claiming

  /** The store refuses to claim a point that is busy, retained, or already being deleted. */
  predicate Claimable(p: Point, busy: set<string>) {
    && p.id !in busy && p.status == "available" && !p.manualRetained && !p.drillRetained
    && p.retentionState != "pending_delete" && p.retentionState != "deleting"
  }

  class RestorePointStore {
    var points: map<string, Point>

    constructor (m: map<string, Point>)
      ensures points == m
    {
      points := m;
    }

    /** The listed points are the store's own records. */
    ghost predicate Lists(listed: seq<Point>)
      reads this
    {
      DistinctIds(listed) && forall p <- listed :: p.id in points && points[p.id] == p
    }

    /** One transaction, which may fail to commit: all of the points become `pending_delete`, or none does. */
    method ClaimDeletion(chosen: seq<Point>, busy: set<string>, commits: bool) returns (ok: bool)
      requires Lists(chosen)
      modifies this
      ensures ok <==> commits && forall p <- chosen :: Claimable(p, busy)
      ensures ok ==> forall p <- chosen ::
                && p.id !in busy && p.status == "available" && !p.manualRetained && !p.drillRetained
                && p.retentionState != "pending_delete" && p.retentionState != "deleting"
      ensures !ok ==> points == old(points)
      ensures ok ==> points == Mark(old(points), IdSet(chosen), "pending_delete", "")
      ensures ok ==> points.Keys == old(points).Keys && forall id :: id in points ==>
                points[id] == if exists p <- chosen :: p.id == id then old(points)[id].(retentionState := "pending_delete") else old(points)[id]
    {
      hide Mark, IdSet;
      var work := points;
      MarkNone(points, "pending_delete", "");
      assert IdSet(chosen[..0]) == {} by { NoIds(); }
      for i := 0 to |chosen|
        invariant forall k :: 0 <= k < i ==> Claimable(chosen[k], busy)
        invariant work == Mark(points, IdSet(chosen[..i]), "pending_delete", "")
        invariant points == old(points)
      {
        assert chosen[i] in chosen;
        MarkOne(points, chosen, i, "pending_delete", "");
        var p := work[chosen[i].id];
        if p.id in busy {
          return false;
        }
        if p.status != "available" || p.manualRetained || p.drillRetained || p.retentionState == "pending_delete" || p.retentionState == "deleting" {
          return false;
        }
        work := work[p.id := p.(retentionState := "pending_delete")];
      }
      assert chosen[..|chosen|] == chosen;
      MarkWrites(points, chosen, IdSet(chosen), "pending_delete", "");
      assert IdSet(chosen) * IdSet(chosen) == IdSet(chosen);
      InIdSet(chosen);
      if commits {
        points := work;
      }
      ok := commits;
    }

    /** Writes a retention state, and the owning task if there is one, to every chosen point; only the
        writes to points of `saved` succeed, and nobody looks at the others. */
    method UpdateStates(chosen: seq<Point>, state: string, task: string, saved: set<string>)
      requires DistinctIds(chosen) && forall p <- chosen :: p.id in points
      modifies this
      ensures points == Mark(old(points), IdSet(chosen) * saved, state, task)
      ensures points.Keys == old(points).Keys
      ensures forall id :: id in points ==>
                points[id] ==
                if id !in saved || !(exists p <- chosen :: p.id == id) then old(points)[id]
                else if task == "" then old(points)[id].(retentionState := state)
                else old(points)[id].(retentionState := state, cleanupTask := task)
    {
      hide Mark, MarkPoint, IdSet;
      MarkNone(points, state, task);
      assert IdSet(chosen[..0]) * saved == {} by { NoIds(); }
      for i := 0 to |chosen|
        invariant points.Keys == old(points).Keys
        invariant points == Mark(old(points), IdSet(chosen[..i]) * saved, state, task)
      {
        assert chosen[i] in chosen;
        MarkSaved(old(points), chosen, i, state, task, saved);
        if chosen[i].id in saved {
          points := points[chosen[i].id := MarkPoint(points[chosen[i].id], state, task)];
        }
      }
      assert chosen[..|chosen|] == chosen;
      MarkWrites(old(points), chosen, saved, state, task);
    }

    /** One retention pass over the listed points of a plan. `retained` is absent when the retention rules
        could not be evaluated, `commits` says whether the claim's transaction does, `newTask` is absent when
        the cleanup task could not be created, and `marked` and `owned` are the points whose later state
        writes succeed. */
    method Reconcile(listed: seq<Point>, tasks: seq<Task>, now: int, retained: Option<set<string>>, count: int, busy: set<string>,
                     commits: bool, newTask: Option<string>, marked: set<string>, owned: set<string>)
      returns (claimed: seq<Point>, ghost live: set<string>)
      requires Lists(listed)
      requires newTask.Some? ==> newTask.value != ""
      modifies this
      ensures forall id :: id in live <==> exists t <- tasks :: t.id == id && Live(t, now)
      ensures claimed ==
              if count > 0 && retained.Some? && commits && Unblocked(listed, live, retained.value, count, busy)
              then Selection(listed, live, retained.value, count) else []
      ensures var pending := Mark(old(points), IdSet(claimed), "pending_delete", "");
              points == if newTask.None? then pending else Mark(pending, IdSet(claimed) * owned, "deleting", newTask.value)
      ensures Handed(old(points), points, claimed, newTask, owned)
    {
      hide Selection, Live, Claimable, IdSet, Unblocked, Mark, Handed;
      var alive := LiveTasks(tasks, now);
      live := alive;
      claimed := [];
      NothingClaimed(points, owned, if newTask.Some? then newTask.value else "");
      MarksHandOver(points, [], newTask, owned);
      if count <= 0 || retained.None? {
        return;
      }
      var chosen := Select(listed, alive, retained.value, count);
      if |chosen| == 0 {
        return;
      }
      SelectionListed(listed, alive, retained.value, count);
      ClaimsIff(listed, alive, retained.value, count, busy);
      var ok := ClaimDeletion(chosen, busy, commits);
      if !ok {
        return;
      }
      claimed := chosen;
      MarksHandOver(old(points), chosen, newTask, owned);
      MarkKeys(old(points), IdSet(chosen), "pending_delete", "");
      UpdateStates(chosen, "pending_delete", "", marked);
      MarkIdle(old(points), IdSet(chosen), marked);
      if newTask.None? {
        return;
      }
      UpdateStates(chosen, "deleting", newTask.value, owned);
    }
  }

  /** What a pass leaves in the store, point by point: a claimed point whose last write was saved is being
      deleted by the new task; any other claimed point waits for deletion with the owner it had; all the rest
      is as it was. */
  ghost predicate Handed(before: map<string, Point>, after: map<string, Point>, claimed: seq<Point>, newTask: Option<string>, owned: set<string>) {
    && after.Keys == before.Keys
    && forall id :: id in before ==>
         after[id] ==
         if !(exists p <- claimed :: p.id == id) then before[id]
         else if newTask.Some? && id in owned then before[id].(retentionState := "deleting", cleanupTask := newTask.value)
         else before[id].(retentionState := "pending_delete")
  }

  lemma MarksHandOver(points: map<string, Point>, claimed: seq<Point>, newTask: Option<string>, owned: set<string>)
    requires newTask.Some? ==> newTask.value != ""
    ensures var pending := Mark(points, IdSet(claimed), "pending_delete", "");
            Handed(points, if newTask.None? then pending else Mark(pending, IdSet(claimed) * owned, "deleting", newTask.value), claimed, newTask, owned)
  {
    forall id ensures id in IdSet(claimed) <==> exists p <- claimed :: p.id == id {}
  }

  /** While the new task lives, no later pass counts a point that was handed to it, however the points are
      listed. */
  lemma HandedAreNotCounted(before: map<string, Point>, after: map<string, Point>, claimed: seq<Point>, task: string, owned: set<string>,
                            listed: seq<Point>, live: set<string>, p: Point)
    requires Handed(before, after, claimed, Some(task), owned) && task in live
    requires (forall q <- listed :: q.id in after && after[q.id] == q) && (forall q <- claimed :: q.id in before)
    requires p in claimed && p.id in owned
    ensures after[p.id].retentionState == "deleting" && after[p.id].cleanupTask == task
    ensures forall q <- Available(listed, live) :: q.id != p.id
  {
    hide Available;
  }

  /** Nothing claimed is nothing changed. */
  lemma NothingClaimed(points: map<string, Point>, owned: set<string>, task: string)
    ensures Mark(points, IdSet([]), "pending_delete", "") == points
    ensures Mark(points, IdSet([]) * owned, "deleting", task) == points
  {
  }

  lemma InIdSet(chosen: seq<Point>)
    ensures forall id :: id in IdSet(chosen) <==> exists p <- chosen :: p.id == id
  {
  }

  /** What marking writes to each point. */
  lemma MarkWrites(points: map<string, Point>, chosen: seq<Point>, saved: set<string>, state: string, task: string)
    ensures var after := Mark(points, IdSet(chosen) * saved, state, task);
            && after.Keys == points.Keys
            && forall id :: id in points ==>
                 after[id] ==
                 if id !in saved || !(exists p <- chosen :: p.id == id) then points[id]
                 else if task == "" then points[id].(retentionState := state)
                 else points[id].(retentionState := state, cleanupTask := task)
  {
    InIdSet(chosen);
  }

  lemma MarkKeys(points: map<string, Point>, ids: set<string>, state: string, task: string)
    ensures Mark(points, ids, state, task).Keys == points.Keys
  {
  }

  /** Marking some of the marked points again changes nothing. */
  lemma MarkIdle(points: map<string, Point>, ids: set<string>, some: set<string>)
    ensures Mark(Mark(points, ids, "pending_delete", ""), ids * some, "pending_delete", "") == Mark(points, ids, "pending_delete", "")
  {
  }

  /** When every write succeeds, every claimed point ends in the hands of the new task. */
  lemma AllOwned(points: map<string, Point>, ids: set<string>, owned: set<string>, task: string)
    requires ids <= owned
    ensures Mark(Mark(points, ids, "pending_delete", ""), ids * owned, "deleting", task) == Mark(points, ids, "deleting", task)
  {
    hide MarkPoint;
    assert ids * owned == ids;
    MarkAgain(points, ids, "deleting", task);
  }

  lemma MarkSaved(points: map<string, Point>, chosen: seq<Point>, i: nat, state: string, task: string, saved: set<string>)
    requires i < |chosen| && DistinctIds(chosen) && chosen[i].id in points
    ensures var work, id := Mark(points, IdSet(chosen[..i]) * saved, state, task), chosen[i].id;
            && id in work && work[id] == points[id] && work.Keys == points.Keys
            && Mark(points, IdSet(chosen[..i + 1]) * saved, state, task) == if id in saved then work[id := MarkPoint(points[id], state, task)] else work
  {
    hide MarkPoint;
    assert chosen[..i + 1] == chosen[..i] + [chosen[i]];
    assert IdSet(chosen[..i + 1]) == IdSet(chosen[..i]) + {chosen[i].id};
    assert chosen[i].id !in IdSet(chosen[..i]);
    if chosen[i].id !in saved { assert IdSet(chosen[..i + 1]) * saved == IdSet(chosen[..i]) * saved; }
  }

  lemma NoIds()
    ensures IdSet([]) == {}
  {
  }

  function IdSet(chosen: seq<Point>): set<string> {
    set p | p in chosen :: p.id
  }

  /** Writes a retention state; an empty task leaves the owning cleanup task as it was. */
  function MarkPoint(p: Point, state: string, task: string): Point {
    if task == "" then p.(retentionState := state) else p.(retentionState := state, cleanupTask := task)
  }

  /** The points named get a retention state, all others stay. */
  function Mark(points: map<string, Point>, ids: set<string>, state: string, task: string): map<string, Point> {
    map id | id in points :: if id in ids then MarkPoint(points[id], state, task) else points[id]
  }

  lemma MarkNone(points: map<string, Point>, state: string, task: string)
    ensures Mark(points, {}, state, task) == points
  {
  }

  lemma MarkOne(points: map<string, Point>, chosen: seq<Point>, i: nat, state: string, task: string)
    requires i < |chosen| && DistinctIds(chosen) && chosen[i].id in points
    ensures var work, id := Mark(points, IdSet(chosen[..i]), state, task), chosen[i].id;
            && id in work && work[id] == points[id]
            && Mark(points, IdSet(chosen[..i + 1]), state, task) == work[id := MarkPoint(points[id], state, task)]
  {
    hide MarkPoint;
    assert chosen[..i + 1] == chosen[..i] + [chosen[i]];
    assert IdSet(chosen[..i + 1]) == IdSet(chosen[..i]) + {chosen[i].id};
    assert chosen[i].id !in IdSet(chosen[..i]);
  }

  /** Marking twice leaves the second mark. */
  lemma MarkAgain(points: map<string, Point>, ids: set<string>, state: string, task: string)
    ensures Mark(Mark(points, ids, "pending_delete", ""), ids, state, task) == Mark(points, ids, state, task)
  {
  }

  lemma SelectionListed(points: seq<Point>, live: set<string>, retained: set<string>, count: nat)
    requires DistinctIds(points)
    ensures DistinctIds(Selection(points, live, retained, count))
    ensures forall p <- Selection(points, live, retained, count) :: p in points && IsAvailable(p, live) && !Protected(p, retained)
  {
    hide Available, Eligible, StableSort, Protected;
    var available := Available(points, live);
    var sorted := StableSort(available);
    AvailableDistinct(points, live);
    StableSortDistinct(available);
    StableSortPermutes(available);
    forall p <- sorted ensures p in available { assert p in multiset(sorted); }
    if |available| > count {
      var rest := sorted[count..];
      assert DistinctIds(rest);
      EligibleDistinct(rest, retained);
      forall p <- Eligible(rest, retained) ensures p in points && IsAvailable(p, live) && !Protected(p, retained) {
        assert p in rest && p in sorted;
      }
    }
  }

  /** A point the store does not let go of: in use, or already marked for deletion. */
  predicate Blocking(p: Point, busy: set<string>) {
    p.id in busy || p.retentionState == "pending_delete" || p.retentionState == "deleting"
  }

  /** No available point beyond the retention count that nothing protects is blocking. */
  ghost predicate Unblocked(points: seq<Point>, live: set<string>, retained: set<string>, count: nat, busy: set<string>) {
    var available := Available(points, live);
    forall i :: 0 <= i < |available| && Rank(available, i) >= count && !Protected(available[i], retained) ==> !Blocking(available[i], busy)
  }

  /** The store's all-or-nothing claim lets a pass have its selection if and only if no point beyond the
      count is in use or marked already, unless protected. A point left in `pending_delete`, or in `deleting`
      by a cleanup task that went silent, is selected again and blocks the whole pass. */
  lemma ClaimsIff(points: seq<Point>, live: set<string>, retained: set<string>, count: nat, busy: set<string>)
    requires DistinctIds(points)
    ensures (forall p <- Selection(points, live, retained, count) :: Claimable(p, busy)) <==> Unblocked(points, live, retained, count, busy)
  {
    hide Selection, Available, Rank;
    var available, chosen := Available(points, live), Selection(points, live, retained, count);
    SelectionListed(points, live, retained, count);
    if Unblocked(points, live, retained, count, busy) {
      forall p <- chosen ensures Claimable(p, busy) {
        assert p in available;
        var i :| 0 <= i < |available| && available[i] == p;
        SelectionByRank(points, live, retained, count, i);
      }
    }
    if forall p <- chosen :: Claimable(p, busy) {
      forall i | 0 <= i < |available| && Rank(available, i) >= count && !Protected(available[i], retained) ensures !Blocking(available[i], busy) {
        SelectionByRank(points, live, retained, count, i);
      }
    }
  }

  /** A plan that keeps one point has three. The oldest was left in `pending_delete` by a pass that could not
      create its cleanup task. Both older points are selected, one of them could be claimed, and the pass
      claims neither. */
  lemma LeftoverBlocksThePass(newest: Point, middle: Point, oldest: Point)
    requires newest.id != middle.id && newest.id != oldest.id && middle.id != oldest.id
    requires IsAvailable(newest, {}) && IsAvailable(middle, {}) && IsAvailable(oldest, {})
    requires OrderTime(newest) > OrderTime(middle) > OrderTime(oldest)
    requires oldest.retentionState == "pending_delete" && Claimable(middle, {})
    requires !Protected(middle, {}) && !Protected(oldest, {})
    ensures var points := [newest, middle, oldest];
            && middle in Selection(points, {}, {}, 1) && oldest in Selection(points, {}, {}, 1)
            && Claimable(middle, {}) && !Unblocked(points, {}, {}, 1, {})
  {
    hide Available, Selection, Claimable, Protected, IsAvailable, Rank, StableSort;
    var points := [newest, middle, oldest];
    AllAvailable(newest, middle, oldest);
    RanksOfThree(newest, middle, oldest);
    SelectionByRank(points, {}, {}, 1, 1);
    SelectionByRank(points, {}, {}, 1, 2);
    assert Blocking(oldest, {});
  }

  lemma AllAvailable(a: Point, b: Point, c: Point)
    requires IsAvailable(a, {}) && IsAvailable(b, {}) && IsAvailable(c, {})
    ensures Available([a, b, c], {}) == [a, b, c]
  {
    hide IsAvailable;
    assert [a, b, c][..2] == [a, b] && [a, b][..1] == [a] && [a][..0] == [];
  }

  lemma RanksOfThree(a: Point, b: Point, c: Point)
    requires OrderTime(a) > OrderTime(b) > OrderTime(c)
    ensures Rank([a, b, c], 1) == 1 && Rank([a, b, c], 2) == 2
  {
    hide OrderTime;
    var s := [a, b, c];
    assert RankUpTo(s, 1, 0) == 0 && RankUpTo(s, 1, 1) == 1 && RankUpTo(s, 1, 2) == 1 && RankUpTo(s, 1, 3) == 1;
    assert RankUpTo(s, 2, 0) == 0 && RankUpTo(s, 2, 1) == 1 && RankUpTo(s, 2, 2) == 2 && RankUpTo(s, 2, 3) == 2;
  }
}
