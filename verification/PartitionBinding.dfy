/** Binding the partitions of a projection to nodes, one budget for each node. */
module PartitionBinding {
  import opened Arithmetic

  /** memory_info or disk_info, in megabytes. */
  datatype Budget = Budget(capacity: int, used: int)

  const UNBOUND := -1
  const BLOCK_KB := 64

  /** The blocks of each partition, and the node each is bound to. */
  datatype Projection = Projection(blocks: seq<nat>, at: seq<int>)

  function SizeInMb(blocks: nat): nat { blocks * BLOCK_KB / 1024 }

  /** The megabytes that the blocks fill. */
  lemma SizeInMbIs(blocks: nat)
    ensures SizeInMb(blocks) * 16 <= blocks < (SizeInMb(blocks) + 1) * 16
  {
  }

  function SizesOf(blocks: seq<nat>): (r: seq<nat>)
    ensures |r| == |blocks| && forall i :: 0 <= i < |r| ==> r[i] == SizeInMb(blocks[i])
  {
    seq(|blocks|, i requires 0 <= i < |blocks| => SizeInMb(blocks[i]))
  }

  predicate Fits(b: Budget, size: nat) { b.capacity >= b.used + size }

  // ----- round robin -----

  /** The node after cur, going round. */
  function After(cur: nat, n: nat): nat { if cur + 1 == n then 0 else cur + 1 }

  lemma AfterIsModulo(cur: nat, n: nat)
    requires cur < n
    ensures (cur + 1) % n == After(cur, n)
  {
  }

  /** The first node from cur on, going round, that has room; -1 after n misses. */
  function FirstFit(nodes: seq<Budget>, cur: nat, size: nat, n: nat): (r: int)
    requires cur < |nodes|
    ensures -1 <= r < |nodes| && (r >= 0 ==> Fits(nodes[r], size))
    decreases n
  {
    if n == 0 then -1
    else if Fits(nodes[cur], size) then cur
    else FirstFit(nodes, After(cur, |nodes|), size, n - 1)
  }

  /** n misses in a row: none of the n nodes from cur on, going round, has room. */
  lemma {:induction false} MissedAll(nodes: seq<Budget>, cur: nat, size: nat, n: nat, k: nat)
    requires cur < |nodes| && n <= |nodes| && FirstFit(nodes, cur, size, n) == -1
    requires k < |nodes| && (cur <= k < cur + n || k + |nodes| < cur + n)
    ensures !Fits(nodes[k], size)
    decreases n
  {
    if k != cur {
      MissedAll(nodes, After(cur, |nodes|), size, n - 1, k);
    }
  }

  /** A full round finds a node exactly when some node has room. */
  lemma FirstFitFinds(nodes: seq<Budget>, cur: nat, size: nat)
    requires cur < |nodes|
    ensures FirstFit(nodes, cur, size, |nodes|) == -1 <==> forall k :: 0 <= k < |nodes| ==> !Fits(nodes[k], size)
  {
    if FirstFit(nodes, cur, size, |nodes|) == -1 {
      forall k | 0 <= k < |nodes| ensures !Fits(nodes[k], size) {
        MissedAll(nodes, cur, size, |nodes|, k);
      }
    }
  }

  // ----- budgets and loads -----

  function Take(nodes: seq<Budget>, k: nat, size: int): seq<Budget>
    requires k < |nodes|
  {
    nodes[k := Budget(nodes[k].capacity, nodes[k].used + size)]
  }

  /** The budgets after the first i partitions have been placed. */
  function Taken(nodes: seq<Budget>, sizes: seq<nat>, places: seq<int>, i: nat): (r: seq<Budget>)
    requires i <= |sizes| && i <= |places| && forall h :: 0 <= h < i ==> 0 <= places[h] < |nodes|
    ensures |r| == |nodes|
  {
    if i == 0 then nodes else Take(Taken(nodes, sizes, places, i - 1), places[i - 1], sizes[i - 1])
  }

  /** What the first n partitions put on node k. */
  function Load(sizes: seq<nat>, places: seq<int>, n: nat, k: int): nat
    requires n <= |sizes| && n <= |places|
  {
    if n == 0 then 0 else Load(sizes, places, n - 1, k) + if places[n - 1] == k then sizes[n - 1] else 0
  }

  lemma {:induction false} TakenLoad(nodes: seq<Budget>, sizes: seq<nat>, places: seq<int>, i: nat, k: nat)
    requires i <= |sizes| && i <= |places| && k < |nodes| && forall h :: 0 <= h < i ==> 0 <= places[h] < |nodes|
    ensures Taken(nodes, sizes, places, i)[k] == Budget(nodes[k].capacity, nodes[k].used + Load(sizes, places, i, k))
  {
    if i > 0 {
      TakenLoad(nodes, sizes, places, i - 1, k);
    }
  }

  lemma {:induction false} TakenSame(nodes: seq<Budget>, sizes: seq<nat>, a: seq<int>, b: seq<int>, i: nat)
    requires i <= |sizes| && i <= |a| && i <= |b| && forall h :: 0 <= h < i ==> 0 <= a[h] < |nodes| && a[h] == b[h]
    ensures Taken(nodes, sizes, a, i) == Taken(nodes, sizes, b, i)
  {
    if i > 0 {
      TakenSame(nodes, sizes, a, b, i - 1);
    }
  }

  lemma {:induction false} LoadSame(sizes: seq<nat>, a: seq<int>, b: seq<int>, n: nat, k: int)
    requires n <= |sizes| && n <= |a| && n <= |b| && forall h :: 0 <= h < n ==> a[h] == b[h]
    ensures Load(sizes, a, n, k) == Load(sizes, b, n, k)
  {
    if n > 0 {
      LoadSame(sizes, a, b, n - 1, k);
    }
  }

  lemma {:induction false} LoadNone(sizes: seq<nat>, at: seq<int>, n: nat, k: nat)
    requires n <= |sizes| && n <= |at| && forall h :: 0 <= h < n ==> at[h] == UNBOUND
    ensures Load(sizes, at, n, k) == 0
  {
    if n > 0 {
      LoadNone(sizes, at, n - 1, k);
    }
  }

  /** Where the search for the i-th partition starts: behind the node before. */
  function Cursor(places: seq<int>, i: nat, n: nat): nat
    requires i <= |places| && n > 0 && forall h :: 0 <= h < i ==> 0 <= places[h] < n
  {
    if i == 0 then 0 else After(places[i - 1], n)
  }

  predicate InNodes(places: seq<int>, n: nat) { forall h :: 0 <= h < |places| ==> 0 <= places[h] < n }

  /** Each of the places is the one round robin picks, given the takes before it. */
  predicate RoundRobin(nodes: seq<Budget>, sizes: seq<nat>, places: seq<int>) {
    && nodes != [] && |places| <= |sizes| && InNodes(places, |nodes|)
    && forall i :: 0 <= i < |places| ==> Picked(nodes, sizes, places, i)
  }

  predicate Picked(nodes: seq<Budget>, sizes: seq<nat>, places: seq<int>, i: nat)
    requires nodes != [] && i < |places| <= |sizes| && InNodes(places, |nodes|)
  {
    places[i] == FirstFit(Taken(nodes, sizes, places, i), Cursor(places, i, |nodes|), sizes[i], |nodes|)
  }

  /** After these places, the next partition fits on no node. */
  predicate Stuck(nodes: seq<Budget>, sizes: seq<nat>, places: seq<int>) {
    && RoundRobin(nodes, sizes, places) && |places| < |sizes|
    && forall k :: 0 <= k < |nodes| ==> !Fits(Taken(nodes, sizes, places, |places|)[k], sizes[|places|])
  }

  /** One more place, and the others as they were. */
  predicate Extends(places: seq<int>, more: seq<int>) {
    |more| == |places| + 1 && forall h :: 0 <= h < |places| ==> places[h] == more[h]
  }

  lemma RoundRobinMore(nodes: seq<Budget>, sizes: seq<nat>, places: seq<int>, more: seq<int>)
    requires RoundRobin(nodes, sizes, places) && |places| < |sizes| && Extends(places, more) && more[|places|] >= 0
    requires more[|places|] ==
             FirstFit(Taken(nodes, sizes, places, |places|), Cursor(places, |places|, |nodes|), sizes[|places|], |nodes|)
    ensures RoundRobin(nodes, sizes, more)
  {
    hide FirstFit, Taken, Picked, Cursor;
    InsideMore(places, more, |nodes|);
    forall i | 0 <= i < |more| ensures Picked(nodes, sizes, more, i) {
      if i < |places| {
        StillPicked(nodes, sizes, places, more, i);
      } else {
        NowPicked(nodes, sizes, places, more);
      }
    }
  }

  lemma InsideMore(places: seq<int>, more: seq<int>, n: nat)
    requires InNodes(places, n) && Extends(places, more) && 0 <= more[|places|] < n
    ensures InNodes(more, n)
  {
    forall h | 0 <= h < |more| ensures 0 <= more[h] < n {
      assert h < |places| ==> places[h] == more[h];
    }
  }

  lemma TakenLast(nodes: seq<Budget>, sizes: seq<nat>, places: seq<int>, more: seq<int>, n: nat)
    requires n == |places| < |more| <= |sizes| && InNodes(places, |nodes|) && InNodes(more, |nodes|)
    requires forall h :: 0 <= h < n ==> places[h] == more[h]
    ensures Taken(nodes, sizes, more, n + 1) == Take(Taken(nodes, sizes, places, n), more[n], sizes[n])
  {
    TakenSame(nodes, sizes, places, more, n);
  }

  lemma NowPicked(nodes: seq<Budget>, sizes: seq<nat>, places: seq<int>, more: seq<int>)
    requires nodes != [] && |places| < |more| <= |sizes| && InNodes(places, |nodes|) && InNodes(more, |nodes|)
    requires forall h :: 0 <= h < |places| ==> places[h] == more[h]
    requires more[|places|] ==
             FirstFit(Taken(nodes, sizes, places, |places|), Cursor(places, |places|, |nodes|), sizes[|places|], |nodes|)
    ensures Picked(nodes, sizes, more, |places|)
  {
    hide FirstFit, Taken;
    TakenSame(nodes, sizes, places, more, |places|);
  }

  lemma StillPicked(nodes: seq<Budget>, sizes: seq<nat>, places: seq<int>, more: seq<int>, i: nat)
    requires RoundRobin(nodes, sizes, places) && i < |places| && InNodes(more, |nodes|)
    requires |places| <= |more| <= |sizes| && forall h :: 0 <= h < |places| ==> places[h] == more[h]
    ensures Picked(nodes, sizes, more, i)
  {
    hide FirstFit;
    TakenSame(nodes, sizes, places, more, i);
    assert Picked(nodes, sizes, places, i);
  }

  /** Round robin leaves no choice. */
  lemma {:induction false} RoundRobinUnique(nodes: seq<Budget>, sizes: seq<nat>, a: seq<int>, b: seq<int>, i: nat)
    requires RoundRobin(nodes, sizes, a) && RoundRobin(nodes, sizes, b) && i < |a| && i < |b|
    ensures forall h :: 0 <= h <= i ==> a[h] == b[h]
    decreases i
  {
    if i > 0 {
      RoundRobinUnique(nodes, sizes, a, b, i - 1);
    }
    TakenSame(nodes, sizes, a, b, i);
    assert Picked(nodes, sizes, a, i) && Picked(nodes, sizes, b, i);
  }

  lemma PickedFits(nodes: seq<Budget>, sizes: seq<nat>, places: seq<int>, i: nat)
    requires RoundRobin(nodes, sizes, places) && i < |places|
    ensures Fits(Taken(nodes, sizes, places, i)[places[i]], sizes[i])
  {
    assert Picked(nodes, sizes, places, i);
  }

  /** So a projection is either placed in full or stuck, never both. */
  lemma NotBoth(nodes: seq<Budget>, sizes: seq<nat>, a: seq<int>, b: seq<int>)
    requires RoundRobin(nodes, sizes, a) && |a| == |sizes|
    ensures !Stuck(nodes, sizes, b)
  {
    if Stuck(nodes, sizes, b) {
      var i := |b|;
      if i > 0 {
        RoundRobinUnique(nodes, sizes, a, b, i - 1);
      }
      TakenSame(nodes, sizes, a, b, i);
      PickedFits(nodes, sizes, a, i);
    }
  }

  // ----- going round -----

  /** The d-th node from start on, going round. */
  function From(start: nat, d: nat, n: nat): (r: nat)
    requires n > 0
    ensures r < n
  {
    (start + d) % n
  }

  /** The nodes tried before pos, from start on and going round, have no room, and pos has. */
  ghost predicate FirstFrom(nodes: seq<Budget>, size: nat, start: nat, pos: int) {
    nodes != [] && 0 <= pos < |nodes| && nodes[pos].used + size <= nodes[pos].capacity &&
    exists d :: 0 <= d < |nodes| && pos == From(start, d, |nodes|) && MissesTo(nodes, size, start, d)
  }

  predicate HasNoRoom(b: Budget, size: nat) { b.used + size > b.capacity }

  predicate MissesTo(nodes: seq<Budget>, size: nat, start: nat, d: nat)
    requires nodes != []
  {
    forall e :: 0 <= e < d ==> HasNoRoom(nodes[From(start, e, |nodes|)], size)
  }

  /** Partition i is on the first node with room behind that of the partition before it. */
  ghost predicate BehindLast(nodes: seq<Budget>, sizes: seq<nat>, places: seq<int>, i: nat)
    requires i < |places| <= |sizes| && InNodes(places, |nodes|)
  {
    FirstFrom(Taken(nodes, sizes, places, i), sizes[i], if i == 0 then 0 else places[i - 1] + 1, places[i])
  }

  ghost predicate GoesRound(nodes: seq<Budget>, sizes: seq<nat>, places: seq<int>) {
    && |places| <= |sizes| && InNodes(places, |nodes|)
    && forall i :: 0 <= i < |places| ==> BehindLast(nodes, sizes, places, i)
  }

  lemma FromZero(start: nat, n: nat)
    requires start < n
    ensures From(start, 0, n) == start
  {
  }

  lemma FromAfter(start: nat, e: nat, n: nat)
    requires start < n
    ensures From(After(start, n), e, n) == From(start, e + 1, n) == From(start + 1, e, n)
  {
    if start + 1 == n {
      AddModulus(e, n);
    }
  }

  lemma AddModulus(e: nat, n: nat)
    requires n > 0
    ensures (n + e) % n == e % n
  {
    var q, r := e / n, e % n;
    assert n + e == (q + 1) * n + r;
    DivisionUnique(n + e, n, q + 1, r);
  }

  lemma DivisionUnique(a: nat, n: nat, q: nat, r: nat)
    requires n > 0 && a == q * n + r && r < n
    ensures a % n == r
  {
    var x, y := a / n, a % n;
    assert x * n + y == q * n + r;
    assert (x + 1) * n == x * n + n && (q + 1) * n == q * n + n;
    if x < q {
      MulLe(x + 1, q, n);
    } else if q < x {
      MulLe(q + 1, x, n);
    }
  }

  lemma {:induction false} FirstFitFrom(nodes: seq<Budget>, cur: nat, size: nat, n: nat) returns (d: nat)
    requires cur < |nodes| && FirstFit(nodes, cur, size, n) >= 0
    ensures d < n && FirstFit(nodes, cur, size, n) == From(cur, d, |nodes|) && MissesTo(nodes, size, cur, d)
    decreases n
  {
    hide From;
    FromZero(cur, |nodes|);
    if Fits(nodes[cur], size) {
      d := 0;
    } else {
      var next := After(cur, |nodes|);
      var f := FirstFitFrom(nodes, next, size, n - 1);
      d := f + 1;
      FromAfter(cur, f, |nodes|);
      forall e | 0 <= e < d ensures HasNoRoom(nodes[From(cur, e, |nodes|)], size) {
        if e > 0 {
          FromAfter(cur, e - 1, |nodes|);
          assert HasNoRoom(nodes[From(next, e - 1, |nodes|)], size);
        }
      }
    }
  }

  /** Round robin goes round: each partition goes to the first node with room behind the
      node of the partition before it. */
  lemma RoundRobinGoesRound(nodes: seq<Budget>, sizes: seq<nat>, places: seq<int>)
    requires RoundRobin(nodes, sizes, places)
    ensures GoesRound(nodes, sizes, places)
  {
    forall i | 0 <= i < |places| ensures BehindLast(nodes, sizes, places, i) {
      PickedBehind(nodes, sizes, places, i);
    }
  }

  lemma PickedBehind(nodes: seq<Budget>, sizes: seq<nat>, places: seq<int>, i: nat)
    requires RoundRobin(nodes, sizes, places) && i < |places|
    ensures BehindLast(nodes, sizes, places, i)
  {
    hide FirstFit, Taken, From;
    var now, cur, n := Taken(nodes, sizes, places, i), Cursor(places, i, |nodes|), |nodes|;
    assert Picked(nodes, sizes, places, i);
    var d := FirstFitFrom(now, cur, sizes[i], n);
    if i > 0 {
      var start := places[i - 1] + 1;
      FromAfter(places[i - 1], d, n);
      forall e | 0 <= e < d ensures HasNoRoom(now[From(start, e, n)], sizes[i]) {
        FromAfter(places[i - 1], e, n);
        assert HasNoRoom(now[From(cur, e, n)], sizes[i]);
      }
      assert MissesTo(now, sizes[i], start, d);
    }
  }

  function Total(sizes: seq<nat>, n: nat): nat
    requires n <= |sizes|
  {
    if n == 0 then 0 else Total(sizes, n - 1) + sizes[n - 1]
  }

  /** Every node has room for the whole projection. */
  predicate RoomForAll(nodes: seq<Budget>, sizes: seq<nat>) {
    forall k :: 0 <= k < |nodes| ==> nodes[k].used + Total(sizes, |sizes|) <= nodes[k].capacity
  }

  lemma {:induction false} LoadWithin(sizes: seq<nat>, places: seq<int>, n: nat, k: int)
    requires n <= |sizes| && n <= |places|
    ensures Load(sizes, places, n, k) <= Total(sizes, n)
  {
    if n > 0 {
      LoadWithin(sizes, places, n - 1, k);
    }
  }

  lemma {:induction false} TotalGrows(sizes: seq<nat>, i: nat, j: nat)
    requires i <= j <= |sizes|
    ensures Total(sizes, i) <= Total(sizes, j)
  {
    if i < j {
      TotalGrows(sizes, i, j - 1);
    }
  }

  lemma StillRoom(nodes: seq<Budget>, sizes: seq<nat>, places: seq<int>, i: nat, k: nat)
    requires RoomForAll(nodes, sizes) && |places| <= |sizes| && i <= |places| && i < |sizes| && InNodes(places, |nodes|) && k < |nodes|
    ensures Fits(Taken(nodes, sizes, places, i)[k], sizes[i])
  {
    TakenLoad(nodes, sizes, places, i, k);
    LoadWithin(sizes, places, i, k);
    TotalGrows(sizes, i + 1, |sizes|);
  }

  /** With room everywhere the partitions are dealt out in turn. */
  lemma {:induction false} DealtInTurn(nodes: seq<Budget>, sizes: seq<nat>, places: seq<int>, i: nat)
    requires RoundRobin(nodes, sizes, places) && RoomForAll(nodes, sizes) && i < |places|
    ensures places[i] == i % |nodes|
  {
    var cur, n := Cursor(places, i, |nodes|), |nodes|;
    assert Picked(nodes, sizes, places, i);
    StillRoom(nodes, sizes, places, i, cur);
    hide Taken, RoundRobin, RoomForAll;
    assert places[i] == cur;
    if i > 0 {
      DealtInTurn(nodes, sizes, places, i - 1);
      NextInTurn(i, n);
    }
  }

  lemma NextInTurn(i: nat, n: nat)
    requires i > 0 && n > 0
    ensures After((i - 1) % n, n) == i % n
  {
    var q, r := (i - 1) / n, (i - 1) % n;
    assert i == q * n + r + 1;
    if r + 1 == n {
      assert i == (q + 1) * n + 0;
      DivisionUnique(i, n, q + 1, 0);
    } else {
      DivisionUnique(i, n, q, r + 1);
    }
  }

  lemma RoomPlacesAll(nodes: seq<Budget>, sizes: seq<nat>, places: seq<int>)
    requires RoundRobin(nodes, sizes, places) && RoomForAll(nodes, sizes) && (|places| == |sizes| || Stuck(nodes, sizes, places))
    ensures |places| == |sizes| && InTurn(places, |nodes|)
  {
    if |places| < |sizes| {
      StillRoom(nodes, sizes, places, |places|, 0);
    }
    forall i | 0 <= i < |places| ensures places[i] == i % |nodes| {
      DealtInTurn(nodes, sizes, places, i);
    }
  }

  predicate InTurn(places: seq<int>, n: nat)
    requires n > 0
  {
    forall i :: 0 <= i < |places| ==> places[i] == i % n
  }

  // ----- the whole cluster -----

  predicate Whole(p: Projection, n: nat) {
    && |p.at| == |p.blocks|
    && (InNodes(p.at, n) || forall h :: 0 <= h < |p.at| ==> p.at[h] == UNBOUND)
  }

  function Held(p: Projection, k: int): nat {
    if |p.at| == |p.blocks| then Load(SizesOf(p.blocks), p.at, |p.at|, k) else 0
  }

  /** What the first m projections put on node k. */
  function HeldTo(ps: seq<Projection>, m: nat, k: int): nat
    requires m <= |ps|
  {
    if m == 0 then 0 else HeldTo(ps, m - 1, k) + Held(ps[m - 1], k)
  }

  lemma {:induction false} HeldSet(ps: seq<Projection>, m: nat, i: nat, p: Projection, k: int)
    requires m <= |ps| && i < |ps|
    ensures HeldTo(ps[i := p], m, k) == HeldTo(ps, m, k) + if i < m then Held(p, k) - Held(ps[i], k) else 0
  {
    if m > 0 {
      HeldSet(ps, m - 1, i, p, k);
    }
  }

  /** The node's used budget is the size of what is bound to it, within its allocation. */
  predicate Balanced(b: Budget, ps: seq<Projection>, k: int) {
    b.used == HeldTo(ps, |ps|, k) && b.used <= b.capacity
  }

  predicate ClusterOk(nodes: seq<Budget>, ps: seq<Projection>) {
    && nodes != []
    && (forall k :: 0 <= k < |nodes| ==> Balanced(nodes[k], ps, k))
    && (forall i :: 0 <= i < |ps| ==> Whole(ps[i], |nodes|))
  }

  lemma {:induction false} PlacedWithin(nodes: seq<Budget>, sizes: seq<nat>, places: seq<int>, i: nat, k: nat)
    requires RoundRobin(nodes, sizes, places) && i <= |places| && k < |nodes|
    requires nodes[k].used <= nodes[k].capacity
    ensures Taken(nodes, sizes, places, i)[k].used <= Taken(nodes, sizes, places, i)[k].capacity
  {
    if i > 0 {
      PlacedWithin(nodes, sizes, places, i - 1, k);
      assert Picked(nodes, sizes, places, i - 1);
    }
  }

  lemma BoundOk(nodes: seq<Budget>, ps: seq<Projection>, p: nat, places: seq<int>)
    requires ClusterOk(nodes, ps) && p < |ps|
    requires forall h :: 0 <= h < |ps[p].at| ==> ps[p].at[h] == UNBOUND
    requires var sizes := SizesOf(ps[p].blocks); |places| == |sizes| && RoundRobin(nodes, sizes, places)
    ensures ClusterOk(Taken(nodes, SizesOf(ps[p].blocks), places, |places|), ps[p := ps[p].(at := places)])
  {
    hide FirstFit;
    var sizes, q := SizesOf(ps[p].blocks), ps[p].(at := places);
    var after, qs := Taken(nodes, sizes, places, |places|), ps[p := q];
    forall k | 0 <= k < |after| ensures Balanced(after[k], qs, k) {
      assert Balanced(nodes[k], ps, k);
      TakenLoad(nodes, sizes, places, |places|, k);
      PlacedWithin(nodes, sizes, places, |places|, k);
      HeldSet(ps, |ps|, p, q, k);
      LoadNone(sizes, ps[p].at, |ps[p].at|, k);
    }
    forall i | 0 <= i < |qs| ensures Whole(qs[i], |after|) {
      assert Whole(ps[i], |nodes|);
    }
  }

  /** The budgets after the first i partitions have been returned. */
  function Returned(nodes: seq<Budget>, sizes: seq<nat>, at: seq<int>, i: nat): (r: seq<Budget>)
    requires i <= |sizes| && i <= |at|
    ensures |r| == |nodes|
  {
    if i == 0 then nodes
    else
      var r := Returned(nodes, sizes, at, i - 1);
      if 0 <= at[i - 1] < |nodes| then Take(r, at[i - 1], 0 - (sizes[i - 1] as int)) else r
  }

  lemma {:induction false} ReturnedLoad(nodes: seq<Budget>, sizes: seq<nat>, at: seq<int>, i: nat, k: nat)
    requires i <= |sizes| && i <= |at| && k < |nodes|
    ensures Returned(nodes, sizes, at, i)[k] == Budget(nodes[k].capacity, nodes[k].used - Load(sizes, at, i, k))
  {
    if i > 0 {
      ReturnedLoad(nodes, sizes, at, i - 1, k);
    }
  }

  lemma UnboundOk(nodes: seq<Budget>, ps: seq<Projection>, p: nat, none: seq<int>)
    requires ClusterOk(nodes, ps) && p < |ps| && |none| == |ps[p].at|
    requires forall h :: 0 <= h < |none| ==> none[h] == UNBOUND
    ensures |ps[p].at| == |ps[p].blocks|
    ensures ClusterOk(Returned(nodes, SizesOf(ps[p].blocks), ps[p].at, |none|), ps[p := ps[p].(at := none)])
  {
    assert Whole(ps[p], |nodes|);
    var sizes, q := SizesOf(ps[p].blocks), ps[p].(at := none);
    var after, qs := Returned(nodes, sizes, ps[p].at, |none|), ps[p := q];
    forall k | 0 <= k < |after| ensures Balanced(after[k], qs, k) {
      assert Balanced(nodes[k], ps, k);
      ReturnedLoad(nodes, sizes, ps[p].at, |none|, k);
      HeldSet(ps, |ps|, p, q, k);
      LoadNone(sizes, none, |none|, k);
    }
    forall i | 0 <= i < |qs| ensures Whole(qs[i], |after|) {
      assert Whole(ps[i], |nodes|);
    }
  }

  lemma {:induction false} NothingHeld(ps: seq<Projection>, m: nat, k: nat)
    requires m <= |ps| && forall i, h :: 0 <= i < |ps| && 0 <= h < |ps[i].at| ==> ps[i].at[h] == UNBOUND
    ensures HeldTo(ps, m, k) == 0
  {
    if m > 0 {
      NothingHeld(ps, m - 1, k);
      if |ps[m - 1].at| == |ps[m - 1].blocks| {
        LoadNone(SizesOf(ps[m - 1].blocks), ps[m - 1].at, |ps[m - 1].at|, k);
      }
    }
  }

  // ----- runs -----

  datatype Op = Bind(p: nat) | Unbind(p: nat)

  datatype Cluster = Cluster(nodes: seq<Budget>, projections: seq<Projection>)

  /** The cluster after an operation, or as a failed bind leaves it. */
  datatype Outcome = Reached(cluster: Cluster) | Stopped(cluster: Cluster)

  predicate Sized(c: Cluster) {
    c.nodes != [] && forall i :: 0 <= i < |c.projections| ==> |c.projections[i].at| == |c.projections[i].blocks|
  }

  predicate Located(p: Projection) { forall h :: 0 <= h < |p.at| ==> p.at[h] >= 0 }

  /** Round robin continued as far as it goes. */
  function Greedy(nodes: seq<Budget>, sizes: seq<nat>, places: seq<int>): (r: seq<int>)
    requires RoundRobin(nodes, sizes, places)
    ensures RoundRobin(nodes, sizes, r) && (|r| == |sizes| || Stuck(nodes, sizes, r))
    decreases |sizes| - |places|
  {
    if |places| == |sizes| then places
    else
      var now, cur, size := Taken(nodes, sizes, places, |places|), Cursor(places, |places|, |nodes|), sizes[|places|];
      FirstFitFinds(now, cur, size);
      var pos := FirstFit(now, cur, size, |nodes|);
      if pos < 0 then places
      else
        RoundRobinMore(nodes, sizes, places, places + [pos]);
        Greedy(nodes, sizes, places + [pos])
  }

  function Unlocated(n: nat): (r: seq<int>)
    ensures |r| == n && forall h :: 0 <= h < n ==> r[h] == UNBOUND
  {
    seq(n, _ => UNBOUND)
  }

  function Performed(c: Cluster, op: Op): (r: Outcome)
    requires Sized(c) && op.p < |c.projections|
    ensures Sized(r.cluster) && |r.cluster.nodes| == |c.nodes| && |r.cluster.projections| == |c.projections|
  {
    var p, part := op.p, c.projections[op.p];
    var sizes := SizesOf(part.blocks);
    match op
    case Bind(_) =>
      if Located(part) then Reached(c)
      else
        var places := Greedy(c.nodes, sizes, []);
        var nodes := Taken(c.nodes, sizes, places, |places|);
        if |places| < |sizes| then Stopped(Cluster(nodes, c.projections))
        else Reached(Cluster(nodes, c.projections[p := part.(at := places)]))
    case Unbind(_) =>
      Reached(Cluster(Returned(c.nodes, sizes, part.at, |part.at|), c.projections[p := part.(at := Unlocated(|part.at|))]))
  }

  predicate InCluster(c: Cluster, ops: seq<Op>) { forall i :: 0 <= i < |ops| ==> ops[i].p < |c.projections| }

  /** The first i operations in turn, up to a bind that fails. */
  function RunTo(c: Cluster, ops: seq<Op>, i: nat): (r: Outcome)
    requires Sized(c) && InCluster(c, ops) && i <= |ops|
    ensures Sized(r.cluster) && |r.cluster.nodes| == |c.nodes| && |r.cluster.projections| == |c.projections|
  {
    if i == 0 then Reached(c)
    else
      var r := RunTo(c, ops, i - 1);
      if r.Stopped? then r else Performed(r.cluster, ops[i - 1])
  }

  predicate SameCapacities(a: seq<Budget>, b: seq<Budget>) {
    |a| == |b| && forall k :: 0 <= k < |a| ==> a[k].capacity == b[k].capacity
  }

  predicate SameBlocks(ps: seq<Projection>, qs: seq<Projection>) {
    |ps| == |qs| && forall i :: 0 <= i < |ps| ==> ps[i].blocks == qs[i].blocks
  }

  lemma PerformedKeeps(c: Cluster, op: Op)
    requires ClusterOk(c.nodes, c.projections) && Sized(c) && op.p < |c.projections|
    ensures var r := Performed(c, op);
            && SameCapacities(c.nodes, r.cluster.nodes) && SameBlocks(c.projections, r.cluster.projections)
            && (r.Reached? ==> ClusterOk(r.cluster.nodes, r.cluster.projections))
  {
    hide FirstFit, RoundRobin, Stuck, Greedy;
    var part := c.projections[op.p];
    var sizes, r := SizesOf(part.blocks), Performed(c, op);
    assert Whole(part, |c.nodes|);
    NothingPlaced(c.nodes, sizes);
    if op.Unbind? {
      UnboundOk(c.nodes, c.projections, op.p, Unlocated(|part.at|));
      forall k | 0 <= k < |c.nodes| ensures r.cluster.nodes[k].capacity == c.nodes[k].capacity {
        ReturnedLoad(c.nodes, sizes, part.at, |part.at|, k);
      }
    } else if !Located(part) {
      var places := Greedy(c.nodes, sizes, []);
      RoundRobinInside(c.nodes, sizes, places);
      if |places| == |sizes| {
        BoundOk(c.nodes, c.projections, op.p, places);
      }
      forall k | 0 <= k < |c.nodes| ensures r.cluster.nodes[k].capacity == c.nodes[k].capacity {
        TakenLoad(c.nodes, sizes, places, |places|, k);
      }
    }
  }

  /** Over every run of binds and unbinds, up to a bind that fails, each node's used
      budget is the size of what is located on it and within its unchanged capacity,
      and every projection is wholly bound or wholly unbound. */
  lemma {:induction false} EveryRunBalanced(c: Cluster, ops: seq<Op>, i: nat)
    requires ClusterOk(c.nodes, c.projections) && Sized(c) && InCluster(c, ops) && i <= |ops|
    ensures var r := RunTo(c, ops, i);
            && SameCapacities(c.nodes, r.cluster.nodes) && SameBlocks(c.projections, r.cluster.projections)
            && (r.Reached? ==> ClusterOk(r.cluster.nodes, r.cluster.projections))
  {
    hide ClusterOk, Sized, Performed;
    if i > 0 {
      EveryRunBalanced(c, ops, i - 1);
      var r := RunTo(c, ops, i - 1);
      if r.Reached? {
        PerformedKeeps(r.cluster, ops[i - 1]);
      }
    }
  }

  /** A run stops exactly when some operation binds an unbound projection of which some
      partition, given the takes before it, fits on no node. */
  lemma {:induction false} StopsWhenStuck(c: Cluster, ops: seq<Op>, i: nat)
    requires Sized(c) && InCluster(c, ops) && i <= |ops|
    ensures RunTo(c, ops, i).Stopped? <==> exists h :: 0 <= h < i && Sticks(c, ops, h)
  {
    hide Sized, InCluster, Performed, Sticks;
    if i > 0 {
      var h := i - 1;
      StopsWhenStuck(c, ops, h);
      if RunTo(c, ops, h).Reached? {
        SticksIs(c, ops, h);
      }
    }
  }

  /** Operation h is reached and is a bind that gets stuck. */
  ghost predicate Sticks(c: Cluster, ops: seq<Op>, h: nat)
    requires Sized(c) && InCluster(c, ops) && h < |ops|
  {
    var r := RunTo(c, ops, h);
    && r.Reached? && ops[h].Bind? && !Located(r.cluster.projections[ops[h].p])
    && exists places :: Stuck(r.cluster.nodes, SizesOf(r.cluster.projections[ops[h].p].blocks), places)
  }

  lemma SticksIs(c: Cluster, ops: seq<Op>, h: nat)
    requires Sized(c) && InCluster(c, ops) && h < |ops| && RunTo(c, ops, h).Reached?
    ensures Performed(RunTo(c, ops, h).cluster, ops[h]).Stopped? <==> Sticks(c, ops, h)
  {
    hide RunTo, FirstFit, RoundRobin, Stuck;
    var d := RunTo(c, ops, h).cluster;
    var part := d.projections[ops[h].p];
    var sizes := SizesOf(part.blocks);
    NothingPlaced(d.nodes, sizes);
    var places := Greedy(d.nodes, sizes, []);
    if |places| == |sizes| {
      forall b ensures !Stuck(d.nodes, sizes, b) {
        NotBoth(d.nodes, sizes, places, b);
      }
    } else {
      StuckShort(d.nodes, sizes, places);
    }
  }

  lemma NothingPlaced(nodes: seq<Budget>, sizes: seq<nat>)
    requires nodes != []
    ensures RoundRobin(nodes, sizes, [])
  {
  }

  class Master {
    var nodes: seq<Budget>
    var projections: seq<Projection>

    ghost predicate Valid()
      reads this
    {
      ClusterOk(nodes, projections)
    }

    constructor (capacities: seq<nat>, blocks: seq<seq<nat>>)
      requires capacities != []
      ensures Valid() && |nodes| == |capacities| && |projections| == |blocks|
    {
      nodes := seq(|capacities|, i requires 0 <= i < |capacities| => Budget(capacities[i], 0));
      projections := seq(|blocks|, i requires 0 <= i < |blocks| => Projection(blocks[i], seq(|blocks[i]|, _ => UNBOUND)));
      new;
      forall k | 0 <= k < |nodes| ensures Balanced(nodes[k], projections, k) {
        NothingHeld(projections, |projections|, k);
      }
    }

    method ApplyBudget(target: nat, size: nat) returns (ok: bool)
      requires target < |nodes|
      modifies `nodes
      ensures ok == Fits(old(nodes)[target], size)
      ensures nodes == if ok then Take(old(nodes), target, size) else old(nodes)
    {
      ok := nodes[target].capacity >= nodes[target].used + size;
      if ok {
        nodes := Take(nodes, target, size);
      }
    }

    /** Nodes that are not known are ignored. */
    method ReturnBudget(target: int, size: nat) returns (ok: bool)
      modifies `nodes
      ensures ok == (0 <= target < |old(nodes)|)
      ensures nodes == if ok then Take(old(nodes), target, 0 - size) else old(nodes)
    {
      ok := 0 <= target < |nodes|;
      if ok {
        nodes := Take(nodes, target, 0 - size);
      }
    }

    /** Asks the nodes in turn, each at most once. */
    method FindNode(start: nat, size: nat) returns (ok: bool, pos: nat, ghost attempts: nat)
      requires start < |nodes|
      modifies `nodes
      ensures attempts <= |old(nodes)|
      ensures ok <==> exists k :: 0 <= k < |old(nodes)| && Fits(old(nodes)[k], size)
      ensures ok ==> pos == FirstFit(old(nodes), start, size, |old(nodes)|) && nodes == Take(old(nodes), pos, size)
      ensures !ok ==> nodes == old(nodes)
    {
      FirstFitFinds(nodes, start, size);
      ghost var goal := FirstFit(nodes, start, size, |nodes|);
      pos, ok, attempts := start, false, 0;
      var failures := 0;
      while !ok
        invariant 0 <= failures < |old(nodes)| && pos < |old(nodes)|
        invariant attempts == if ok then failures + 1 else failures
        invariant !ok ==> nodes == old(nodes) && FirstFit(nodes, pos, size, |nodes| - failures) == goal
        invariant ok ==> goal == pos && nodes == Take(old(nodes), pos, size)
        decreases |old(nodes)| - failures, !ok
      {
        ok := ApplyBudget(pos, size);
        attempts := attempts + 1;
        if !ok {
          AfterIsModulo(pos, |nodes|);
          pos := (pos + 1) % |nodes|;
          failures := failures + 1;
          if failures >= |nodes| {
            return;
          }
        }
      }
    }

    /** Places the partitions by round robin, or stops at one that fits nowhere. */
    method PlaceAll(sizes: seq<nat>) returns (ok: bool, places: seq<int>)
      requires nodes != []
      modifies `nodes
      ensures RoundRobin(old(nodes), sizes, places) && nodes == Taken(old(nodes), sizes, places, |places|)
      ensures ok <==> |places| == |sizes|
      ensures !ok ==> Stuck(old(nodes), sizes, places)
      ensures places == Greedy(old(nodes), sizes, [])
      ensures !ok ==> |places| < |sizes| && forall k :: 0 <= k < |nodes| ==> nodes[k].used + sizes[|places|] > nodes[k].capacity
      ensures GoesRound(old(nodes), sizes, places)
      ensures RoomForAll(old(nodes), sizes) ==> ok && InTurn(places, |old(nodes)|)
    {
      hide FirstFit, GoesRound, RoomForAll, InTurn;
      ghost var was := nodes;
      ghost var goal := Greedy(was, sizes, []);
      places := [];
      var allocateCur := 0;
      while |places| < |sizes|
        invariant RoundRobin(was, sizes, places) && nodes == Taken(was, sizes, places, |places|)
        invariant Greedy(was, sizes, places) == goal
        invariant allocateCur == Cursor(places, |places|, |was|)
        decreases |sizes| - |places|
      {
        var found, target, attempts := FindNode(allocateCur, sizes[|places|]);
        if !found {
          RoundLaws(was, sizes, places);
          return false, places;
        }
        RoundRobinMore(was, sizes, places, places + [target]);
        TakenLast(was, sizes, places, places + [target], |places|);
        places := places + [target];
        AfterIsModulo(target, |nodes|);
        allocateCur := (target + 1) % |nodes|;
      }
      RoundLaws(was, sizes, places);
      return true, places;
    }

    ghost function Now(): Cluster
      reads this
    {
      Cluster(nodes, projections)
    }

    /** Binds every partition where round robin puts it, or stops, with the budgets taken
        so far, at a partition that fits on no node.  A bound projection is left alone. */
    method BindEntireProjection(p: nat) returns (ok: bool, ghost places: seq<int>)
      requires Valid() && p < |projections|
      modifies this
      ensures Sized(old(Now())) && Performed(old(Now()), Bind(p)) == if ok then Reached(Now()) else Stopped(Now())
      ensures ok ==> Valid()
      ensures Located(old(projections)[p]) ==> ok && Now() == old(Now())
      ensures !Located(old(projections)[p]) ==>
                && RoundRobin(old(nodes), SizesOf(old(projections)[p].blocks), places)
                && nodes == Taken(old(nodes), SizesOf(old(projections)[p].blocks), places, |places|)
                && GoesRound(old(nodes), SizesOf(old(projections)[p].blocks), places)
                && (RoomForAll(old(nodes), SizesOf(old(projections)[p].blocks)) ==> ok && InTurn(places, |old(nodes)|))
                && (ok ==> projections == old(projections)[p := old(projections)[p].(at := places)])
                && (!ok ==> |places| < |projections[p].blocks| && forall k :: 0 <= k < |nodes| ==>
                      nodes[k].used + SizeInMb(projections[p].blocks[|places|]) > nodes[k].capacity)
                && (!ok ==> projections == old(projections) && Stuck(old(nodes), SizesOf(old(projections)[p].blocks), places))
    {
      hide FirstFit, RoundRobin, Stuck, Greedy, Balanced, GoesRound, RoomForAll, InTurn;
      places := [];
      ghost var c := Now();
      ValidSized(nodes, projections);
      PerformedKeeps(c, Bind(p));
      var part := projections[p];
      assert Whole(part, |nodes|);
      var bound := AllBound(part);
      if bound {
        return true, [];
      }
      var sizes := SizesOf(part.blocks);
      var list;
      ok, list := PlaceAll(sizes);
      places := list;
      if !ok {
        StuckShort(c.nodes, sizes, list);
        return;
      }
      RoundRobinInside(c.nodes, sizes, list);
      var at := part.at;
      for i := 0 to |list|
        invariant |at| == |list| && projections == c.projections && nodes == Taken(c.nodes, sizes, list, |list|)
        invariant forall h :: 0 <= h < i ==> at[h] == list[h]
        invariant forall h :: i <= h < |at| ==> at[h] == UNBOUND
      {
        if at[i] == UNBOUND {
          at := at[i := list[i]];
        }
      }
      assert at == list;
      projections := projections[p := part.(at := at)];
    }

    /** Returns every partition's budget to the node it is located on, and forgets the
        locations. */
    method UnbindEntireProjection(p: nat)
      requires Valid() && p < |projections|
      modifies this
      ensures Valid() && Sized(old(Now())) && Performed(old(Now()), Unbind(p)) == Reached(Now())
      ensures nodes == Returned(old(nodes), SizesOf(old(projections)[p].blocks), old(projections)[p].at, |old(projections)[p].at|)
      ensures projections == old(projections)[p := old(projections)[p].(at := Unlocated(|old(projections)[p].at|))]
    {
      ghost var c := Now();
      ValidSized(nodes, projections);
      PerformedKeeps(c, Unbind(p));
      hide ClusterOk, Balanced, SameCapacities, SameBlocks;
      var part := projections[p];
      var sizes, at := SizesOf(part.blocks), part.at;
      for i := 0 to |part.at|
        invariant projections == c.projections && |at| == |part.at|
        invariant nodes == Returned(c.nodes, sizes, part.at, i)
        invariant forall h :: 0 <= h < i ==> at[h] == UNBOUND
        invariant forall h :: i <= h < |at| ==> at[h] == part.at[h]
      {
        var ok := ReturnBudget(part.at[i], sizes[i]);
        at := at[i := UNBOUND];
      }
      assert at == Unlocated(|part.at|);
      projections := projections[p := part.(at := at)];
    }

    /** Any run of binds and unbinds: the cluster is that of performing them in turn,
        up to the first bind that fails. */
    method RunOps(ops: seq<Op>) returns (done: bool)
      requires Valid() && InCluster(Now(), ops)
      modifies this
      ensures Sized(old(Now())) && RunTo(old(Now()), ops, |ops|) == if done then Reached(Now()) else Stopped(Now())
      ensures done <==> !exists h :: 0 <= h < |ops| && Sticks(old(Now()), ops, h)
      ensures SameCapacities(old(nodes), nodes) && SameBlocks(old(projections), projections)
      ensures done ==> Valid()
    {
      ghost var c := Now();
      ValidSized(nodes, projections);
      StopsWhenStuck(c, ops, |ops|);
      EveryRunBalanced(c, ops, |ops|);
      done := RunAll(ops);
    }

    method RunAll(ops: seq<Op>) returns (done: bool)
      requires Valid() && Sized(Now()) && InCluster(Now(), ops)
      modifies this
      ensures RunTo(old(Now()), ops, |ops|) == if done then Reached(Now()) else Stopped(Now())
    {
      hide ClusterOk, Performed, RunTo;
      ghost var c := Now();
      RunNone(c, ops);
      for i := 0 to |ops|
        invariant Valid() && RunTo(c, ops, i) == Reached(Now())
      {
        RunNext(c, ops, i);
        var ok := Perform(ops[i]);
        if !ok {
          StoppedStays(c, ops, i + 1, |ops|);
          return false;
        }
      }
      return true;
    }

    method Perform(op: Op) returns (ok: bool)
      requires Valid() && Sized(Now()) && op.p < |projections|
      modifies this
      ensures Performed(old(Now()), op) == if ok then Reached(Now()) else Stopped(Now())
      ensures ok ==> Valid()
    {
      hide ClusterOk, Performed;
      ok := true;
      if op.Bind? {
        assert op == Bind(op.p);
        ghost var places;
        ok, places := BindEntireProjection(op.p);
      } else {
        assert op == Unbind(op.p);
        UnbindEntireProjection(op.p);
      }
    }
  }

  lemma RoundLaws(nodes: seq<Budget>, sizes: seq<nat>, places: seq<int>)
    requires RoundRobin(nodes, sizes, places) && (|places| == |sizes| || Stuck(nodes, sizes, places))
    ensures GoesRound(nodes, sizes, places)
    ensures RoomForAll(nodes, sizes) ==> |places| == |sizes| && InTurn(places, |nodes|)
  {
    RoundRobinGoesRound(nodes, sizes, places);
    if RoomForAll(nodes, sizes) {
      RoomPlacesAll(nodes, sizes, places);
    }
  }

  lemma RunNone(c: Cluster, ops: seq<Op>)
    requires Sized(c) && InCluster(c, ops)
    ensures RunTo(c, ops, 0) == Reached(c)
  {
  }

  lemma RunNext(c: Cluster, ops: seq<Op>, i: nat)
    requires Sized(c) && InCluster(c, ops) && i < |ops| && RunTo(c, ops, i).Reached?
    ensures RunTo(c, ops, i + 1) == Performed(RunTo(c, ops, i).cluster, ops[i])
  {
  }

  lemma ValidSized(nodes: seq<Budget>, ps: seq<Projection>)
    requires ClusterOk(nodes, ps)
    ensures Sized(Cluster(nodes, ps))
  {
    forall i | 0 <= i < |ps| ensures |ps[i].at| == |ps[i].blocks| {
      assert Whole(ps[i], |nodes|);
    }
  }

  lemma {:induction false} StoppedStays(c: Cluster, ops: seq<Op>, i: nat, j: nat)
    requires Sized(c) && InCluster(c, ops) && i <= j <= |ops| && RunTo(c, ops, i).Stopped?
    ensures RunTo(c, ops, j) == RunTo(c, ops, i)
    decreases j
  {
    hide Sized, InCluster, Performed;
    if i < j {
      StoppedStays(c, ops, i, j - 1);
    }
  }

  lemma StuckShort(nodes: seq<Budget>, sizes: seq<nat>, places: seq<int>)
    requires Stuck(nodes, sizes, places)
    ensures |places| < |sizes|
  {
  }

  lemma RoundRobinInside(nodes: seq<Budget>, sizes: seq<nat>, places: seq<int>)
    requires RoundRobin(nodes, sizes, places)
    ensures InNodes(places, |nodes|)
  {
  }

  method AllBound(p: Projection) returns (r: bool)
    ensures r <==> forall h :: 0 <= h < |p.at| ==> p.at[h] >= 0
  {
    for i := 0 to |p.at|
      invariant forall h :: 0 <= h < i ==> p.at[h] >= 0
    {
      if p.at[i] < 0 {
        return false;
      }
    }
    return true;
  }

  /** A bound projection unbound again: the budgets are as before the bind. */
  lemma BindUnbind(nodes: seq<Budget>, sizes: seq<nat>, places: seq<int>)
    requires |places| == |sizes| && RoundRobin(nodes, sizes, places)
    ensures Returned(Taken(nodes, sizes, places, |sizes|), sizes, places, |sizes|) == nodes
  {
    var t := Taken(nodes, sizes, places, |sizes|);
    var r := Returned(t, sizes, places, |sizes|);
    forall k | 0 <= k < |nodes| ensures r[k] == nodes[k] {
      TakenLoad(nodes, sizes, places, |sizes|, k);
      ReturnedLoad(t, sizes, places, |sizes|, k);
    }
  }
}
