/** When can two threads hold one core?  Exactly when two can meet inside a socket of
    two cores or more. */
module CpuRace {
  import opened CpuCores

  /** Two threads never hold the same core. */
  predicate Exclusive(s: State) {
    forall t, u :: 0 <= t < u < |s.threads| && s.threads[t].Holding? ==> s.threads[t] != s.threads[u]
  }

  // ----- test and clearing as one step -----

  predicate HeldOnce(s: State, i: nat, j: nat)
    requires Shaped(s) && i < |s.sems| && j < |s.available[i]|
  {
    Count(HoldsCore(i, j), s.threads) <= if s.available[i][j] then 0 else 1
  }

  ghost predicate OneHolder(s: State) {
    && Shaped(s) && (forall t :: 0 <= t < |s.threads| ==> !s.threads[t].Seen?)
    && forall i, j :: 0 <= i < |s.sems| && 0 <= j < |s.available[i]| ==> HeldOnce(s, i, j)
  }

  lemma OneHolderKept(s: State, t: nat)
    requires OneHolder(s) && t < |s.threads|
    ensures OneHolder(Step(s, t, true))
  {
    var u := Step(s, t, true);
    forall i, j | 0 <= i < |u.sems| && 0 <= j < |u.available[i]| ensures HeldOnce(u, i, j) {
      hide CountTo;
      MovedCount(s, t, true, HoldsCore(i, j));
      assert HeldOnce(s, i, j);
      if s.threads[t] == Holding(i, j) {
        CountSome(HoldsCore(i, j), s.threads, |s.threads|, t);
      }
    }
  }

  lemma {:induction false} AtomicRun(s: State, schedule: seq<nat>)
    requires OneHolder(s)
    ensures OneHolder(Run(s, schedule, true))
    decreases |schedule|
  {
    if schedule != [] {
      if schedule[0] < |s.threads| {
        OneHolderKept(s, schedule[0]);
      }
      AtomicRun(Turn(s, schedule[0], true), schedule[1..]);
    }
  }

  /** With test and clearing in one step no core is ever held twice. */
  lemma AtomicExclusive(sizes: seq<nat>, n: nat, schedule: seq<nat>)
    ensures Exclusive(Run(Start(sizes, n), schedule, true))
  {
    var s := Start(sizes, n);
    forall i, j | 0 <= i < |s.sems| && 0 <= j < |s.available[i]| ensures HeldOnce(s, i, j) {
      AllIdle(s.threads, HoldsCore(i, j));
    }
    AtomicRun(s, schedule);
    var r := Run(s, schedule, true);
    forall t, u | 0 <= t < u < |r.threads| && r.threads[t].Holding? ensures r.threads[t] != r.threads[u] {
      var p := r.threads[t];
      if p == r.threads[u] {
        assert HeldOnce(r, p.i, p.j);
        CountTwo(HoldsCore(p.i, p.j), r.threads, |r.threads|, t, u);
      }
    }
  }

  // ----- how many threads can be at a socket -----

  /** The thread is inside socket i. */
  predicate At(p: Phase, i: nat) {
    (p.InSocket? || p.Seen? || p.Holding? || p.Released?) && p.i == i
  }

  /** The thread is inside socket i or a later one, or scans there. */
  predicate Past(p: Phase, i: nat) {
    (p.Scanning? || p.InSocket? || p.Seen? || p.Holding? || p.Released?) && p.i >= i
  }

  function AtTo(ts: seq<Phase>, i: nat, n: nat): nat
    requires n <= |ts|
  {
    if n == 0 then 0 else AtTo(ts, i, n - 1) + Bit(At(ts[n - 1], i))
  }

  function PastTo(ts: seq<Phase>, i: nat, n: nat): nat
    requires n <= |ts|
  {
    if n == 0 then 0 else PastTo(ts, i, n - 1) + Bit(Past(ts[n - 1], i))
  }

  lemma {:induction false} AtMoved(ts: seq<Phase>, i: nat, n: nat, t: nat, p: Phase)
    requires n <= |ts| && t < |ts|
    ensures AtTo(ts[t := p], i, n) == AtTo(ts, i, n) + if t < n then Bit(At(p, i)) - Bit(At(ts[t], i)) else 0
  {
    if n > 0 {
      AtMoved(ts, i, n - 1, t, p);
    }
  }

  lemma {:induction false} PastMoved(ts: seq<Phase>, i: nat, n: nat, t: nat, p: Phase)
    requires n <= |ts| && t < |ts|
    ensures PastTo(ts[t := p], i, n) == PastTo(ts, i, n) + if t < n then Bit(Past(p, i)) - Bit(Past(ts[t], i)) else 0
  {
    if n > 0 {
      PastMoved(ts, i, n - 1, t, p);
    }
  }

  /** Those past i and those at i are past i, and so is a thread that scans there. */
  lemma {:induction false} PastSplit(ts: seq<Phase>, i: nat, n: nat, t: nat)
    requires n <= |ts| && t < |ts| && ts[t] == Scanning(i)
    ensures PastTo(ts, i, n) >= PastTo(ts, i + 1, n) + AtTo(ts, i, n) + if t < n then 1 else 0
  {
    if n > 0 {
      PastSplit(ts, i, n - 1, t);
    }
  }

  lemma {:induction false} PastAll(ts: seq<Phase>, i: nat, n: nat)
    requires n <= |ts|
    ensures PastTo(ts, i, n) <= n && AtTo(ts, i, n) <= PastTo(ts, i, n)
  {
    if n > 0 {
      PastAll(ts, i, n - 1);
    }
  }

  lemma {:induction false} AtTwo(ts: seq<Phase>, i: nat, n: nat, t: nat, u: nat)
    requires t < u < n <= |ts| && At(ts[t], i) && At(ts[u], i)
    ensures AtTo(ts, i, n) >= 2
  {
    if u < n - 1 {
      AtTwo(ts, i, n - 1, t, u);
    } else {
      AtSome(ts, i, u, t);
    }
  }

  lemma {:induction false} AtSome(ts: seq<Phase>, i: nat, n: nat, t: nat)
    requires t < n <= |ts| && At(ts[t], i)
    ensures AtTo(ts, i, n) >= 1
  {
    if t < n - 1 {
      AtSome(ts, i, n - 1, t);
    }
  }

  function SumTo(xs: seq<nat>, i: nat): nat
    requires i <= |xs|
  {
    if i == 0 then 0 else SumTo(xs, i - 1) + xs[i - 1]
  }

  /** A socket's tokens and the threads inside it make up its size. */
  predicate TokensAt(s: State, i: nat)
    requires Shaped(s) && i < |s.sems|
  {
    s.sems[i] + AtTo(s.threads, i, |s.threads|) == |s.available[i]|
  }

  /** Only the threads that the sockets before i cannot hold come to socket i. */
  predicate Overflow(s: State, sizes: seq<nat>, i: nat)
    requires i <= |sizes|
  {
    var past := PastTo(s.threads, i, |s.threads|);
    past == 0 || past + SumTo(sizes, i) <= |s.threads|
  }

  ghost predicate Crowding(s: State, sizes: seq<nat>) {
    && Shaped(s) && |sizes| == |s.sems|
    && (forall i :: 0 <= i < |sizes| ==> |s.available[i]| == sizes[i] && TokensAt(s, i))
    && (forall i :: 0 <= i <= |sizes| ==> Overflow(s, sizes, i))
  }

  lemma TokensAtKept(s: State, t: nat, atomic: bool, i: nat)
    requires Shaped(s) && t < |s.threads| && i < |s.sems| && TokensAt(s, i)
    requires s.threads[t].Scanning? ==> s.threads[t].i < |s.sems|
    requires s.threads[t].InSocket? ==> s.threads[t].j < |s.available[s.threads[t].i]|
    ensures TokensAt(Step(s, t, atomic), i)
  {
    hide AtTo;
    var u := Step(s, t, atomic);
    assert u.threads == s.threads[t := u.threads[t]];
    AtMoved(s.threads, i, |s.threads|, t, u.threads[t]);
  }

  lemma OverflowKept(s: State, sizes: seq<nat>, t: nat, atomic: bool, i: nat)
    requires Crowding(s, sizes) && t < |s.threads| && i <= |sizes|
    ensures Overflow(Step(s, t, atomic), sizes, i)
  {
    hide AtTo, PastTo;
    var u, n := Step(s, t, atomic), |s.threads|;
    assert u.threads == s.threads[t := u.threads[t]];
    PastMoved(s.threads, i, n, t, u.threads[t]);
    PastAll(u.threads, i, n);
    assert Overflow(s, sizes, i);
    var p := s.threads[t];
    if p.Scanning? && i == p.i + 1 && p.i < |s.sems| && s.sems[p.i] == 0 {
      PastSplit(s.threads, p.i, n, t);
      assert Overflow(s, sizes, p.i) && TokensAt(s, p.i);
    }
  }

  lemma CrowdingKept(s: State, sizes: seq<nat>, t: nat, atomic: bool)
    requires Inv(s) && Crowding(s, sizes) && t < |s.threads|
    ensures Crowding(Step(s, t, atomic), sizes)
  {
    NeverPastTheLast(s, t);
    hide AtTo, PastTo, TokensAt, Overflow;
    var u := Step(s, t, atomic);
    forall i | 0 <= i < |sizes| ensures TokensAt(u, i) {
      TokensAtKept(s, t, atomic, i);
    }
    forall i | 0 <= i <= |sizes| ensures Overflow(u, sizes, i) {
      OverflowKept(s, sizes, t, atomic, i);
    }
  }

  lemma {:induction false} CrowdingRun(s: State, sizes: seq<nat>, schedule: seq<nat>, atomic: bool)
    requires Inv(s) && Crowding(s, sizes)
    ensures Crowding(Run(s, schedule, atomic), sizes)
    decreases |schedule|
  {
    if schedule != [] {
      hide TokensAt, Overflow, GlobalTokens, SocketsCover, SocketTokens, CoresCover, ClearedHeld, Step;
      if schedule[0] < |s.threads| {
        CrowdingKept(s, sizes, schedule[0], atomic);
        StepKeeps(s, schedule[0], atomic);
      }
      CrowdingRun(Turn(s, schedule[0], atomic), sizes, schedule[1..], atomic);
    }
  }

  lemma {:induction false} IdleNowhere(ts: seq<Phase>, i: nat, n: nat)
    requires n <= |ts| && forall t :: 0 <= t < |ts| ==> ts[t] == Idle
    ensures AtTo(ts, i, n) == 0 && PastTo(ts, i, n) == 0
  {
    if n > 0 {
      IdleNowhere(ts, i, n - 1);
    }
  }

  lemma StartCrowding(sizes: seq<nat>, n: nat)
    ensures Crowding(Start(sizes, n), sizes)
  {
    var s := Start(sizes, n);
    forall i ensures AtTo(s.threads, i, n) == 0 && PastTo(s.threads, i, n) == 0 {
      IdleNowhere(s.threads, i, n);
    }
  }

  // ----- the condition -----

  /** No two threads can be inside a socket of two cores or more: it is too small, or
      the sockets before it hold all threads but one. */
  predicate NoMeeting(sizes: seq<nat>, n: nat) {
    forall i :: 0 <= i < |sizes| ==> Apart(sizes, n, i)
  }

  predicate Apart(sizes: seq<nat>, n: nat, i: nat)
    requires i < |sizes|
  {
    sizes[i] <= 1 || n <= 1 + SumTo(sizes, i)
  }

  lemma NoMeetingExclusive(s: State, sizes: seq<nat>)
    requires Crowding(s, sizes) && NoMeeting(sizes, |s.threads|)
    ensures Exclusive(s)
  {
    forall t, u | 0 <= t < u < |s.threads| && s.threads[t].Holding? ensures s.threads[t] != s.threads[u] {
      var p, n := s.threads[t], |s.threads|;
      assert TokensAt(s, p.i) && Overflow(s, sizes, p.i) && Apart(sizes, n, p.i);
      PastAll(s.threads, p.i, n);
      if p == s.threads[u] {
        AtTwo(s.threads, p.i, n, t, u);
      }
    }
  }

  // ----- the race -----

  lemma {:induction false} RunSplit(s: State, a: seq<nat>, b: seq<nat>, atomic: bool)
    requires Shaped(s)
    ensures Run(s, a + b, atomic) == Run(Run(s, a, atomic), b, atomic)
    decreases |a|
  {
    hide Shaped, Step;
    if a == [] {
      assert a + b == b;
    } else {
      assert (a + b)[1..] == a[1..] + b && (a + b)[0] == a[0];
      RunSplit(Turn(s, a[0], atomic), a[1..], b, atomic);
    }
  }

  lemma RunFirst(s: State, t: nat, rest: seq<nat>, atomic: bool)
    requires Shaped(s) && t < |s.threads|
    ensures Run(s, [t] + rest, atomic) == Run(Step(s, t, atomic), rest, atomic)
  {
    assert ([t] + rest)[1..] == rest;
  }

  lemma MovedAgain(s: State, t: nat, p: Phase, q: Phase)
    requires t < |s.threads|
    ensures Moved(Moved(s, t, p), t, q) == Moved(s, t, q)
  {
    assert s.threads[t := p][t := q] == s.threads[t := q];
  }

  /** A scanning thread alone passes the sockets without a token. */
  lemma {:induction false} ScanPast(s: State, t: nat, a: nat, k: nat) returns (schedule: seq<nat>)
    requires Shaped(s) && t < |s.threads| && s.threads[t] == Scanning(a) && a <= k < |s.sems|
    requires forall x :: a <= x < k ==> s.sems[x] == 0
    ensures Run(s, schedule, false) == Moved(s, t, Scanning(k))
    decreases k - a
  {
    if a == k {
      schedule := [];
      assert s.threads[t := Scanning(k)] == s.threads;
    } else {
      var u := Step(s, t, false);
      var rest := ScanPast(u, t, a + 1, k);
      schedule := [t] + rest;
      RunFirst(s, t, rest, false);
      MovedAgain(s, t, Scanning(a + 1), Scanning(k));
    }
  }

  function Entered(s: State, t: nat, k: nat): State
    requires t < |s.threads| && k < |s.sems| && s.sems[k] > 0 && s.global > 0
  {
    Moved(s.(global := s.global - 1, sems := s.sems[k := s.sems[k] - 1]), t, InSocket(k, 0))
  }

  /** An idle thread alone enters the first socket with a token. */
  lemma EnterAt(s: State, t: nat, k: nat) returns (schedule: seq<nat>)
    requires Shaped(s) && t < |s.threads| && s.threads[t] == Idle && s.global > 0
    requires k < |s.sems| && s.sems[k] > 0 && forall x :: 0 <= x < k ==> s.sems[x] == 0
    ensures Run(s, schedule, false) == Entered(s, t, k)
  {
    var u := Step(s, t, false);
    var scan := ScanPast(u, t, 0, k);
    var v := Moved(u, t, Scanning(k));
    RunFirst(s, t, scan, false);
    RunSplit(s, [t] + scan, [t], false);
    RunFirst(v, t, [], false);
    assert [t] + [] == [t];
    schedule := [t] + scan + [t];
    assert Step(v, t, false).threads == Entered(s, t, k).threads;
  }

  /** A thread alone in a socket takes the first free core. */
  lemma {:induction false} TakeFrom(s: State, t: nat, i: nat, a: nat, j: nat) returns (schedule: seq<nat>)
    requires Shaped(s) && t < |s.threads| && i < |s.available| && s.threads[t] == InSocket(i, a)
    requires a <= j < |s.available[i]| && s.available[i][j] && forall x :: a <= x < j ==> !s.available[i][x]
    ensures Run(s, schedule, false) == Moved(Flagged(s, i, j, false), t, Holding(i, j))
    decreases j - a
  {
    var u := Step(s, t, false);
    if a == j {
      RunFirst(s, t, [t], false);
      RunFirst(u, t, [], false);
      assert [t] + [] == [t];
      schedule := [t] + [t];
      assert Step(u, t, false).threads == s.threads[t := Holding(i, j)];
    } else {
      var rest := TakeFrom(u, t, i, a + 1, j);
      schedule := [t] + rest;
      RunFirst(s, t, rest, false);
      assert u.threads[t := Holding(i, j)] == s.threads[t := Holding(i, j)];
    }
  }

  lemma {:induction false} FirstPositive(xs: seq<nat>, i: nat) returns (k: nat)
    requires i <= |xs| && SumTo(xs, i) > 0
    ensures k < i && xs[k] > 0 && forall x :: 0 <= x < k ==> xs[x] == 0
  {
    if SumTo(xs, i - 1) > 0 {
      k := FirstPositive(xs, i - 1);
    } else {
      AllZero(xs, i - 1);
      k := i - 1;
    }
  }

  lemma {:induction false} AllZero(xs: seq<nat>, i: nat)
    requires i <= |xs| && SumTo(xs, i) == 0
    ensures forall x :: 0 <= x < i ==> xs[x] == 0
  {
    if i > 0 {
      AllZero(xs, i - 1);
    }
  }

  lemma {:induction false} SumToSet(xs: seq<nat>, i: nat, k: nat, x: nat)
    requires i <= |xs| && k < |xs|
    ensures SumTo(xs[k := x], i) == SumTo(xs, i) + if k < i then x - xs[k] else 0
  {
    if i > 0 {
      SumToSet(xs, i - 1, k, x);
    }
  }

  lemma {:induction false} SumAtLeast(xs: seq<nat>, i: nat, k: nat)
    requires i <= k < |xs|
    ensures SumFrom(xs, i) >= xs[k]
    decreases |xs| - i
  {
    if i < k {
      SumAtLeast(xs, i + 1, k);
    }
  }

  lemma {:induction false} FirstFree(row: seq<bool>, a: nat) returns (j: nat)
    requires a <= |row| && FreeFrom(row, a) > 0
    ensures a <= j < |row| && row[j] && forall x :: a <= x < j ==> !row[x]
    decreases |row| - a
  {
    if row[a] {
      j := a;
    } else {
      j := FirstFree(row, a + 1);
    }
  }

  /** The first m threads hold cores of the sockets before i, the others are idle, and
      socket i is untouched. */
  ghost predicate Filling(s: State, sizes: seq<nat>, i: nat, m: nat) {
    && Inv(s) && |s.sems| == |sizes| && i < |sizes| && m <= |s.threads|
    && (forall t :: 0 <= t < m ==> s.threads[t].Holding?)
    && (forall t :: m <= t < |s.threads| ==> s.threads[t] == Idle)
    && s.sems[i] == sizes[i] == |s.available[i]| && (forall j :: 0 <= j < sizes[i] ==> s.available[i][j])
    && SumTo(s.sems, i) + m == SumTo(sizes, i)
  }

  /** Then every token of a socket is also a global one. */
  lemma FillingGlobal(s: State, sizes: seq<nat>, i: nat, m: nat)
    requires Filling(s, sizes, i, m)
    ensures s.global == SumFrom(s.sems, 0)
  {
    CountNone(ScanFrom(0), s.threads, |s.threads|);
    CountNone(PostedAny, s.threads, |s.threads|);
  }

  lemma FillOne(s: State, sizes: seq<nat>, i: nat, m: nat) returns (schedule: seq<nat>)
    requires Filling(s, sizes, i, m) && m < |s.threads| && m < SumTo(sizes, i)
    ensures Filling(Run(s, schedule, false), sizes, i, m + 1)
  {
    FillingGlobal(s, sizes, i, m);
    var k := FirstPositive(s.sems, i);
    SumAtLeast(s.sems, 0, k);
    var enter := EnterAt(s, m, k);
    var u := Entered(s, m, k);
    RunKeeps(s, enter, false);
    assert CoresCover(u, k, 0);
    CountSome(InFrom(k, 0), u.threads, |u.threads|, m);
    var j := FirstFree(u.available[k], 0);
    var take := TakeFrom(u, m, k, 0, j);
    schedule := enter + take;
    RunSplit(s, enter, take, false);
    RunKeeps(u, take, false);
    SumToSet(s.sems, i, k, s.sems[k] - 1);
  }

  lemma {:induction false} FillAll(s: State, sizes: seq<nat>, i: nat, m: nat) returns (schedule: seq<nat>)
    requires Filling(s, sizes, i, m) && SumTo(sizes, i) <= |s.threads|
    ensures Filling(Run(s, schedule, false), sizes, i, SumTo(sizes, i))
    decreases SumTo(sizes, i) - m
  {
    hide Filling;
    assert m <= SumTo(sizes, i) by { FillingWithin(s, sizes, i, m); }
    if m == SumTo(sizes, i) {
      schedule := [];
    } else {
      FillingShaped(s, sizes, i, m);
      var one := FillOne(s, sizes, i, m);
      var rest := FillAll(Run(s, one, false), sizes, i, m + 1);
      schedule := one + rest;
      RunSplit(s, one, rest, false);
    }
  }

  lemma FillingWithin(s: State, sizes: seq<nat>, i: nat, m: nat)
    requires Filling(s, sizes, i, m)
    ensures i < |sizes| && m <= SumTo(sizes, i)
  {
  }

  lemma FillingShaped(s: State, sizes: seq<nat>, i: nat, m: nat)
    requires Filling(s, sizes, i, m)
    ensures Shaped(s)
  {
  }

  lemma StartFilling(sizes: seq<nat>, n: nat, i: nat)
    requires i < |sizes|
    ensures Filling(Start(sizes, n), sizes, i, 0)
  {
    StartInv(sizes, n);
  }

  /** A thread alone enters socket i and sees core 0 free. */
  lemma SeeFirst(s: State, t: nat, i: nat) returns (schedule: seq<nat>)
    requires Shaped(s) && t < |s.threads| && s.threads[t] == Idle && s.global > 0
    requires i < |s.sems| && s.sems[i] > 0 && forall x :: 0 <= x < i ==> s.sems[x] == 0
    requires |s.available[i]| > 0 && s.available[i][0]
    ensures Run(s, schedule, false) == Moved(Entered(s, t, i), t, Seen(i, 0))
  {
    var enter := EnterAt(s, t, i);
    var u := Entered(s, t, i);
    RunSplit(s, enter, [t], false);
    RunFirst(u, t, [], false);
    assert [t] + [] == [t];
    schedule := enter + [t];
  }

  /** Two threads that have both seen core 0 of socket i both take it. */
  lemma BothTake(s: State, t: nat, u: nat, i: nat)
    requires Shaped(s) && t < |s.threads| && u < |s.threads| && t != u
    requires s.threads[t] == Seen(i, 0) && s.threads[u] == Seen(i, 0)
    ensures var r := Run(s, [t, u], false); r.threads[t] == Holding(i, 0) && r.threads[u] == Holding(i, 0)
  {
    var v := Step(s, t, false);
    assert [t, u] == [t] + [u] && [u] == [u] + [];
    RunFirst(s, t, [u], false);
    RunFirst(v, u, [], false);
  }

  /** With the sockets before i full and two threads left, both can take core 0. */
  lemma RaceAt(s: State, sizes: seq<nat>, i: nat, m: nat) returns (schedule: seq<nat>)
    requires Filling(s, sizes, i, m) && m == SumTo(sizes, i) && m + 2 <= |s.threads| && sizes[i] >= 2
    ensures !Exclusive(Run(s, schedule, false))
  {
    FillingGlobal(s, sizes, i, m);
    SumAtLeast(s.sems, 0, i);
    AllZero(s.sems, i);
    var first := SeeFirst(s, m, i);
    var u := Moved(Entered(s, m, i), m, Seen(i, 0));
    var second := SeeFirst(u, m + 1, i);
    var v := Moved(Entered(u, m + 1, i), m + 1, Seen(i, 0));
    assert v == Run(u, second, false);
    BothTake(v, m, m + 1, i);
    schedule := first + (second + [m, m + 1]);
    RunSplit(s, first, second + [m, m + 1], false);
    RunSplit(u, second, [m, m + 1], false);
    var r := Run(s, schedule, false);
    assert r.threads[m] == Holding(i, 0) && r.threads[m + 1] == Holding(i, 0);
  }

  lemma Meeting(sizes: seq<nat>, n: nat, i: nat) returns (schedule: seq<nat>)
    requires i < |sizes| && !Apart(sizes, n, i)
    ensures !Exclusive(Run(Start(sizes, n), schedule, false))
  {
    hide Filling, Run, Start, Exclusive;
    var s := Start(sizes, n);
    StartFilling(sizes, n, i);
    var fill := FillAll(s, sizes, i, 0);
    var u := Run(s, fill, false);
    var race := RaceAt(u, sizes, i, SumTo(sizes, i));
    schedule := fill + race;
    RunSplit(s, fill, race, false);
  }

  ghost predicate AlwaysExclusive(sizes: seq<nat>, n: nat, atomic: bool) {
    forall schedule: seq<nat> :: Exclusive(Run(Start(sizes, n), schedule, atomic))
  }

  /** For these sockets and this many threads, no core is ever held twice if and only if
      no two threads can meet inside a socket of two cores or more, or a flag's test and
      its clearing are one step. */
  lemma ExclusiveExactly(sizes: seq<nat>, n: nat, atomic: bool)
    ensures AlwaysExclusive(sizes, n, atomic) <==> atomic || NoMeeting(sizes, n)
  {
    hide Run, Start, Step, Exclusive, Apart;
    if atomic {
      forall schedule: seq<nat> ensures Exclusive(Run(Start(sizes, n), schedule, atomic)) {
        AtomicExclusive(sizes, n, schedule);
      }
    } else if NoMeeting(sizes, n) {
      forall schedule: seq<nat> ensures Exclusive(Run(Start(sizes, n), schedule, atomic)) {
        StartInv(sizes, n);
        StartCrowding(sizes, n);
        CrowdingRun(Start(sizes, n), sizes, schedule, atomic);
        NoMeetingExclusive(Run(Start(sizes, n), schedule, atomic), sizes);
      }
    } else {
      var i :| 0 <= i < |sizes| && !Apart(sizes, n, i);
      var schedule := Meeting(sizes, n, i);
    }
  }

  lemma FirstSees()
    ensures Run(Start([2], 2), [0, 0, 0], false) == State(1, [1], [[true, true]], [Seen(0, 0), Idle])
  {
    var s := Start([2], 2);
    assert SumFrom([2], 1) == 0;
    assert s.available[0] == [true, true];
    assert s.available == [[true, true]] && s.threads == [Idle, Idle] && s.global == 2;
    var s1 := Step(s, 0, false);
    var s2 := Step(s1, 0, false);
    assert [0, 0, 0] == [0] + [0, 0] && [0, 0] == [0] + [0] && [0] == [0] + [];
    RunFirst(s, 0, [0, 0], false);
    RunFirst(s1, 0, [0], false);
    RunFirst(s2, 0, [], false);
  }

  lemma SecondSees()
    ensures Run(State(1, [1], [[true, true]], [Seen(0, 0), Idle]), [1, 1, 1], false) ==
            State(0, [0], [[true, true]], [Seen(0, 0), Seen(0, 0)])
  {
    var s := State(1, [1], [[true, true]], [Seen(0, 0), Idle]);
    var s1 := Step(s, 1, false);
    var s2 := Step(s1, 1, false);
    assert [1, 1, 1] == [1] + [1, 1] && [1, 1] == [1] + [1] && [1] == [1] + [];
    RunFirst(s, 1, [1, 1], false);
    RunFirst(s1, 1, [1], false);
    RunFirst(s2, 1, [], false);
  }

  /** The smallest case: one socket with two cores, two threads, and the schedule in
      which both test core 0 before either clears its flag. */
  lemma RaceHoldsTwice()
    ensures !NoMeeting([2], 2)
    ensures !Exclusive(Run(Start([2], 2), [0, 0, 0, 1, 1, 1, 0, 1], false))
  {
    hide Run, Start, Step;
    assert !Apart([2], 2, 0);
    var s := Start([2], 2);
    FirstSees();
    SecondSees();
    BothTake(State(0, [0], [[true, true]], [Seen(0, 0), Seen(0, 0)]), 0, 1, 0);
    RunSplit(s, [0, 0, 0], [1, 1, 1, 0, 1], false);
    RunSplit(Run(s, [0, 0, 0], false), [1, 1, 1], [0, 1], false);
    assert [0, 0, 0] + [1, 1, 1, 0, 1] == [0, 0, 0, 1, 1, 1, 0, 1];
    assert [1, 1, 1] + [0, 1] == [1, 1, 1, 0, 1];
    var r := Run(s, [0, 0, 0, 1, 1, 1, 0, 1], false);
    assert r.threads[0] == Holding(0, 0) && r.threads[1] == Holding(0, 0);
  }
}
