/** CPUResourceManager: threads that take and return cores through one global
    semaphore and one semaphore for each socket, in any interleaving. */
module CpuCores {

  /** Where a thread is.  A scanning thread has taken a global token; a thread in a
      socket has also taken one of the socket's tokens and is about to look at core j. */
  datatype Phase =
    | Idle
    | Scanning(i: nat)
    | InSocket(i: nat, j: nat)
    | Seen(i: nat, j: nat)
    | Holding(i: nat, j: nat)
    | Released(i: nat, j: nat)
    | Posted
    | Failed

  /** available[i][j] is the flag of core j on socket i. */
  datatype State = State(global: nat, sems: seq<nat>, available: seq<seq<bool>>, threads: seq<Phase>)

  predicate Shaped(s: State) {
    |s.sems| == |s.available| && forall t :: 0 <= t < |s.threads| ==> InRange(s, s.threads[t])
  }

  predicate InRange(s: State, p: Phase) {
    match p
    case Scanning(i) => i <= |s.available|
    case InSocket(i, j) => i < |s.available| && j <= |s.available[i]|
    case Seen(i, j) => i < |s.available| && j < |s.available[i]|
    case Holding(i, j) => i < |s.available| && j < |s.available[i]|
    case Released(i, j) => i < |s.available| && j < |s.available[i]|
    case _ => true
  }

  function Flagged(s: State, i: nat, j: nat, b: bool): State
    requires i < |s.available| && j < |s.available[i]|
  {
    s.(available := s.available[i := s.available[i][j := b]])
  }

  function Moved(s: State, t: nat, p: Phase): State
    requires t < |s.threads|
  {
    s.(threads := s.threads[t := p])
  }

  /** One step of thread t.  With atomic, looking at a core's flag and clearing it is
      one step; otherwise another thread can come in between. */
  function Step(s: State, t: nat, atomic: bool): (r: State)
    requires Shaped(s) && t < |s.threads|
    ensures Shaped(r) && |r.threads| == |s.threads| && |r.sems| == |s.sems|
    ensures forall i :: 0 <= i < |s.available| ==> |r.available[i]| == |s.available[i]|
  {
    match s.threads[t]
    case Idle => if s.global > 0 then Moved(s.(global := s.global - 1), t, Scanning(0)) else s
    case Scanning(i) =>
      if i == |s.sems| then Moved(s, t, Failed)
      else if s.sems[i] > 0 then Moved(s.(sems := s.sems[i := s.sems[i] - 1]), t, InSocket(i, 0))
      else Moved(s, t, Scanning(i + 1))
    case InSocket(i, j) =>
      if j == |s.available[i]| then Moved(s, t, Failed)
      else if !s.available[i][j] then Moved(s, t, InSocket(i, j + 1))
      else if atomic then Moved(Flagged(s, i, j, false), t, Holding(i, j))
      else Moved(s, t, Seen(i, j))
    case Seen(i, j) => Moved(Flagged(s, i, j, false), t, Holding(i, j))
    case Holding(i, j) => Moved(Flagged(s, i, j, true), t, Released(i, j))
    case Released(i, j) => Moved(s.(sems := s.sems[i := s.sems[i] + 1]), t, Posted)
    case Posted => Moved(s.(global := s.global + 1), t, Idle)
    case Failed => s
  }

  // ----- counting -----

  /** Which threads to count; the From queries take all cores from j on. */
  datatype Query =
    | ScanFrom(i: nat)
    | InFrom(i: nat, j: nat)
    | SeenFrom(i: nat, j: nat)
    | SeenCore(i: nat, j: nat)
    | HoldsFrom(i: nat, j: nat)
    | HoldsCore(i: nat, j: nat)
    | ReleasedIn(i: nat)
    | PostedAny
    | FailedAny

  predicate Matches(q: Query, p: Phase) {
    match q
    case ScanFrom(i) => p.Scanning? && p.i >= i
    case InFrom(i, j) => p.InSocket? && p.i == i && p.j >= j
    case SeenFrom(i, j) => p.Seen? && p.i == i && p.j >= j
    case SeenCore(i, j) => p == Seen(i, j)
    case HoldsFrom(i, j) => p.Holding? && p.i == i && p.j >= j
    case HoldsCore(i, j) => p == Holding(i, j)
    case ReleasedIn(i) => p.Released? && p.i == i
    case PostedAny => p.Posted?
    case FailedAny => p.Failed?
  }

  function One(q: Query, p: Phase): nat { if Matches(q, p) then 1 else 0 }

  function CountTo(q: Query, ts: seq<Phase>, n: nat): nat
    requires n <= |ts|
  {
    if n == 0 then 0 else CountTo(q, ts, n - 1) + One(q, ts[n - 1])
  }

  function Count(q: Query, ts: seq<Phase>): nat { CountTo(q, ts, |ts|) }

  lemma {:induction false} CountMoved(q: Query, ts: seq<Phase>, n: nat, t: nat, p: Phase)
    requires n <= |ts| && t < |ts|
    ensures CountTo(q, ts[t := p], n) == CountTo(q, ts, n) + if t < n then One(q, p) - One(q, ts[t]) else 0
  {
    if n > 0 {
      CountMoved(q, ts, n - 1, t, p);
    }
  }

  lemma {:induction false} CountSome(q: Query, ts: seq<Phase>, n: nat, t: nat)
    requires t < n <= |ts| && Matches(q, ts[t])
    ensures CountTo(q, ts, n) >= 1
  {
    if t < n - 1 {
      CountSome(q, ts, n - 1, t);
    }
  }

  lemma {:induction false} CountTwo(q: Query, ts: seq<Phase>, n: nat, t: nat, u: nat)
    requires t < u < n <= |ts| && Matches(q, ts[t]) && Matches(q, ts[u])
    ensures CountTo(q, ts, n) >= 2
  {
    if u < n - 1 {
      CountTwo(q, ts, n - 1, t, u);
    } else {
      CountSome(q, ts, u, t);
    }
  }

  lemma {:induction false} CountNone(q: Query, ts: seq<Phase>, n: nat)
    requires n <= |ts| && forall t :: 0 <= t < |ts| ==> !Matches(q, ts[t])
    ensures CountTo(q, ts, n) == 0
  {
    if n > 0 {
      CountNone(q, ts, n - 1);
    }
  }

  /** A query that splits into two is the sum of both. */
  lemma {:induction false} CountSplit(q: Query, a: Query, b: Query, ts: seq<Phase>, n: nat)
    requires n <= |ts| && forall t :: 0 <= t < |ts| ==> One(q, ts[t]) == One(a, ts[t]) + One(b, ts[t])
    ensures CountTo(q, ts, n) == CountTo(a, ts, n) + CountTo(b, ts, n)
  {
    if n > 0 {
      CountSplit(q, a, b, ts, n - 1);
    }
  }

  /** A wider query counts at least one more for a thread that only it matches. */
  lemma {:induction false} CountWider(q: Query, r: Query, ts: seq<Phase>, n: nat, t: nat)
    requires n <= |ts| && t < |ts| && Matches(r, ts[t]) && !Matches(q, ts[t])
    requires forall k :: 0 <= k < |ts| ==> Matches(q, ts[k]) ==> Matches(r, ts[k])
    ensures CountTo(r, ts, n) >= CountTo(q, ts, n) + if t < n then 1 else 0
  {
    if n > 0 {
      CountWider(q, r, ts, n - 1, t);
    }
  }

  function SumFrom(xs: seq<nat>, i: nat): nat
    requires i <= |xs|
    decreases |xs| - i
  {
    if i == |xs| then 0 else xs[i] + SumFrom(xs, i + 1)
  }

  lemma {:induction false} SumSet(xs: seq<nat>, i: nat, k: nat, x: nat)
    requires i <= |xs| && k < |xs|
    ensures SumFrom(xs[k := x], i) == SumFrom(xs, i) + if i <= k then x - xs[k] else 0
    decreases |xs| - i
  {
    if i < |xs| {
      SumSet(xs, i + 1, k, x);
    }
  }

  function Bit(b: bool): nat { if b then 1 else 0 }

  function FreeFrom(row: seq<bool>, j: nat): nat
    requires j <= |row|
    decreases |row| - j
  {
    if j == |row| then 0 else Bit(row[j]) + FreeFrom(row, j + 1)
  }

  lemma {:induction false} FreeSet(row: seq<bool>, j: nat, k: nat, b: bool)
    requires j <= |row| && k < |row|
    ensures FreeFrom(row[k := b], j) == FreeFrom(row, j) + if j <= k then Bit(b) - Bit(row[k]) else 0
    decreases |row| - j
  {
    if j < |row| {
      FreeSet(row, j + 1, k, b);
    }
  }

  // ----- what every step keeps -----

  /** The socket semaphores have a token for each global token and for each thread
      that has taken, or not yet given back, a global token only. */
  predicate GlobalTokens(s: State)
    requires Shaped(s)
  {
    SumFrom(s.sems, 0) == s.global + Count(ScanFrom(0), s.threads) + Count(PostedAny, s.threads)
  }

  /** The tokens from socket i on cover the threads still to try them. */
  predicate SocketsCover(s: State, i: nat)
    requires Shaped(s) && i <= |s.sems|
  {
    SumFrom(s.sems, i) >= Count(ScanFrom(i), s.threads)
  }

  /** A socket has a token for each core that no thread there stands for. */
  predicate SocketTokens(s: State, i: nat)
    requires Shaped(s) && i < |s.sems|
  {
    s.sems[i] + Count(InFrom(i, 0), s.threads) + Count(SeenFrom(i, 0), s.threads) + Count(HoldsFrom(i, 0), s.threads) +
    Count(ReleasedIn(i), s.threads) == |s.available[i]|
  }

  /** A core whose flag is cleared is held by some thread. */
  predicate ClearedHeld(s: State, i: nat, j: nat)
    requires Shaped(s) && i < |s.sems| && j < |s.available[i]|
  {
    s.available[i][j] || Count(HoldsCore(i, j), s.threads) > 0
  }

  /** The core's flag is set and some thread has seen it so. */
  predicate Wanted(s: State, i: nat, j: nat)
    requires Shaped(s) && i < |s.sems| && j < |s.available[i]|
  {
    s.available[i][j] && Count(SeenCore(i, j), s.threads) > 0
  }

  function WantedFrom(s: State, i: nat, j: nat): nat
    requires Shaped(s) && i < |s.sems| && j <= |s.available[i]|
    decreases |s.available[i]| - j
  {
    if j == |s.available[i]| then 0 else Bit(Wanted(s, i, j)) + WantedFrom(s, i, j + 1)
  }

  /** The free cores from j on cover the threads still to look at them, beside the
      cores that are about to be taken. */
  predicate CoresCover(s: State, i: nat, j: nat)
    requires Shaped(s) && i < |s.sems| && j <= |s.available[i]|
  {
    FreeFrom(s.available[i], j) >= Count(InFrom(i, j), s.threads) + WantedFrom(s, i, j)
  }

  ghost predicate Inv(s: State) {
    && Shaped(s)
    && GlobalTokens(s)
    && (forall i :: 0 <= i <= |s.sems| ==> SocketsCover(s, i))
    && (forall i :: 0 <= i < |s.sems| ==> SocketTokens(s, i))
    && (forall i, j :: 0 <= i < |s.sems| && 0 <= j <= |s.available[i]| ==> CoresCover(s, i, j))
    && (forall i, j :: 0 <= i < |s.sems| && 0 <= j < |s.available[i]| ==> ClearedHeld(s, i, j))
    && Count(FailedAny, s.threads) == 0
  }

  lemma MovedCount(s: State, t: nat, atomic: bool, q: Query)
    requires Shaped(s) && t < |s.threads|
    ensures var u := Step(s, t, atomic);
            |u.threads| == |s.threads| && u.threads == s.threads[t := u.threads[t]] &&
            Count(q, u.threads) == Count(q, s.threads) + One(q, u.threads[t]) - One(q, s.threads[t])
  {
    var u := Step(s, t, atomic);
    assert u.threads == s.threads[t := u.threads[t]];
    CountMoved(q, s.threads, |s.threads|, t, u.threads[t]);
  }

  /** A thread that still scans has a socket left to try, and one inside a socket has
      a core left to look at: neither assertion can fail. */
  lemma NeverPastTheLast(s: State, t: nat)
    requires Inv(s) && t < |s.threads|
    ensures s.threads[t].Scanning? ==> s.threads[t].i < |s.sems|
    ensures s.threads[t].InSocket? ==> s.threads[t].j < |s.available[s.threads[t].i]|
    ensures !s.threads[t].Failed?
  {
    var p := s.threads[t];
    if p.Scanning? && p.i == |s.sems| {
      assert SocketsCover(s, p.i);
      CountSome(ScanFrom(p.i), s.threads, |s.threads|, t);
    } else if p.InSocket? && p.j == |s.available[p.i]| {
      assert CoresCover(s, p.i, p.j);
      CountSome(InFrom(p.i, p.j), s.threads, |s.threads|, t);
    } else if p.Failed? {
      CountSome(FailedAny, s.threads, |s.threads|, t);
    }
  }

  lemma FailedKept(s: State, t: nat, atomic: bool)
    requires Inv(s) && t < |s.threads|
    ensures Count(FailedAny, Step(s, t, atomic).threads) == 0
  {
    hide CountTo, SumFrom, FreeFrom, WantedFrom;
    NeverPastTheLast(s, t);
    MovedCount(s, t, atomic, FailedAny);
  }

  lemma GlobalKept(s: State, t: nat, atomic: bool)
    requires Inv(s) && t < |s.threads|
    ensures GlobalTokens(Step(s, t, atomic))
  {
    hide CountTo, SumFrom, FreeFrom, WantedFrom;
    NeverPastTheLast(s, t);
    MovedCount(s, t, atomic, ScanFrom(0));
    MovedCount(s, t, atomic, PostedAny);
    var p := s.threads[t];
    if p.Scanning? {
      SumSet(s.sems, 0, p.i, if s.sems[p.i] > 0 then s.sems[p.i] - 1 else 0);
    } else if p.Released? {
      SumSet(s.sems, 0, p.i, s.sems[p.i] + 1);
    }
  }

  lemma SocketsKept(s: State, t: nat, atomic: bool, i: nat)
    requires Inv(s) && t < |s.threads| && i <= |s.sems|
    ensures SocketsCover(Step(s, t, atomic), i)
  {
    hide CountTo, FreeFrom, WantedFrom;
    NeverPastTheLast(s, t);
    MovedCount(s, t, atomic, ScanFrom(i));
    assert SocketsCover(s, i);
    var p := s.threads[t];
    if p.Scanning? {
      assert SocketsCover(s, p.i);
      if s.sems[p.i] > 0 {
        SumSet(s.sems, i, p.i, s.sems[p.i] - 1);
      } else if i == p.i + 1 {
        CountWider(ScanFrom(i), ScanFrom(p.i), s.threads, |s.threads|, t);
      }
    } else if p.Released? {
      SumSet(s.sems, i, p.i, s.sems[p.i] + 1);
    }
  }

  lemma SocketKept(s: State, t: nat, atomic: bool, i: nat)
    requires Inv(s) && t < |s.threads| && i < |s.sems|
    ensures SocketTokens(Step(s, t, atomic), i)
  {
    hide CountTo, SumFrom, FreeFrom, WantedFrom;
    NeverPastTheLast(s, t);
    MovedCount(s, t, atomic, InFrom(i, 0));
    MovedCount(s, t, atomic, SeenFrom(i, 0));
    MovedCount(s, t, atomic, HoldsFrom(i, 0));
    MovedCount(s, t, atomic, ReleasedIn(i));
    assert SocketTokens(s, i);
  }

  lemma ClearedKept(s: State, t: nat, atomic: bool, i: nat, j: nat)
    requires Inv(s) && t < |s.threads| && i < |s.sems| && j < |s.available[i]|
    ensures ClearedHeld(Step(s, t, atomic), i, j)
  {
    hide CountTo, SumFrom, FreeFrom, WantedFrom;
    NeverPastTheLast(s, t);
    MovedCount(s, t, atomic, HoldsCore(i, j));
    assert ClearedHeld(s, i, j);
  }

  // ----- free cores -----

  /** The core whose flag or watchers the thread's step can change. */
  function CoreOf(p: Phase): nat {
    match p
    case InSocket(_, j) => j
    case Seen(_, j) => j
    case Holding(_, j) => j
    case _ => 0
  }

  lemma FreeStep(s: State, t: nat, atomic: bool, i: nat, j: nat, b: nat)
    requires Inv(s) && t < |s.threads| && i < |s.sems| && j <= |s.available[i]| && b == CoreOf(s.threads[t])
    ensures var u := Step(s, t, atomic);
            FreeFrom(u.available[i], j) == FreeFrom(s.available[i], j) +
              if j <= b < |s.available[i]| then Bit(u.available[i][b]) - Bit(s.available[i][b]) else 0
  {
    hide CountTo, FreeFrom, SumFrom, WantedFrom;
    NeverPastTheLast(s, t);
    var p := s.threads[t];
    var u := Step(s, t, atomic);
    if b < |s.available[i]| {
      FreeSet(s.available[i], j, b, u.available[i][b]);
    }
    assert u.available[i] == if b < |s.available[i]| then s.available[i][b := u.available[i][b]] else s.available[i];
  }

  lemma {:induction false} WantedDiffers(s: State, u: State, i: nat, j: nat, b: nat)
    requires Shaped(s) && Shaped(u) && i < |s.sems| == |u.sems| && j <= |s.available[i]| == |u.available[i]|
    requires forall k :: 0 <= k < |s.available[i]| && k != b ==> Wanted(u, i, k) == Wanted(s, i, k)
    ensures WantedFrom(u, i, j) == WantedFrom(s, i, j) +
              if j <= b < |s.available[i]| then Bit(Wanted(u, i, b)) - Bit(Wanted(s, i, b)) else 0
    decreases |s.available[i]| - j
  {
    hide Wanted;
    if j < |s.available[i]| {
      WantedDiffers(s, u, i, j + 1, b);
    }
  }

  lemma WantedStep(s: State, t: nat, atomic: bool, i: nat, j: nat, b: nat)
    requires Inv(s) && t < |s.threads| && i < |s.sems| && j <= |s.available[i]| && b == CoreOf(s.threads[t])
    ensures var u := Step(s, t, atomic);
            WantedFrom(u, i, j) == WantedFrom(s, i, j) +
              if j <= b < |s.available[i]| then Bit(Wanted(u, i, b)) - Bit(Wanted(s, i, b)) else 0
  {
    hide CountTo, FreeFrom, SumFrom, WantedFrom;
    NeverPastTheLast(s, t);
    var u := Step(s, t, atomic);
    forall k | 0 <= k < |s.available[i]| && k != b ensures Wanted(u, i, k) == Wanted(s, i, k) {
      MovedCount(s, t, atomic, SeenCore(i, k));
    }
    WantedDiffers(s, u, i, j, b);
  }

  /** What a step does to the core it is about: the flag pays for the watcher. */
  lemma CoreStep(s: State, t: nat, atomic: bool, i: nat, b: nat)
    requires Inv(s) && t < |s.threads| && i < |s.sems| && b < |s.available[i]| && b == CoreOf(s.threads[t])
    ensures var u, p := Step(s, t, atomic), s.threads[t];
            Bit(u.available[i][b]) - Bit(s.available[i][b]) >=
              Bit(Wanted(u, i, b)) - Bit(Wanted(s, i, b)) - if p.InSocket? && p.i == i && !u.threads[t].InSocket? then 1 else 0
  {
    hide CountTo, FreeFrom, SumFrom, WantedFrom;
    NeverPastTheLast(s, t);
    MovedCount(s, t, atomic, SeenCore(i, b));
    var p := s.threads[t];
    if p == Seen(i, b) {
      CountSome(SeenCore(i, b), s.threads, |s.threads|, t);
    }
  }

  lemma {:induction false} ClearedBound(s: State, i: nat, j: nat)
    requires Inv(s) && i < |s.sems| && j <= |s.available[i]|
    ensures |s.available[i]| - j - FreeFrom(s.available[i], j) <= Count(HoldsFrom(i, j), s.threads)
    decreases |s.available[i]| - j
  {
    if j < |s.available[i]| {
      ClearedBound(s, i, j + 1);
      CountSplit(HoldsFrom(i, j), HoldsCore(i, j), HoldsFrom(i, j + 1), s.threads, |s.threads|);
      assert ClearedHeld(s, i, j);
    }
  }

  lemma {:induction false} WantedBound(s: State, i: nat, j: nat)
    requires Inv(s) && i < |s.sems| && j <= |s.available[i]|
    ensures WantedFrom(s, i, j) <= Count(SeenFrom(i, j), s.threads)
    decreases |s.available[i]| - j
  {
    if j < |s.available[i]| {
      WantedBound(s, i, j + 1);
      CountSplit(SeenFrom(i, j), SeenCore(i, j), SeenFrom(i, j + 1), s.threads, |s.threads|);
    }
  }

  /** A token of the socket is a free core that nobody has seen. */
  lemma TokenIsCore(s: State, i: nat)
    requires Inv(s) && i < |s.sems|
    ensures FreeFrom(s.available[i], 0) >= s.sems[i] + Count(InFrom(i, 0), s.threads) + WantedFrom(s, i, 0)
  {
    hide CountTo, FreeFrom, SumFrom, WantedFrom;
    ClearedBound(s, i, 0);
    WantedBound(s, i, 0);
    assert SocketTokens(s, i);
  }

  lemma CoresKept(s: State, t: nat, atomic: bool, i: nat, j: nat)
    requires Inv(s) && t < |s.threads| && i < |s.sems| && j <= |s.available[i]|
    ensures CoresCover(Step(s, t, atomic), i, j)
  {
    hide CountTo, SumFrom, Wanted;
    NeverPastTheLast(s, t);
    var p := s.threads[t];
    var b := CoreOf(p);
    MovedCount(s, t, atomic, InFrom(i, j));
    FreeStep(s, t, atomic, i, j, b);
    WantedStep(s, t, atomic, i, j, b);
    if b < |s.available[i]| {
      CoreStep(s, t, atomic, i, b);
    }
    assert CoresCover(s, i, j);
    TokenIsCore(s, i);
    if p.InSocket? && p.i == i && j == p.j + 1 && !s.available[i][p.j] {
      NextCover(s, t, i, j);
    }
  }

  /** Behind a cleared flag there is still room for the thread that moves on. */
  lemma NextCover(s: State, t: nat, i: nat, j: nat)
    requires Inv(s) && t < |s.threads| && i < |s.sems| && 0 < j <= |s.available[i]|
    requires s.threads[t] == InSocket(i, j - 1) && !s.available[i][j - 1]
    ensures FreeFrom(s.available[i], j) >= Count(InFrom(i, j), s.threads) + WantedFrom(s, i, j) + 1
  {
    hide CountTo, SumFrom;
    var h := j - 1;
    assert CoresCover(s, i, h);
    CountWider(InFrom(i, j), InFrom(i, h), s.threads, |s.threads|, t);
  }

  lemma StepKeeps(s: State, t: nat, atomic: bool)
    requires Inv(s) && t < |s.threads|
    ensures Inv(Step(s, t, atomic))
  {
    hide CountTo, FreeFrom, SumFrom, WantedFrom, SocketsCover, SocketTokens, CoresCover, ClearedHeld, GlobalTokens;
    var u := Step(s, t, atomic);
    FailedKept(s, t, atomic);
    GlobalKept(s, t, atomic);
    forall i | 0 <= i <= |u.sems| ensures SocketsCover(u, i) {
      SocketsKept(s, t, atomic, i);
    }
    forall i | 0 <= i < |u.sems| ensures SocketTokens(u, i) {
      SocketKept(s, t, atomic, i);
    }
    forall i, j | 0 <= i < |u.sems| && 0 <= j <= |u.available[i]| ensures CoresCover(u, i, j) {
      CoresKept(s, t, atomic, i, j);
    }
    forall i, j | 0 <= i < |u.sems| && 0 <= j < |u.available[i]| ensures ClearedHeld(u, i, j) {
      ClearedKept(s, t, atomic, i, j);
    }
  }

  // ----- runs -----

  /** The state after the threads of a schedule have stepped in turn. */
  function Run(s: State, schedule: seq<nat>, atomic: bool): (r: State)
    requires Shaped(s)
    ensures Shaped(r) && |r.threads| == |s.threads| && |r.sems| == |s.sems|
    ensures forall i :: 0 <= i < |s.available| ==> |r.available[i]| == |s.available[i]|
    decreases |schedule|
  {
    if schedule == [] then s else Run(Turn(s, schedule[0], atomic), schedule[1..], atomic)
  }

  /** A step of the thread with this number, if there is one. */
  function Turn(s: State, t: nat, atomic: bool): (r: State)
    requires Shaped(s)
    ensures Shaped(r) && |r.threads| == |s.threads| && |r.sems| == |s.sems|
    ensures forall i :: 0 <= i < |s.available| ==> |r.available[i]| == |s.available[i]|
  {
    if t < |s.threads| then Step(s, t, atomic) else s
  }

  /** Every core free, every thread idle. */
  function Start(sizes: seq<nat>, n: nat): (r: State)
    ensures Shaped(r) && |r.threads| == n && r.sems == sizes
    ensures forall i :: 0 <= i < |sizes| ==> |r.available[i]| == sizes[i]
  {
    State(SumFrom(sizes, 0), sizes, seq(|sizes|, i requires 0 <= i < |sizes| => seq(sizes[i], _ => true)),
          seq(n, _ => Idle))
  }

  lemma {:induction false} AllFree(row: seq<bool>, j: nat)
    requires j <= |row| && forall k :: 0 <= k < |row| ==> row[k]
    ensures FreeFrom(row, j) == |row| - j
    decreases |row| - j
  {
    if j < |row| {
      AllFree(row, j + 1);
    }
  }

  lemma AllIdle(ts: seq<Phase>, q: Query)
    requires forall t :: 0 <= t < |ts| ==> ts[t] == Idle
    ensures Count(q, ts) == 0
  {
    CountNone(q, ts, |ts|);
  }

  lemma {:induction false} NoneWanted(s: State, i: nat, j: nat)
    requires Shaped(s) && i < |s.sems| && j <= |s.available[i]|
    requires forall t :: 0 <= t < |s.threads| ==> s.threads[t] == Idle
    ensures WantedFrom(s, i, j) == 0
    decreases |s.available[i]| - j
  {
    if j < |s.available[i]| {
      AllIdle(s.threads, SeenCore(i, j));
      NoneWanted(s, i, j + 1);
    }
  }

  lemma StartInv(sizes: seq<nat>, n: nat)
    ensures Inv(Start(sizes, n))
  {
    hide SumFrom, FreeFrom, CountTo, WantedFrom;
    var s := Start(sizes, n);
    forall q ensures Count(q, s.threads) == 0 {
      AllIdle(s.threads, q);
    }
    forall i, j | 0 <= i < |s.sems| && 0 <= j <= |s.available[i]| ensures CoresCover(s, i, j) {
      NoneWanted(s, i, j);
    }
  }

  lemma {:induction false} RunKeeps(s: State, schedule: seq<nat>, atomic: bool)
    requires Inv(s)
    ensures Inv(Run(s, schedule, atomic))
    decreases |schedule|
  {
    hide Step, GlobalTokens, SocketsCover, SocketTokens, CoresCover, ClearedHeld;
    if schedule != [] {
      if schedule[0] < |s.threads| {
        StepKeeps(s, schedule[0], atomic);
      }
      RunKeeps(Turn(s, schedule[0], atomic), schedule[1..], atomic);
    }
  }

  predicate NoneFailed(s: State) { forall t :: 0 <= t < |s.threads| ==> !s.threads[t].Failed? }

  /** In every interleaving of any number of threads over any sockets no assertion
      fails, also when other threads run between a flag's test and its clearing. */
  lemma EveryRunSafe(sizes: seq<nat>, n: nat, schedule: seq<nat>, atomic: bool)
    ensures Inv(Run(Start(sizes, n), schedule, atomic))
    ensures NoneFailed(Run(Start(sizes, n), schedule, atomic))
  {
    StartInv(sizes, n);
    RunKeeps(Start(sizes, n), schedule, atomic);
    var r := Run(Start(sizes, n), schedule, atomic);
    forall t | 0 <= t < |r.threads| ensures !r.threads[t].Failed? {
      NeverPastTheLast(r, t);
    }
  }

  /** Nothing is lost: once all threads are idle again, every token and every core is
      back, even after cores were held twice. */
  lemma EveryRunConserves(sizes: seq<nat>, n: nat, schedule: seq<nat>, atomic: bool)
    requires forall t :: 0 <= t < n ==> Run(Start(sizes, n), schedule, atomic).threads[t] == Idle
    ensures Run(Start(sizes, n), schedule, atomic) == Start(sizes, n)
  {
    var s, r := Start(sizes, n), Run(Start(sizes, n), schedule, atomic);
    EveryRunSafe(sizes, n, schedule, atomic);
    hide Run, CountTo, FreeFrom, WantedFrom, SumFrom;
    forall q ensures Count(q, r.threads) == 0 {
      AllIdle(r.threads, q);
    }
    forall i | 0 <= i < |sizes| ensures r.available[i] == s.available[i] && r.sems[i] == sizes[i] {
      forall j | 0 <= j < |r.available[i]| ensures r.available[i][j] {
        assert ClearedHeld(r, i, j);
      }
      assert SocketTokens(r, i);
    }
    assert r.sems == sizes && r.available == s.available && r.threads == s.threads;
  }

  // ----- a thread with a token gets a core -----

  /** A thread that has a global token and no core yet. */
  predicate Wants(p: Phase) { p.Scanning? || p.InSocket? || p.Seen? }

  predicate AtMost(s: State, m: nat) { forall i :: 0 <= i < |s.available| ==> |s.available[i]| <= m }

  /** How many steps of its own such a thread still needs at most, when no socket has
      more than m cores. */
  function Rank(s: State, t: nat, m: nat): int
    requires Shaped(s) && t < |s.threads|
  {
    match s.threads[t]
    case Scanning(i) => |s.sems| - i + m + 2
    case InSocket(i, j) => |s.available[i]| - j + 1
    case Seen(_, _) => 1
    case _ => 0
  }

  function Turns(schedule: seq<nat>, t: nat): nat {
    if schedule == [] then 0 else (if schedule[0] == t then 1 else 0) + Turns(schedule[1..], t)
  }

  /** At some point of the run, thread t holds a core. */
  predicate GetsCore(s: State, schedule: seq<nat>, t: nat, atomic: bool)
    requires Shaped(s) && t < |s.threads|
    decreases |schedule|
  {
    s.threads[t].Holding? || (schedule != [] && GetsCore(Turn(s, schedule[0], atomic), schedule[1..], t, atomic))
  }

  lemma OwnStep(s: State, t: nat, m: nat, atomic: bool)
    requires Inv(s) && t < |s.threads| && Wants(s.threads[t]) && AtMost(s, m)
    ensures var u := Step(s, t, atomic);
            u.threads[t].Holding? || (Wants(u.threads[t]) && Rank(u, t, m) < Rank(s, t, m))
  {
    NeverPastTheLast(s, t);
  }

  lemma OtherStep(s: State, v: nat, t: nat, m: nat, atomic: bool)
    requires Shaped(s) && t < |s.threads| && v != t && AtMost(s, m)
    ensures var u := Turn(s, v, atomic);
            u.threads[t] == s.threads[t] && Rank(u, t, m) == Rank(s, t, m) && AtMost(u, m)
  {
  }

  /** However the others are scheduled, a thread that has taken a global token holds a
      core after that many turns of its own. */
  lemma {:induction false} TokenGetsCore(s: State, schedule: seq<nat>, t: nat, m: nat, atomic: bool)
    requires Inv(s) && t < |s.threads| && Wants(s.threads[t]) && AtMost(s, m)
    requires Turns(schedule, t) >= Rank(s, t, m)
    ensures GetsCore(s, schedule, t, atomic)
    decreases |schedule|
  {
    NeverPastTheLast(s, t);
    assert Rank(s, t, m) > 0;
    hide Inv, Shaped, Matches, CountTo, SumFrom, FreeFrom, Rank, Step;
    if schedule != [] {
      var u := Turn(s, schedule[0], atomic);
      if schedule[0] < |s.threads| {
        StepKeeps(s, schedule[0], atomic);
      }
      if schedule[0] == t {
        OwnStep(s, t, m, atomic);
      } else {
        OtherStep(s, schedule[0], t, m, atomic);
      }
      if !u.threads[t].Holding? {
        TokenGetsCore(u, schedule[1..], t, m, atomic);
      }
    }
  }

  // ----- the socket object -----

  /** CPUResourceManager::socket, used by one thread at a time. */
  class Socket {
    var tokens: nat
    var ids: seq<int>
    var free: seq<bool>

    /** As many tokens as free cores. */
    ghost predicate Valid()
      reads this
    {
      |ids| == |free| && tokens == FreeFrom(free, 0)
    }

    constructor ()
      ensures Valid() && ids == []
    {
      tokens, ids, free := 0, [], [];
    }

    method AddCore(id: int)
      requires Valid()
      modifies this
      ensures Valid() && ids == old(ids) + [id] && free == old(free) + [true]
    {
      FreeMore(free, 0);
      ids, free := ids + [id], free + [true];
      tokens := tokens + 1;
    }

    /** Takes the first free core and gives its id, or -1 without a token.  The
        assertion fails exactly for a token without a free core, which a valid
        socket does not have. */
    method TryApplyCore() returns (id: int, failed: bool, ghost k: nat)
      requires |ids| == |free|
      modifies `tokens, `free
      ensures failed <==> old(tokens) > 0 && true !in old(free)
      ensures old(Valid()) ==> Valid() && !failed && (old(tokens) > 0 <==> true in old(free))
      ensures old(tokens) == 0 || failed ==> id == -1 && free == old(free)
      ensures old(tokens) > 0 && !failed ==>
                && |free| == |ids| == |old(free)| && k < |ids| && id == ids[k] && old(free)[k] && free == old(free)[k := false]
                && forall h :: 0 <= h < k ==> !old(free)[h]
    {
      SomeFree(free, 0);
      k := 0;
      if tokens == 0 {
        return -1, false, 0;
      }
      tokens := tokens - 1;
      var i := 0;
      while i < |free|
        invariant 0 <= i <= |free| && free == old(free) && tokens == old(tokens) - 1
        invariant forall h :: 0 <= h < i ==> !free[h]
      {
        if free[i] {
          FreeSet(free, 0, i, false);
          free := free[i := false];
          return ids[i], false, i;
        }
        i := i + 1;
      }
      return -1, true, 0;
    }

    /** Returns the first core with this id; the socket stays valid exactly when that
        core was taken.  Unknown ids change nothing. */
    method FreeCore(id: int) returns (found: bool, ghost k: nat)
      requires Valid()
      modifies `tokens, `free
      ensures found <==> id in ids
      ensures !found ==> free == old(free) && tokens == old(tokens)
      ensures found ==> k < |ids| && ids[k] == id && (forall h :: 0 <= h < k ==> ids[h] != id)
      ensures found ==> free == old(free)[k := true] && tokens == old(tokens) + 1
      ensures found ==> (Valid() <==> !old(free)[k])
    {
      k := 0;
      for i := 0 to |ids|
        invariant free == old(free) && tokens == old(tokens)
        invariant forall h :: 0 <= h < i ==> ids[h] != id
      {
        if ids[i] == id {
          FreeSet(free, 0, i, true);
          free := free[i := true];
          tokens := tokens + 1;
          return true, i;
        }
      }
      return false, 0;
    }
  }

  lemma {:induction false} FreeMore(row: seq<bool>, j: nat)
    requires j <= |row|
    ensures FreeFrom(row + [true], j) == FreeFrom(row, j) + 1
    decreases |row| - j
  {
    if j < |row| {
      FreeMore(row, j + 1);
    } else {
      assert FreeFrom(row + [true], j + 1) == 0;
    }
  }

  lemma {:induction false} SomeFree(row: seq<bool>, j: nat)
    requires j <= |row|
    ensures FreeFrom(row, j) > 0 <==> exists k :: j <= k < |row| && row[k]
    decreases |row| - j
  {
    if j < |row| {
      SomeFree(row, j + 1);
    }
  }
}
