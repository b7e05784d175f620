/** PerformanceInfo: blocks counted in the ten most recent time slices. */
module ThroughputWindow {

  const SLICES := 10
  const TIME_SLICE := 2_000_000
  const TWO_32 := 0x1_0000_0000

  function SliceOf(tick: nat): nat { tick / TIME_SLICE }

  predicate OnBoundary(tick: nat) { tick % TIME_SLICE == 0 }

  function Passed(start: nat, tick: nat): nat
    requires start <= tick
  {
    (tick - start) / TIME_SLICE
  }

  function SliceStart(tick: nat): nat { SliceOf(tick) * TIME_SLICE }

  /** Hits charged to a slice; slices before the first have none. */
  function Hits(charged: seq<nat>, slice: int): nat {
    if charged == [] then 0
    else Hits(charged[..|charged| - 1], slice) + if charged[|charged| - 1] == slice then 1 else 0
  }

  lemma HitsMore(charged: seq<nat>, x: nat, slice: int)
    ensures Hits(charged + [x], slice) == Hits(charged, slice) + if x == slice then 1 else 0
  {
    assert (charged + [x])[..|charged|] == charged;
  }

  lemma {:induction false} HitsAbove(charged: seq<nat>, cur: nat, slice: int)
    requires slice > cur && forall i :: 0 <= i < |charged| ==> charged[i] <= cur
    ensures Hits(charged, slice) == 0
  {
    if charged != [] {
      HitsAbove(charged[..|charged| - 1], cur, slice);
    }
  }

  /** What an unsigned count of 32 bits shows. */
  function Low32(n: nat): (r: nat)
    ensures r < TWO_32
  {
    n % TWO_32
  }

  /** The i-th count shows the hits of its slice; the last one is the current slice's. */
  predicate ShowsAt(slices: seq<nat>, charged: seq<nat>, cur: nat, i: nat)
    requires i < |slices|
  {
    slices[i] == Low32(Hits(charged, cur - (SLICES - 1 - i)))
  }

  ghost predicate Shows(slices: seq<nat>, charged: seq<nat>, cur: nat) {
    && |slices| == SLICES
    && (forall i :: 0 <= i < |charged| ==> charged[i] <= cur)
    && forall i :: 0 <= i < SLICES ==> ShowsAt(slices, charged, cur, i)
  }

  /** The counts after a shift by this many slices. */
  function Shifted(slices: seq<nat>, offset: nat): (r: seq<nat>)
    requires |slices| == SLICES
    ensures |r| == SLICES
  {
    seq(SLICES, i requires 0 <= i < SLICES => if i + offset < SLICES then slices[i + offset] else 0)
  }

  lemma ShiftedShows(slices: seq<nat>, charged: seq<nat>, cur: nat, gap: nat)
    requires Shows(slices, charged, cur)
    ensures Shows(Shifted(slices, gap), charged, cur + gap)
  {
    assert Low32(0) == 0;
    hide Low32, Hits;
    var r := Shifted(slices, gap);
    var now := cur + gap;
    forall i | 0 <= i < SLICES ensures ShowsAt(r, charged, now, i) {
      var j := i + gap;
      if j < SLICES {
        assert ShowsAt(slices, charged, cur, j);
      } else {
        HitsAbove(charged, cur, now - (SLICES - 1 - i));
      }
    }
  }

  /** Shifting by the gap as 32 bits see it shows the same counts for every window
      exactly when the gap is short, or does not look short in 32 bits. */
  predicate SeenRight(gap: nat) { gap < SLICES || Low32(gap) >= SLICES }

  lemma TruncationExact(gap: nat)
    ensures SeenRight(gap) <==>
            forall slices: seq<nat> :: |slices| == SLICES ==> Shifted(slices, Low32(gap)) == Shifted(slices, gap)
  {
    var o := Low32(gap);
    if SeenRight(gap) {
      forall slices: seq<nat> | |slices| == SLICES ensures Shifted(slices, o) == Shifted(slices, gap) {
        SeenSame(slices, gap);
      }
    } else {
      var ones: seq<nat> := seq(SLICES, _ => 1);
      assert Shifted(ones, o)[0] == 1 && Shifted(ones, gap)[0] == 0;
    }
  }

  lemma SeenSame(slices: seq<nat>, gap: nat)
    requires |slices| == SLICES && SeenRight(gap)
    ensures Shifted(slices, Low32(gap)) == Shifted(slices, gap)
  {
    var o := Low32(gap);
    if gap < SLICES {
      assert o == gap;
    } else {
      assert gap >= o;
      forall i | 0 <= i < SLICES ensures Shifted(slices, o)[i] == Shifted(slices, gap)[i] {
      }
    }
  }

  lemma UpdateShows(slices: seq<nat>, charged: seq<nat>, cur: nat, gap: nat)
    requires Shows(slices, charged, cur) && SeenRight(gap)
    ensures Shows(Shifted(slices, Low32(gap)), charged, cur + gap)
  {
    SeenSame(slices, gap);
    ShiftedShows(slices, charged, cur, gap);
  }

  /** A pause of exactly two to the thirty-second slices leaves the old counts standing. */
  lemma LongPauseKeepsOldCounts()
    ensures !SeenRight(TWO_32)
    ensures exists slices: seq<nat> :: |slices| == SLICES && Shifted(slices, Low32(TWO_32)) != Shifted(slices, TWO_32)
  {
    TruncationExact(TWO_32);
  }

  class PerformanceInfo {
    const slices: array<nat>
    var currentStart: nat

    /** The slices charged so far, in order. */
    ghost var charged: seq<nat>

    ghost predicate Aligned()
      reads this
    {
      slices.Length == SLICES && OnBoundary(currentStart)
    }

    /** The window shows the hits of its ten slices. */
    ghost predicate Valid()
      reads this, slices
    {
      Aligned() && Shows(slices[..], charged, SliceOf(currentStart))
    }

    constructor (tick: nat)
      ensures Valid() && charged == [] && SliceOf(currentStart) == SliceOf(tick) && fresh(slices)
    {
      slices := new nat[SLICES](_ => 0);
      currentStart := SliceStart(tick);
      charged := [];
      new;
      GapIs(0, tick);
      forall i | 0 <= i < SLICES ensures ShowsAt(slices[..], charged, SliceOf(currentStart), i) {
      }
    }

    /** Drops the oldest slices, in place.  The index is computed in 32 bits and may
        wrap; the places it then reads have been cleared before. */
    method EclipseTimeSlices(offset: nat)
      requires slices.Length == SLICES && offset < TWO_32
      modifies slices
      ensures slices[..] == Shifted(old(slices[..]), offset)
    {
      if offset == 0 {
        assert slices[..] == Shifted(old(slices[..]), 0);
        return;
      }
      ghost var was := slices[..];
      for i := 0 to SLICES
        invariant forall j :: 0 <= j < i ==> slices[j] == Shifted(was, offset)[j]
        invariant forall j :: i <= j < SLICES ==> slices[j] == was[j]
      {
        var from := (i + offset) % TWO_32;
        if from < SLICES {
          slices[i] := slices[from];
        } else {
          slices[i] := 0;
        }
      }
      assert slices[..] == Shifted(was, offset);
    }

    method HitCurrentSlice()
      requires Aligned()
      modifies slices, `charged
      ensures slices[..] == old(slices[..])[SLICES - 1 := Low32(old(slices[SLICES - 1]) + 1)]
      ensures charged == old(charged) + [SliceOf(currentStart)]
      ensures old(Valid()) ==> Valid()
    {
      ghost var cur, was := SliceOf(currentStart), slices[..];
      if Valid() {
        HitShows(was, charged, cur);
      }
      slices[SLICES - 1] := Low32(slices[SLICES - 1] + 1);
      assert slices[..] == was[SLICES - 1 := Low32(was[SLICES - 1] + 1)];
      charged := charged + [cur];
    }

    /** The counts are shifted by the gap as 32 bits see it, so the window still shows its
        slices' hits when the gap is seen right. */
    method UpdateTimeSlicesToCurrentTicks(tick: nat)
      requires Aligned() && SliceOf(tick) >= SliceOf(currentStart)
      modifies slices, `currentStart
      ensures Aligned() && SliceOf(currentStart) == SliceOf(tick)
      ensures slices[..] == Shifted(old(slices[..]), Low32(SliceOf(tick) - old(SliceOf(currentStart))))
      ensures old(Valid()) && SeenRight(SliceOf(tick) - old(SliceOf(currentStart))) ==> Valid()
    {
      hide SliceOf, SliceStart, Shifted, Shows, SeenRight, Low32, OnBoundary, Passed;
      ghost var cur, gap, was := SliceOf(currentStart), SliceOf(tick) - SliceOf(currentStart), slices[..];
      ghost var shown := Shows(was, charged, cur) && SeenRight(gap);
      if shown {
        UpdateShows(was, charged, cur, gap);
      }
      var start := SliceStart(tick);
      GapIs(currentStart, tick);
      var passed := Low32(Passed(currentStart, start));
      EclipseTimeSlices(passed);
      assert slices[..] == Shifted(was, Low32(gap));
      currentStart := start;
    }

    /** A block is charged to the slice of the second clock reading when the first is not
        in the current slice, and to the current slice otherwise.  The first reading
        precedes the lock and may be older than the window. */
    method ProcessedOneBlock(first: nat, second: nat)
      requires Aligned()
      requires SliceOf(first) != SliceOf(currentStart) ==> SliceOf(currentStart) <= SliceOf(second)
      modifies this, slices
      ensures Aligned()
      ensures SliceOf(currentStart) ==
              if SliceOf(first) == old(SliceOf(currentStart)) then old(SliceOf(currentStart)) else SliceOf(second)
      ensures charged == old(charged) + [SliceOf(currentStart)]
      ensures old(Valid()) && SeenRight(SliceOf(currentStart) - old(SliceOf(currentStart))) ==> Valid()
    {
      StartIs(currentStart, first);
      hide SliceOf, SliceStart, Shifted, Shows, OnBoundary, SeenRight;
      if currentStart != SliceStart(first) {
        UpdateTimeSlicesToCurrentTicks(second);
      }
      HitCurrentSlice();
    }

    /** The total of the window. */
    method GetBlockSumInAllSlices() returns (sum: nat)
      requires Valid()
      ensures sum == Recent(charged, SliceOf(currentStart), SLICES)
    {
      sum := 0;
      for i := 0 to SLICES
        invariant sum + Recent(charged, SliceOf(currentStart), SLICES - i) == Recent(charged, SliceOf(currentStart), SLICES)
      {
        assert ShowsAt(slices[..], charged, SliceOf(currentStart), i);
        sum := sum + slices[i];
      }
    }
  }

  lemma HitShows(slices: seq<nat>, charged: seq<nat>, cur: nat)
    requires Shows(slices, charged, cur)
    ensures Shows(slices[SLICES - 1 := Low32(slices[SLICES - 1] + 1)], charged + [cur], cur)
  {
    var last := SLICES - 1;
    assert ShowsAt(slices, charged, cur, last);
    AddModulo(Hits(charged, cur));
    hide Low32, Hits;
    var r := slices[last := Low32(slices[last] + 1)];
    forall i | 0 <= i < SLICES ensures ShowsAt(r, charged + [cur], cur, i) {
      HitsMore(charged, cur, cur - (SLICES - 1 - i));
      assert ShowsAt(slices, charged, cur, i);
    }
  }

  lemma AddModulo(n: nat)
    ensures Low32(Low32(n) + 1) == Low32(n + 1)
  {
  }

  lemma GapIs(start: nat, tick: nat)
    requires OnBoundary(start) && SliceOf(tick) >= SliceOf(start)
    ensures SliceStart(tick) >= start && Passed(start, SliceStart(tick)) == SliceOf(tick) - SliceOf(start)
    ensures SliceOf(SliceStart(tick)) == SliceOf(tick) && OnBoundary(SliceStart(tick))
  {
  }

  lemma StartIs(start: nat, tick: nat)
    requires OnBoundary(start)
    ensures start == SliceStart(tick) <==> SliceOf(tick) == SliceOf(start)
  {
  }

  /** What the n most recent slices show. */
  function Recent(charged: seq<nat>, cur: nat, n: nat): nat {
    if n == 0 then 0 else Recent(charged, cur, n - 1) + Low32(Hits(charged, cur - (n - 1)))
  }

  /** How many hits were charged to the n most recent slices. */
  function HitsSince(charged: seq<nat>, cur: nat, n: nat): nat {
    if charged == [] then 0
    else HitsSince(charged[..|charged| - 1], cur, n) +
         if cur - n < charged[|charged| - 1] <= cur then 1 else 0
  }

  lemma {:induction false} HitsSinceMore(charged: seq<nat>, cur: nat, n: nat)
    ensures HitsSince(charged, cur, n + 1) == HitsSince(charged, cur, n) + Hits(charged, cur - n)
  {
    if charged != [] {
      HitsSinceMore(charged[..|charged| - 1], cur, n);
    }
  }

  lemma {:induction false} NoHitsSince(charged: seq<nat>, cur: nat)
    ensures HitsSince(charged, cur, 0) == 0
  {
    if charged != [] {
      NoHitsSince(charged[..|charged| - 1], cur);
    }
  }

  lemma {:induction false} HitsBounded(charged: seq<nat>, slice: int)
    ensures Hits(charged, slice) <= |charged|
  {
    if charged != [] {
      HitsBounded(charged[..|charged| - 1], slice);
    }
  }

  /** The total is the number of hits in the ten most recent slices, as long as fewer
      than two to the thirty-second blocks were counted. */
  lemma {:induction false} RecentIsHitsSince(charged: seq<nat>, cur: nat, n: nat)
    requires |charged| < TWO_32
    ensures Recent(charged, cur, n) == HitsSince(charged, cur, n)
  {
    if n == 0 {
      NoHitsSince(charged, cur);
    } else {
      RecentIsHitsSince(charged, cur, n - 1);
      HitsSinceMore(charged, cur, n - 1);
      HitsBounded(charged, cur - (n - 1));
    }
  }
}
