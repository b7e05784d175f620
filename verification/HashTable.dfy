/** BasicHashTable and its iterator as objects. */
module HashTable {
  import opened HashChains

  class BasicHashTable {
    const z: Sizes
    var heads: seq<int>
    var mem: map<int, int>
    var overflow: seq<nat>

    /** The buckets and tuples of each hash value. */
    ghost var chains: seq<Chain>

    /** Every chain is as its memory says, and overflow counts its buckets. */
    ghost predicate Valid()
      reads this
    {
      && TableOk(z, mem, heads, chains) && z.tuple <= z.actual
      && |overflow| == |chains| && forall o :: 0 <= o < |chains| ==> overflow[o] == |chains[o]|
    }

    constructor (nbuckets: nat, bucksize: nat, tuplesize: nat)
      requires tuplesize > 0
      ensures Valid() && |heads| == nbuckets && forall o :: 0 <= o < nbuckets ==> chains[o] == []
      ensures z.tuple == tuplesize
      ensures z.actual + 2 * WORD == AlignedSpace(if bucksize > tuplesize then bucksize else tuplesize)
    {
      var space := AlignedSpace(if bucksize > tuplesize then bucksize else tuplesize);
      AlignedSpaceLeast(if bucksize > tuplesize then bucksize else tuplesize);
      z := Sizes(tuplesize, space - 2 * WORD);
      heads := seq(nbuckets, _ => 0);
      mem := map[];
      overflow := seq(nbuckets, _ => 0);
      chains := seq(nbuckets, _ => []);
    }

    /** Room for one more tuple under a hash value: behind the last tuple of the first
        bucket, or at the start of a new bucket from the pool when that one is full. */
    method Allocate(offset: nat, page: int) returns (ret: int)
      requires Valid() && offset < |heads| && page > 0
      requires forall p :: 0 <= p < |chains| ==> Clear(z, page, chains[p])
      modifies this
      ensures Valid()
      ensures |heads| == |old(heads)|
      ensures ret == AllocatedSlot(z, old(chains)[offset], page)
      ensures chains == Allocated(z, old(chains), offset, page)
    {
      hide AllApart, Clear;
      ghost var c := chains[offset];
      var data := heads[offset];
      if data != 0 {
        assert BucketOk(z, mem, c, 0);
        var freeloc := data + z.actual;
        if mem[freeloc] + z.tuple <= data + z.actual {
          ret := mem[freeloc];
          TailClear(z, chains, offset);
          ExtendedOk(z, mem, c);
          ExtendedApart(z, chains, offset, ret);
          Others(mem, mem[freeloc := ret + z.tuple], offset, data);
          mem := mem[freeloc := ret + z.tuple];
          chains := chains[offset := Extended(c, ret)];
          return;
        }
      }
      ret := page;
      if c != [] {
        assert BucketOk(z, mem, c, 0);
      }
      PushedOk(z, mem, c, page);
      PushedApart(z, chains, offset, page);
      var now := mem[ret + z.actual := ret + z.tuple][ret + z.actual + WORD := data];
      Others(mem, now, offset, page);
      mem := now;
      overflow := overflow[offset := overflow[offset] + 1];
      heads := heads[offset := ret];
      chains := chains[offset := [Bucket(page, [page])] + c];
    }

    lemma Others(was: map<int, int>, now: map<int, int>, offset: nat, a: int)
      requires forall p :: 0 <= p < |chains| && p != offset ==> ChainOk(z, was, chains[p]) && Clear(z, a, chains[p])
      requires forall x :: x in was && x != a + z.actual && x != a + z.actual + WORD ==> x in now && now[x] == was[x]
      ensures forall p :: 0 <= p < |chains| && p != offset ==> ChainOk(z, now, chains[p])
    {
      forall p | 0 <= p < |chains| && p != offset ensures ChainOk(z, now, chains[p]) {
        ChainStays(z, was, now, chains[p], a);
      }
    }

    /** An iterator before the first tuple of a hash value. */
    method PlaceIterator(it: Iterator, offset: nat) returns (ok: bool)
      requires Valid()
      modifies it
      ensures ok <==> offset < |heads|
      ensures ok ==> Reading(z, chains[offset], 0, 0, it.cur, it.free, it.next)
    {
      if offset >= |heads| {
        return false;
      }
      var start := heads[offset];
      if start == 0 {
        it.cur, it.free, it.next := 0, 0, 0;
        assert chains[offset] != [] ==> BucketOk(z, mem, chains[offset], 0);
        return true;
      }
      assert BucketOk(z, mem, chains[offset], 0);
      it.cur := start;
      it.free := mem[start + z.actual];
      it.next := mem[start + z.actual + WORD];
      return true;
    }
  }

  /** The iterator stands before slot k of bucket i, or behind the bucket's last slot. */
  predicate Reading(z: Sizes, c: Chain, i: nat, k: nat, cur: int, free: int, next: int) {
    if c == [] then i == 0 && k == 0 && cur == 0 && free == 0 && next == 0
    else
      && i < |c| && c[i].slots != [] && k <= |c[i].slots|
      && cur == (if k < |c[i].slots| then c[i].slots[k] else FreeOf(z, c[i]))
      && free == FreeOf(z, c[i]) && next == NextOf(c, i)
  }

  /** The slots still to come. */
  function Rest(c: Chain, i: nat, k: nat): seq<int>
    requires c != [] ==> i < |c| && k <= |c[i].slots|
  {
    if c == [] then [] else c[i].slots[k..] + SlotsFrom(c, i + 1)
  }

  lemma CursorBelow(z: Sizes, mem: map<int, int>, c: Chain, i: nat, k: nat, cur: int, free: int, next: int)
    requires z.tuple > 0 && ChainOk(z, mem, c) && c != [] && Reading(z, c, i, k, cur, free, next)
    ensures cur < free <==> k < |c[i].slots|
    ensures cur + z.tuple < free <==> k + 1 < |c[i].slots|
    ensures k + 1 < |c[i].slots| ==> c[i].slots[k + 1] == cur + z.tuple
    ensures k + 1 == |c[i].slots| ==> FreeOf(z, c[i]) == cur + z.tuple
    ensures next != 0 <==> i + 1 < |c|
    ensures k < |c[i].slots| ==> cur > 0
  {
    var b := c[i];
    assert BucketOk(z, mem, c, i);
    if k < |b.slots| {
      SlotInside(z, b, k);
      SlotsSpread(z, b, k, |b.slots| - 1);
      if k + 1 < |b.slots| {
        assert Following(z, b.slots, k);
        SlotsSpread(z, b, k + 1, |b.slots| - 1);
      }
    }
    if i + 1 < |c| {
      assert BucketOk(z, mem, c, i + 1);
    }
  }

  /** The slots to come, one step at a time. */
  lemma RestLaw(c: Chain, i: nat, k: nat)
    requires i < |c| && k <= |c[i].slots|
    ensures k < |c[i].slots| ==> Rest(c, i, k) == [c[i].slots[k]] + Rest(c, i, k + 1)
    ensures k == |c[i].slots| && i + 1 < |c| ==> Rest(c, i, k) == Rest(c, i + 1, 0)
    ensures k == |c[i].slots| && i + 1 == |c| ==> Rest(c, i, k) == []
  {
    if k == |c[i].slots| {
      EmptyOff(c[i].slots, SlotsFrom(c, i + 1));
      if i + 1 < |c| {
        assert c[i + 1].slots[0..] == c[i + 1].slots;
      }
    } else {
      hide SlotsFrom;
      FirstOff(c[i].slots, k, SlotsFrom(c, i + 1));
    }
  }

  lemma EmptyOff(a: seq<int>, b: seq<int>)
    ensures a[|a|..] + b == b
  {
  }

  lemma FirstOff(a: seq<int>, k: nat, b: seq<int>)
    requires k < |a|
    ensures a[k..] + b == [a[k]] + (a[k + 1..] + b)
  {
  }

  class Iterator {
    var cur: int
    var free: int
    var next: int

    constructor () {
      cur, free, next := 0, 0, 0;
    }

    /** Returns the next slot and moves behind it, or 0 behind the last. */
    method ReadNext(t: BasicHashTable, ghost o: nat, ghost i: nat, ghost k: nat)
      returns (ret: int, ghost i': nat, ghost k': nat)
      requires t.Valid() && o < |t.chains| && Reading(t.z, t.chains[o], i, k, cur, free, next)
      modifies this
      ensures Reading(t.z, t.chains[o], i', k', cur, free, next)
      ensures ret == 0 <==> Rest(t.chains[o], i, k) == []
      ensures ret == 0 ==> i' == i && k' == k
      ensures ret != 0 ==> Rest(t.chains[o], i, k) == [ret] + Rest(t.chains[o], i', k')
    {
      ghost var c := t.chains[o];
      i', k' := i, k;
      if c != [] {
        CursorBelow(t.z, t.mem, c, i, k, cur, free, next);
        RestLaw(c, i, k);
      } else {
        assert Rest(c, i, k) == [];
      }
      hide AllApart, Packed, Full, SlotsFrom, Rest;
      if cur < free {
        ret := cur;
        cur := cur + t.z.tuple;
        k' := k + 1;
      } else if next != 0 {
        assert BucketOk(t.z, t.mem, c, i + 1);
        i', k' := i + 1, 1;
        NextBucket(t.z, t.mem, c, i + 1);
        RestLaw(c, i + 1, 0);
        ret := next;
        cur := next + t.z.tuple;
        free := t.mem[next + t.z.actual];
        next := t.mem[next + t.z.actual + WORD];
      } else {
        ret := 0;
      }
    }

    /** The slot the iterator stands before, or 0 behind the last of the bucket. */
    method ReadCurrent(t: BasicHashTable, ghost o: nat, ghost i: nat, ghost k: nat) returns (ret: int)
      requires t.Valid() && o < |t.chains| && Reading(t.z, t.chains[o], i, k, cur, free, next)
      ensures ret == 0 <==> t.chains[o] == [] || k == |t.chains[o][i].slots|
      ensures ret != 0 ==> ret == t.chains[o][i].slots[k] && Rest(t.chains[o], i, k) != [] && ret == Rest(t.chains[o], i, k)[0]
      ensures Standing(t.z, t.chains[o], i, k, cur, free, next) ==> (ret == 0 <==> Rest(t.chains[o], i, k) == [])
    {
      if t.chains[o] != [] {
        CursorBelow(t.z, t.mem, t.chains[o], i, k, cur, free, next);
        RestLaw(t.chains[o], i, k);
      }
      ret := if cur < free then cur else 0;
    }

    /** Moves on by one slot; behind the last slot of a bucket it moves to the next
        bucket's first slot without passing any, and behind the very last it stays. */
    method IncreaseCur(t: BasicHashTable, ghost o: nat, ghost i: nat, ghost k: nat)
      returns (ghost i': nat, ghost k': nat)
      requires t.Valid() && o < |t.chains| && Reading(t.z, t.chains[o], i, k, cur, free, next)
      modifies this
      ensures Standing(t.z, t.chains[o], i', k', cur, free, next)
      ensures Rest(t.chains[o], i', k') ==
              if t.chains[o] != [] && k < |t.chains[o][i].slots| then Rest(t.chains[o], i, k)[1..] else Rest(t.chains[o], i, k)
    {
      ghost var c := t.chains[o];
      i', k' := i, k;
      if c != [] {
        CursorBelow(t.z, t.mem, c, i, k, cur, free, next);
        RestLaw(c, i, k);
        if k < |c[i].slots| {
          RestLaw(c, i, k + 1);
        }
      } else {
        assert Rest(c, i, k) == [];
      }
      hide AllApart, Packed, Full, SlotsFrom, Rest;
      if cur + t.z.tuple < free {
        cur := cur + t.z.tuple;
        k' := k + 1;
      } else if next != 0 {
        assert BucketOk(t.z, t.mem, c, i + 1);
        i', k' := i + 1, 0;
        NextBucket(t.z, t.mem, c, i + 1);
        cur := next;
        free := t.mem[next + t.z.actual];
        next := t.mem[next + t.z.actual + WORD];
      } else {
        cur := free;
        if c != [] {
          k' := |c[i].slots|;
        }
      }
    }
  }

  /** increase_cur_ and then readCurrent. */
  method NextCurrent(it: Iterator, t: BasicHashTable, ghost o: nat, ghost i: nat, ghost k: nat)
    returns (x: int, ghost i': nat, ghost k': nat)
    requires t.Valid() && o < |t.chains| && Standing(t.z, t.chains[o], i, k, it.cur, it.free, it.next)
    requires Rest(t.chains[o], i, k) != []
    modifies it
    ensures Standing(t.z, t.chains[o], i', k', it.cur, it.free, it.next)
    ensures Rest(t.chains[o], i', k') == Rest(t.chains[o], i, k)[1..]
    ensures x == 0 <==> Rest(t.chains[o], i', k') == []
    ensures x != 0 ==> x == Rest(t.chains[o], i', k')[0]
  {
    ghost var c := t.chains[o];
    if c != [] {
      RestLaw(c, i, k);
    }
    hide Rest, TableOk, FreeOf, NextOf;
    i', k' := it.IncreaseCur(t, o, i, k);
    x := it.ReadCurrent(t, o, i', k');
  }

  /** Before a slot, or behind the very last one. */
  predicate Standing(z: Sizes, c: Chain, i: nat, k: nat, cur: int, free: int, next: int) {
    Reading(z, c, i, k, cur, free, next) && (c != [] && k == |c[i].slots| ==> i + 1 == |c|)
  }

  lemma NextBucket(z: Sizes, mem: map<int, int>, c: Chain, i: nat)
    requires i < |c| && BucketOk(z, mem, c, i)
    ensures c[i].slots != [] && c[i].slots[0] == c[i].addr && c[i].addr != 0
    ensures |c[i].slots| > 1 ==> c[i].slots[1] == c[i].addr + z.tuple
    ensures |c[i].slots| == 1 ==> FreeOf(z, c[i]) == c[i].addr + z.tuple
  {
    assert |c[i].slots| > 1 ==> Following(z, c[i].slots, 0);
  }

  lemma RestStart(c: Chain)
    requires c != [] ==> c[0].slots[0..] == c[0].slots
    ensures Rest(c, 0, 0) == Slots(c)
  {
  }

  /** Repeated readnext gives every tuple of the hash value once, in order. */
  method ReadAll(t: BasicHashTable, offset: nat) returns (seen: seq<int>)
    requires t.Valid() && offset < |t.heads|
    ensures seen == Slots(t.chains[offset])
  {
    assert |t.chains| == |t.heads|;
    RestStart(t.chains[offset]);
    hide TableOk, Rest, Slots, FreeOf, NextOf;
    var it := new Iterator();
    var ok := t.PlaceIterator(it, offset);
    ghost var c: Chain, i: nat, k: nat := t.chains[offset], 0, 0;
    seen := [];
    var x;
    while true
      invariant t.Valid() && offset < |t.chains| && c == t.chains[offset]
      invariant Reading(t.z, c, i, k, it.cur, it.free, it.next)
      invariant seen + Rest(c, i, k) == Slots(c)
      decreases |Rest(c, i, k)|
    {
      ghost var before := Rest(c, i, k);
      x, i, k := it.ReadNext(t, offset, i, k);
      if x == 0 {
        break;
      }
      assert seen + ([x] + Rest(c, i, k)) == seen + [x] + Rest(c, i, k);
      seen := seen + [x];
    }
  }

  /** So does reading the current slot and moving on: the two ways agree. */
  method ScanAll(t: BasicHashTable, offset: nat) returns (seen: seq<int>)
    requires t.Valid() && offset < |t.heads|
    ensures seen == Slots(t.chains[offset])
  {
    assert |t.chains| == |t.heads|;
    RestStart(t.chains[offset]);
    hide TableOk, Rest, Slots, FreeOf, NextOf;
    var it := new Iterator();
    var ok := t.PlaceIterator(it, offset);
    ghost var c: Chain, i: nat, k: nat := t.chains[offset], 0, 0;
    ghost var rest := Slots(c);
    seen := [];
    assert seen + rest == rest;
    var x := it.ReadCurrent(t, offset, i, k);
    while x != 0
      invariant t.Valid() && offset < |t.chains| && c == t.chains[offset]
      invariant Standing(t.z, c, i, k, it.cur, it.free, it.next) && rest == Rest(c, i, k)
      invariant x == 0 <==> rest == []
      invariant x != 0 ==> x == rest[0]
      invariant seen + rest == Slots(c)
      decreases |rest|
    {
      MovedOver(seen, rest);
      seen := seen + [x];
      x, i, k := NextCurrent(it, t, offset, i, k);
      rest := rest[1..];
    }
    assert seen + [] == seen;
  }

  lemma MovedOver(seen: seq<int>, rest: seq<int>)
    requires rest != []
    ensures seen + rest == seen + [rest[0]] + rest[1..]
  {
  }

  /** The results of the first n allocations that were for this hash value. */
  function Picked(offsets: seq<nat>, rets: seq<int>, n: nat, o: nat): seq<int>
    requires n <= |offsets| && n <= |rets|
  {
    if n == 0 then [] else Picked(offsets, rets, n - 1, o) + if offsets[n - 1] == o then [rets[n - 1]] else []
  }

  lemma {:induction false} PickedSame(offsets: seq<nat>, rets: seq<int>, x: int, n: nat, o: nat)
    requires n <= |offsets| && n <= |rets|
    ensures Picked(offsets, rets + [x], n, o) == Picked(offsets, rets, n, o)
  {
    if n > 0 {
      PickedSame(offsets, rets, x, n - 1, o);
    }
  }

  /** The chains hold under each hash value exactly the slots given out for it. */
  ghost predicate Holds(cs: seq<Chain>, offsets: seq<nat>, rets: seq<int>)
    requires |rets| <= |offsets|
  {
    forall o :: 0 <= o < |cs| ==> HoldsAt(cs[o], offsets, rets, o)
  }

  ghost predicate HoldsAt(c: Chain, offsets: seq<nat>, rets: seq<int>, o: nat)
    requires |rets| <= |offsets|
  {
    multiset(Slots(c)) == multiset(Picked(offsets, rets, |rets|, o))
  }

  /** The pool's pages: positive, apart, and from the k-th on not used yet. */
  predicate Supply(z: Sizes, cs: seq<Chain>, pages: seq<int>, k: nat) {
    && (forall i :: k <= i < |pages| ==> pages[i] > 0)
    && (forall i, j :: k <= i < j < |pages| ==> Apart(z, pages[i], pages[j]))
    && (forall i, p :: k <= i < |pages| && 0 <= p < |cs| ==> Clear(z, pages[i], cs[p]))
  }

  /** What an allocation does to the chains. */
  function Allocated(z: Sizes, cs: seq<Chain>, o: nat, page: int): seq<Chain>
    requires o < |cs|
  {
    cs[o := if HasRoom(z, cs[o]) then Extended(cs[o], FreeOf(z, cs[o][0])) else [Bucket(page, [page])] + cs[o]]
  }

  function AllocatedSlot(z: Sizes, c: Chain, page: int): int {
    if HasRoom(z, c) then FreeOf(z, c[0]) else page
  }

  lemma HoldsNext(z: Sizes, cs: seq<Chain>, offsets: seq<nat>, rets: seq<int>, page: int)
    requires |rets| < |offsets| && offsets[|rets|] < |cs| && Holds(cs, offsets, rets)
    ensures var o := offsets[|rets|];
            Holds(Allocated(z, cs, o, page), offsets, rets + [AllocatedSlot(z, cs[o], page)])
  {
    hide Slots, Picked, HoldsAt, Full, FreeOf;
    var o := offsets[|rets|];
    var x, ds := AllocatedSlot(z, cs[o], page), Allocated(z, cs, o, page);
    SlotAdded(z, cs[o], x);
    forall p | 0 <= p < |ds| ensures HoldsAt(ds[p], offsets, rets + [x], p) {
      HoldsStep(cs[p], ds[p], offsets, rets, x, p);
    }
  }

  lemma HoldsStep(c: Chain, d: Chain, offsets: seq<nat>, rets: seq<int>, x: int, p: nat)
    requires |rets| < |offsets| && HoldsAt(c, offsets, rets, p)
    requires if offsets[|rets|] == p then multiset(Slots(d)) == multiset(Slots(c)) + multiset{x} else d == c
    ensures HoldsAt(d, offsets, rets + [x], p)
  {
    hide Slots;
    var n := |rets|;
    var was, now := Picked(offsets, rets, n, p), Picked(offsets, rets + [x], n + 1, p);
    PickedSame(offsets, rets, x, n, p);
    assert (rets + [x])[n] == x;
    if offsets[n] == p {
      assert now == was + [x];
      assert multiset(was + [x]) == multiset(was) + multiset{x};
    } else {
      assert now == was + [] == was;
    }
  }

  lemma SupplyNext(z: Sizes, cs: seq<Chain>, o: nat, pages: seq<int>, k: nat)
    requires o < |cs| && k < |pages| && Supply(z, cs, pages, k)
    ensures Supply(z, Allocated(z, cs, o, pages[k]), pages, k + 1)
  {
    var ds := Allocated(z, cs, o, pages[k]);
    forall i, p | k + 1 <= i < |pages| && 0 <= p < |ds| ensures Clear(z, pages[i], ds[p]) {
      StillClear(z, pages[i], cs[p], pages[k], AllocatedSlot(z, cs[p], pages[k]));
    }
  }

  lemma StillClear(z: Sizes, a: int, c: Chain, page: int, slot: int)
    requires Clear(z, a, c) && Apart(z, a, page)
    ensures Clear(z, a, [Bucket(page, [page])] + c)
    ensures c != [] ==> Clear(z, a, Extended(c, slot))
  {
    var d := [Bucket(page, [page])] + c;
    forall i | 0 <= i < |d| ensures Apart(z, a, d[i].addr) {
      assert i > 0 ==> d[i] == c[i - 1];
    }
    if c != [] {
      var e := Extended(c, slot);
      forall i | 0 <= i < |e| ensures Apart(z, a, e[i].addr) {
        assert e[i].addr == c[i].addr;
      }
    }
  }

  // ----- the slots given out -----

  ghost predicate SlotIn(c: Chain, x: int) {
    exists b, k :: 0 <= b < |c| && 0 <= k < |c[b].slots| && c[b].slots[k] == x
  }

  /** Two tuples do not overlap. */
  predicate Separate(z: Sizes, x: int, y: int) { x + z.tuple <= y || y + z.tuple <= x }

  /** A tuple stays clear of the two words of the bucket at an address. */
  predicate OffWords(z: Sizes, x: int, addr: int) {
    x + z.tuple <= addr + z.actual || addr + z.actual + 2 * WORD <= x
  }

  /** Every slot given out is in the chain it was asked for, and no two overlap. */
  ghost predicate Handed(z: Sizes, cs: seq<Chain>, offsets: seq<nat>, rets: seq<int>) {
    && |rets| <= |offsets|
    && (forall i :: 0 <= i < |rets| ==> offsets[i] < |cs| && SlotIn(cs[offsets[i]], rets[i]))
    && (forall i, j :: 0 <= i < j < |rets| ==> Separate(z, rets[i], rets[j]))
  }

  /** An old slot is still there, and not where the new one is. */
  lemma SlotStays(z: Sizes, cs: seq<Chain>, o: nat, page: int, p: nat, y: int) returns (b: nat, k: nat)
    requires o < |cs| && p < |cs| && SlotIn(cs[p], y)
    ensures var d := Allocated(z, cs, o, page)[p];
            && b < |d| && k < |d[b].slots| && d[b].slots[k] == y
            && (p == o ==> (b, k) != (0, |d[0].slots| - 1))
  {
    var b0, k0 :| 0 <= b0 < |cs[p]| && 0 <= k0 < |cs[p][b0].slots| && cs[p][b0].slots[k0] == y;
    b, k := if p == o && !HasRoom(z, cs[o]) then b0 + 1 else b0, k0;
  }

  lemma SlotNew(z: Sizes, cs: seq<Chain>, o: nat, page: int)
    requires o < |cs|
    ensures var d := Allocated(z, cs, o, page)[o];
            d != [] && d[0].slots != [] && d[0].slots[|d[0].slots| - 1] == AllocatedSlot(z, cs[o], page)
  {
  }

  /** The new slot overlaps no slot given out before. */
  lemma NewSeparate(z: Sizes, mem: map<int, int>, heads: seq<int>, cs: seq<Chain>, o: nat, page: int, p: nat, y: int)
    requires o < |cs| && p < |cs| && TableOk(z, mem, heads, Allocated(z, cs, o, page)) && SlotIn(cs[p], y)
    ensures SlotIn(Allocated(z, cs, o, page)[p], y) && Separate(z, y, AllocatedSlot(z, cs[o], page))
  {
    var ds: seq<Chain> := Allocated(z, cs, o, page);
    var b, k := SlotStays(z, cs, o, page, p, y);
    SlotNew(z, cs, o, page);
    hide Allocated, AllocatedSlot, TableOk;
    SlotsDisjoint(z, mem, heads, ds, p, b, k, o, 0, |ds[o][0].slots| - 1);
  }

  lemma HandedNext(z: Sizes, mem: map<int, int>, heads: seq<int>, cs: seq<Chain>, offsets: seq<nat>, rets: seq<int>, page: int)
    requires |rets| < |offsets| && offsets[|rets|] < |cs| && Handed(z, cs, offsets, rets)
    requires TableOk(z, mem, heads, Allocated(z, cs, offsets[|rets|], page))
    ensures var o := offsets[|rets|];
            Handed(z, Allocated(z, cs, o, page), offsets, rets + [AllocatedSlot(z, cs[o], page)])
  {
    var n, o := |rets|, offsets[|rets|];
    var ds, x := Allocated(z, cs, o, page), AllocatedSlot(z, cs[o], page);
    var more := rets + [x];
    SlotNew(z, cs, o, page);
    hide TableOk, AllocatedSlot;
    assert SlotIn(ds[o], x);
    forall i | 0 <= i < |more| ensures offsets[i] < |ds| && SlotIn(ds[offsets[i]], more[i]) {
      if i < n {
        NewSeparate(z, mem, heads, cs, o, page, offsets[i], rets[i]);
      }
    }
    forall i, j | 0 <= i < j < |more| ensures Separate(z, more[i], more[j]) {
      if j == n {
        NewSeparate(z, mem, heads, cs, o, page, offsets[i], rets[i]);
      } else {
        assert Separate(z, rets[i], rets[j]);
      }
    }
  }

  lemma HandedOffWords(z: Sizes, mem: map<int, int>, heads: seq<int>, cs: seq<Chain>, offsets: seq<nat>, rets: seq<int>,
                       i: nat, p: nat, j: nat)
    requires TableOk(z, mem, heads, cs) && Handed(z, cs, offsets, rets) && i < |rets| && p < |cs| && j < |cs[p]|
    ensures OffWords(z, rets[i], cs[p][j].addr)
  {
    var o := offsets[i];
    var b, k :| 0 <= b < |cs[o]| && 0 <= k < |cs[o][b].slots| && cs[o][b].slots[k] == rets[i];
    assert ChainOk(z, mem, cs[p]) && BucketOk(z, mem, cs[p], j);
    SlotsDisjoint(z, mem, heads, cs, o, b, k, p, j, 0);
  }

  /** Any sequence of allocations into a new table: the slots returned do not overlap,
      stay clear of all buckets' words, and are exactly the slots of their hash
      values. */
  method AllocateAll(nbuckets: nat, bucksize: nat, tuplesize: nat, offsets: seq<nat>, pages: seq<int>)
    returns (t: BasicHashTable, rets: seq<int>)
    requires tuplesize > 0 && |pages| >= |offsets|
    requires forall i :: 0 <= i < |offsets| ==> offsets[i] < nbuckets
    requires forall i :: 0 <= i < |pages| ==> pages[i] > 0
    requires forall i, j :: 0 <= i < j < |pages| ==> PagesApart(pages[i], pages[j], bucksize, tuplesize)
    ensures fresh(t) && t.Valid() && t.z.tuple == tuplesize && |rets| == |offsets| && |t.chains| == |t.heads| == nbuckets
    ensures Holds(t.chains, offsets, rets)
    ensures forall i, j :: 0 <= i < j < |rets| ==> rets[i] + tuplesize <= rets[j] || rets[j] + tuplesize <= rets[i]
    ensures forall i, p, j :: 0 <= i < |rets| && 0 <= p < |t.chains| && 0 <= j < |t.chains[p]| ==>
              OffWords(t.z, rets[i], t.chains[p][j].addr)
  {
    t := new BasicHashTable(nbuckets, bucksize, tuplesize);
    rets := [];
    SupplyStart(t.z, t.chains, pages, bucksize, tuplesize);
    hide PagesApart, Supply, AlignedSpace;
    while |rets| < |offsets|
      invariant |rets| <= |offsets| && fresh(t) && t.Valid() && |t.heads| == nbuckets && |t.chains| == nbuckets
      invariant t.z.tuple == tuplesize
      invariant Holds(t.chains, offsets, rets) && Supply(t.z, t.chains, pages, |rets|)
      invariant Handed(t.z, t.chains, offsets, rets)
      decreases |offsets| - |rets|
    {
      hide TableOk, HasRoom, Apart, Clear, Handed, Holds, Allocated, AllocatedSlot;
      var n := |rets|;
      ghost var cs := t.chains;
      HoldsNext(t.z, t.chains, offsets, rets, pages[n]);
      SupplyGives(t.z, t.chains, pages, n);
      SupplyNext(t.z, t.chains, offsets[n], pages, n);
      var x := t.Allocate(offsets[n], pages[n]);
      HandedNext(t.z, t.mem, t.heads, cs, offsets, rets, pages[n]);
      rets := rets + [x];
    }
    HandedClear(t.z, t.mem, t.heads, t.chains, offsets, rets);
  }

  lemma HandedClear(z: Sizes, mem: map<int, int>, heads: seq<int>, cs: seq<Chain>, offsets: seq<nat>, rets: seq<int>)
    requires TableOk(z, mem, heads, cs) && Handed(z, cs, offsets, rets)
    ensures forall i, j :: 0 <= i < j < |rets| ==> rets[i] + z.tuple <= rets[j] || rets[j] + z.tuple <= rets[i]
    ensures forall i, p, j :: 0 <= i < |rets| && 0 <= p < |cs| && 0 <= j < |cs[p]| ==> OffWords(z, rets[i], cs[p][j].addr)
  {
    hide TableOk;
    forall i, p, j | 0 <= i < |rets| && 0 <= p < |cs| && 0 <= j < |cs[p]| ensures OffWords(z, rets[i], cs[p][j].addr) {
      HandedOffWords(z, mem, heads, cs, offsets, rets, i, p, j);
    }
    forall i, j | 0 <= i < j < |rets| ensures rets[i] + z.tuple <= rets[j] || rets[j] + z.tuple <= rets[i] {
      assert Separate(z, rets[i], rets[j]);
    }
  }

  lemma SupplyStart(z: Sizes, cs: seq<Chain>, pages: seq<int>, bucksize: nat, tuplesize: nat)
    requires z.actual + 2 * WORD == AlignedSpace(if bucksize > tuplesize then bucksize else tuplesize)
    requires forall o :: 0 <= o < |cs| ==> cs[o] == []
    requires forall i :: 0 <= i < |pages| ==> pages[i] > 0
    requires forall i, j :: 0 <= i < j < |pages| ==> PagesApart(pages[i], pages[j], bucksize, tuplesize)
    ensures Supply(z, cs, pages, 0)
  {
    forall i, j | 0 <= i < j < |pages| ensures Apart(z, pages[i], pages[j]) {
      assert PagesApart(pages[i], pages[j], bucksize, tuplesize);
    }
  }

  lemma SupplyGives(z: Sizes, cs: seq<Chain>, pages: seq<int>, k: nat)
    requires Supply(z, cs, pages, k) && k < |pages|
    ensures pages[k] > 0 && forall p :: 0 <= p < |cs| ==> Clear(z, pages[k], cs[p])
  {
  }

  /** The pool gives pieces of a bucket's size. */
  predicate PagesApart(a: int, b: int, bucksize: nat, tuplesize: nat) {
    var space := AlignedSpace(if bucksize > tuplesize then bucksize else tuplesize);
    a + space <= b || b + space <= a
  }

  lemma {:induction false} PickedFrom(offsets: seq<nat>, rets: seq<int>, n: nat, o: nat, x: int)
    requires n <= |offsets| && n <= |rets| && x in Picked(offsets, rets, n, o)
    ensures exists i :: 0 <= i < n && rets[i] == x
  {
    if n > 0 && x in Picked(offsets, rets, n - 1, o) {
      PickedFrom(offsets, rets, n - 1, o, x);
    }
  }

  lemma {:induction false} PickedOnce(offsets: seq<nat>, rets: seq<int>, n: nat, o: nat, x: int)
    requires n <= |offsets| && n <= |rets| && forall i, j :: 0 <= i < j < |rets| ==> rets[i] != rets[j]
    ensures multiset(Picked(offsets, rets, n, o))[x] <= 1
  {
    if n > 0 {
      var was, last := Picked(offsets, rets, n - 1, o), rets[n - 1];
      PickedOnce(offsets, rets, n - 1, o, x);
      if offsets[n - 1] == o {
        assert Picked(offsets, rets, n, o) == was + [last];
        assert multiset(was + [last]) == multiset(was) + multiset{last};
        if x == last && x in was {
          PickedFrom(offsets, rets, n - 1, o, x);
        }
      } else {
        assert Picked(offsets, rets, n, o) == was + [] == was;
      }
    }
  }

  /** Allocate in any order, then read one hash value in both ways: each way gives
      exactly the slots returned for it, once each, and both in the same order. */
  method AllocateAndRead(nbuckets: nat, bucksize: nat, tuplesize: nat, offsets: seq<nat>, pages: seq<int>, o: nat)
    returns (rets: seq<int>, byNext: seq<int>, byCurrent: seq<int>)
    requires tuplesize > 0 && |pages| >= |offsets| && o < nbuckets
    requires forall i :: 0 <= i < |offsets| ==> offsets[i] < nbuckets
    requires forall i :: 0 <= i < |pages| ==> pages[i] > 0
    requires forall i, j :: 0 <= i < j < |pages| ==> PagesApart(pages[i], pages[j], bucksize, tuplesize)
    ensures |rets| == |offsets| && byNext == byCurrent
    ensures forall i, j :: 0 <= i < j < |rets| ==> rets[i] + tuplesize <= rets[j] || rets[j] + tuplesize <= rets[i]
    ensures multiset(byNext) == multiset(Picked(offsets, rets, |rets|, o))
    ensures forall x :: multiset(byNext)[x] <= 1
  {
    var t;
    t, rets := AllocateAll(nbuckets, bucksize, tuplesize, offsets, pages);
    byNext := ReadAll(t, o);
    byCurrent := ScanAll(t, o);
    assert HoldsAt(t.chains[o], offsets, rets, o);
    forall x ensures multiset(byNext)[x] <= 1 {
      PickedOnce(offsets, rets, |rets|, o, x);
    }
  }
}
