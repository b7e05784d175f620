/** BasicHashTable: a chain of buckets for each hash value.  A bucket is a piece of
    memory whose last two words hold the address behind its last tuple and the
    address of the next bucket. */
module HashChains {

  const CACHE_LINE := 64
  const WORD := 8

  /** The space of a bucket that holds n bytes and two words, in whole cache lines. */
  function AlignedSpace(n: nat): nat {
    ((n + 2 * WORD - 1) / CACHE_LINE + 1) * CACHE_LINE
  }

  /** It is the least number of whole cache lines with room for both. */
  lemma AlignedSpaceLeast(n: nat)
    ensures AlignedSpace(n) % CACHE_LINE == 0
    ensures n + 2 * WORD <= AlignedSpace(n) < n + 2 * WORD + CACHE_LINE
  {
  }

  /** A bucket at an address, and the addresses of its tuples. */
  datatype Bucket = Bucket(addr: int, slots: seq<int>)

  type Chain = seq<Bucket>

  /** Sizes: of a tuple, and of a bucket without its two words. */
  datatype Sizes = Sizes(tuple: nat, actual: nat)

  /** The address behind the last tuple. */
  function FreeOf(z: Sizes, b: Bucket): int
    requires b.slots != []
  {
    b.slots[|b.slots| - 1] + z.tuple
  }

  /** The tuples fill the bucket from its start and stay clear of the two words. */
  predicate Packed(z: Sizes, b: Bucket) {
    && b.addr > 0
    && b.slots != [] && b.slots[0] == b.addr
    && (forall k :: 0 <= k < |b.slots| - 1 ==> Following(z, b.slots, k))
    && FreeOf(z, b) <= b.addr + z.actual
  }

  predicate Following(z: Sizes, slots: seq<int>, k: nat)
    requires k + 1 < |slots|
  {
    slots[k + 1] == slots[k] + z.tuple
  }

  /** No room for another tuple. */
  predicate Full(z: Sizes, b: Bucket)
    requires b.slots != []
  {
    FreeOf(z, b) + z.tuple > b.addr + z.actual
  }

  /** The first bucket has room for another tuple. */
  predicate HasRoom(z: Sizes, c: Chain) { c != [] && c[0].slots != [] && !Full(z, c[0]) }

  function HeadOf(c: Chain): int { if c == [] then 0 else c[0].addr }

  function NextOf(c: Chain, i: nat): int { if i + 1 < |c| then c[i + 1].addr else 0 }

  /** The two words of the i-th bucket. */
  predicate Worded(z: Sizes, mem: map<int, int>, c: Chain, i: nat)
    requires i < |c| && c[i].slots != []
  {
    var f, n := c[i].addr + z.actual, c[i].addr + z.actual + WORD;
    f in mem && mem[f] == FreeOf(z, c[i]) && n in mem && mem[n] == NextOf(c, i)
  }

  /** The i-th bucket is in order; all but the first are full. */
  predicate BucketOk(z: Sizes, mem: map<int, int>, c: Chain, i: nat)
    requires i < |c|
  {
    Packed(z, c[i]) && Worded(z, mem, c, i) && (i > 0 ==> Full(z, c[i]))
  }

  predicate ChainOk(z: Sizes, mem: map<int, int>, c: Chain) {
    forall i :: 0 <= i < |c| ==> BucketOk(z, mem, c, i)
  }

  /** Two buckets do not overlap, words included. */
  predicate Apart(z: Sizes, a: int, b: int) {
    a + z.actual + 2 * WORD <= b || b + z.actual + 2 * WORD <= a
  }

  /** The bucket at a overlaps none in the chain. */
  predicate Clear(z: Sizes, a: int, c: Chain) {
    forall i :: 0 <= i < |c| ==> Apart(z, a, c[i].addr)
  }

  predicate AllApart(z: Sizes, cs: seq<Chain>) {
    forall o, i, p, j :: 0 <= o < |cs| && 0 <= i < |cs[o]| && 0 <= p < |cs| && 0 <= j < |cs[p]| && (o != p || i != j)
      ==> Apart(z, cs[o][i].addr, cs[p][j].addr)
  }

  predicate TableOk(z: Sizes, mem: map<int, int>, heads: seq<int>, cs: seq<Chain>) {
    && z.tuple > 0
    && |heads| == |cs|
    && (forall o :: 0 <= o < |cs| ==> heads[o] == HeadOf(cs[o]) && ChainOk(z, mem, cs[o]))
    && AllApart(z, cs)
  }

  // ----- slots -----

  /** Slots lie in their bucket, one after the other. */
  lemma {:induction false} SlotsSpread(z: Sizes, b: Bucket, j: nat, k: nat)
    requires z.tuple > 0 && Packed(z, b) && j <= k < |b.slots|
    ensures b.slots[j] <= b.slots[k] && (j < k ==> b.slots[j] + z.tuple <= b.slots[k])
    decreases k
  {
    if j < k {
      SlotsSpread(z, b, j, k - 1);
      assert Following(z, b.slots, k - 1);
    }
  }

  lemma SlotInside(z: Sizes, b: Bucket, k: nat)
    requires z.tuple > 0 && Packed(z, b) && k < |b.slots|
    ensures b.addr <= b.slots[k] && b.slots[k] + z.tuple <= b.addr + z.actual
  {
    SlotsSpread(z, b, 0, k);
    SlotsSpread(z, b, k, |b.slots| - 1);
  }

  /** Two tuples of the table never overlap, and no tuple reaches into the words of any
      bucket. */
  lemma SlotsDisjoint(z: Sizes, mem: map<int, int>, heads: seq<int>, cs: seq<Chain>,
                      o: nat, i: nat, k: nat, p: nat, j: nat, l: nat)
    requires TableOk(z, mem, heads, cs)
    requires o < |cs| && i < |cs[o]| && k < |cs[o][i].slots|
    requires p < |cs| && j < |cs[p]| && l < |cs[p][j].slots|
    ensures var x, y := cs[o][i].slots[k], cs[p][j].slots[l];
            (o, i, k) != (p, j, l) ==> x + z.tuple <= y || y + z.tuple <= x
    ensures var x, w := cs[o][i].slots[k], cs[p][j].addr + z.actual;
            x + z.tuple <= w || w + 2 * WORD <= x
  {
    assert BucketOk(z, mem, cs[o], i) && BucketOk(z, mem, cs[p], j);
    SlotInside(z, cs[o][i], k);
    SlotInside(z, cs[p][j], l);
    if (o, i) == (p, j) {
      if k < l {
        SlotsSpread(z, cs[o][i], k, l);
      } else if l < k {
        SlotsSpread(z, cs[o][i], l, k);
      }
    } else {
      assert Apart(z, cs[o][i].addr, cs[p][j].addr);
    }
  }

  /** All slots from bucket i on, first bucket first. */
  function SlotsFrom(c: Chain, i: nat): seq<int>
    requires i <= |c|
    decreases |c| - i
  {
    if i == |c| then [] else c[i].slots + SlotsFrom(c, i + 1)
  }

  function Slots(c: Chain): seq<int> { SlotsFrom(c, 0) }

  lemma {:induction false} SlotsShift(d: Chain, c: Chain, i: nat)
    requires |d| == |c| + 1 && i <= |c| && forall k :: 0 <= k < |c| ==> c[k] == d[k + 1]
    ensures SlotsFrom(d, i + 1) == SlotsFrom(c, i)
    decreases |c| - i
  {
    if i < |c| {
      SlotsShift(d, c, i + 1);
      assert c[i] == d[i + 1];
    }
  }

  lemma SlotsCons(b: Bucket, c: Chain)
    ensures Slots([b] + c) == b.slots + Slots(c)
  {
    var d := [b] + c;
    SlotsShift(d, c, 0);
    assert SlotsFrom(d, 0) == d[0].slots + SlotsFrom(d, 1);
  }

  // ----- changing one bucket -----

  /** A chain is not affected by writes to the words of a bucket apart from its own. */
  lemma ChainStays(z: Sizes, mem: map<int, int>, now: map<int, int>, c: Chain, a: int)
    requires ChainOk(z, mem, c) && Clear(z, a, c)
    requires forall x :: x in mem && x != a + z.actual && x != a + z.actual + WORD ==> x in now && now[x] == mem[x]
    ensures ChainOk(z, now, c)
  {
    forall i | 0 <= i < |c| ensures BucketOk(z, now, c, i) {
      assert BucketOk(z, mem, c, i) && Apart(z, a, c[i].addr);
    }
  }

  /** One more tuple in the first bucket. */
  function Extended(c: Chain, slot: int): Chain
    requires c != []
  {
    [Bucket(c[0].addr, c[0].slots + [slot])] + c[1..]
  }

  lemma ExtendedPacked(z: Sizes, b: Bucket)
    requires Packed(z, b) && !Full(z, b)
    ensures Packed(z, Bucket(b.addr, b.slots + [FreeOf(z, b)]))
  {
    var slots := b.slots + [FreeOf(z, b)];
    forall k | 0 <= k < |slots| - 1 ensures Following(z, slots, k) {
      if k < |b.slots| - 1 {
        assert Following(z, b.slots, k);
      }
    }
  }

  lemma ExtendedOk(z: Sizes, mem: map<int, int>, c: Chain)
    requires ChainOk(z, mem, c) && HasRoom(z, c) && Clear(z, c[0].addr, c[1..])
    ensures ChainOk(z, mem[c[0].addr + z.actual := FreeOf(z, c[0]) + z.tuple], Extended(c, FreeOf(z, c[0])))
  {
    var now, d := mem[c[0].addr + z.actual := FreeOf(z, c[0]) + z.tuple], Extended(c, FreeOf(z, c[0]));
    assert BucketOk(z, mem, c, 0);
    ExtendedPacked(z, c[0]);
    forall i | 0 <= i < |d| ensures BucketOk(z, now, d, i) {
      if i > 0 {
        assert d[i] == c[i] && NextOf(d, i) == NextOf(c, i) && BucketOk(z, mem, c, i);
        assert c[1..][i - 1] == c[i] && Apart(z, c[0].addr, c[1..][i - 1].addr);
      } else {
        assert NextOf(d, 0) == NextOf(c, 0);
      }
    }
  }

  lemma PushedOk(z: Sizes, mem: map<int, int>, c: Chain, a: int)
    requires 0 < z.tuple <= z.actual && a > 0 && ChainOk(z, mem, c) && Clear(z, a, c)
    requires !HasRoom(z, c)
    ensures ChainOk(z, mem[a + z.actual := a + z.tuple][a + z.actual + WORD := HeadOf(c)], [Bucket(a, [a])] + c)
  {
    assert c != [] ==> BucketOk(z, mem, c, 0);
    var now, d := mem[a + z.actual := a + z.tuple][a + z.actual + WORD := HeadOf(c)], [Bucket(a, [a])] + c;
    forall i | 0 <= i < |d| ensures BucketOk(z, now, d, i) {
      if i > 0 {
        var h := i - 1;
        assert d[i] == c[h] && NextOf(d, i) == NextOf(c, h) && BucketOk(z, mem, c, h);
        assert Apart(z, a, c[h].addr);
      }
    }
  }

  lemma ExtendedApart(z: Sizes, cs: seq<Chain>, o: nat, slot: int)
    requires AllApart(z, cs) && o < |cs| && cs[o] != []
    ensures AllApart(z, cs[o := Extended(cs[o], slot)])
  {
    var ds: seq<Chain> := cs[o := Extended(cs[o], slot)];
    forall q, i | 0 <= q < |ds| && 0 <= i < |ds[q]| ensures i < |cs[q]| && ds[q][i].addr == cs[q][i].addr {
    }
  }

  lemma PushedApart(z: Sizes, cs: seq<Chain>, o: nat, a: int)
    requires AllApart(z, cs) && o < |cs| && forall p :: 0 <= p < |cs| ==> Clear(z, a, cs[p])
    ensures AllApart(z, cs[o := [Bucket(a, [a])] + cs[o]])
  {
    var ds: seq<Chain> := cs[o := [Bucket(a, [a])] + cs[o]];
    forall q, i, p, j | 0 <= q < |ds| && 0 <= i < |ds[q]| && 0 <= p < |ds| && 0 <= j < |ds[p]| && (q != p || i != j)
      ensures Apart(z, ds[q][i].addr, ds[p][j].addr)
    {
      var i' := if q == o then i - 1 else i;
      var j' := if p == o then j - 1 else j;
      if i' >= 0 && j' >= 0 {
        assert ds[q][i] == cs[q][i'] && ds[p][j] == cs[p][j'];
      } else if i' < 0 {
        assert ds[p][j] == cs[p][j'] && Clear(z, a, cs[p]);
      } else {
        assert ds[q][i] == cs[q][i'] && Clear(z, a, cs[q]);
      }
    }
  }

  lemma TailClear(z: Sizes, cs: seq<Chain>, o: nat)
    requires AllApart(z, cs) && o < |cs| && cs[o] != []
    ensures Clear(z, cs[o][0].addr, cs[o][1..])
    ensures forall p :: 0 <= p < |cs| && p != o ==> Clear(z, cs[o][0].addr, cs[p])
  {
    var c := cs[o];
    forall i | 0 <= i < |c[1..]| ensures Apart(z, c[0].addr, c[1..][i].addr) {
      var j := i + 1;
      assert c[1..][i] == cs[o][j];
    }
    forall p | 0 <= p < |cs| && p != o ensures Clear(z, c[0].addr, cs[p]) {
      forall i | 0 <= i < |cs[p]| ensures Apart(z, c[0].addr, cs[p][i].addr) {
        assert cs[o][0] == c[0];
      }
    }
  }

  /** Either way of allocating adds exactly the one slot. */
  lemma SlotAdded(z: Sizes, c: Chain, x: int)
    ensures multiset(Slots([Bucket(x, [x])] + c)) == multiset(Slots(c)) + multiset{x}
    ensures c != [] ==> multiset(Slots(Extended(c, x))) == multiset(Slots(c)) + multiset{x}
  {
    SlotsCons(Bucket(x, [x]), c);
    if c != [] {
      var b := Bucket(c[0].addr, c[0].slots + [x]);
      SlotsCons(c[0], c[1..]);
      SlotsCons(b, c[1..]);
      assert c == [c[0]] + c[1..];
    }
  }
}
