/** One node's slots and the two in-place operations on them.  A leaf node keeps
    entries, an inner node bare keys; both insert and split the same way. */
module CsbNode {

  /** r is s with x put at p: after everything not greater, before everything greater. */
  ghost predicate InsertedAt<T>(s: seq<T>, x: T, p: nat, key: T -> int, r: seq<T>) {
    && p <= |s| && |r| == |s| + 1 && r[p] == x
    && (forall i :: 0 <= i < p ==> r[i] == s[i])
    && (forall i :: p < i < |r| ==> r[i] == s[i - 1])
    && (forall i :: 0 <= i < p ==> key(s[i]) <= key(x))
    && (p < |s| ==> key(x) < key(s[p]))
  }

  ghost predicate SortedBy<T>(s: seq<T>, key: T -> int) {
    forall i, j :: 0 <= i < j < |s| ==> key(s[i]) <= key(s[j])
  }

  /** Such an insertion keeps a sorted sequence sorted. */
  lemma InsertedSorted<T>(s: seq<T>, x: T, p: nat, key: T -> int, r: seq<T>)
    requires SortedBy(s, key) && InsertedAt(s, x, p, key, r)
    ensures SortedBy(r, key)
  {
    forall i, j | 0 <= i < j < |r|
      ensures key(r[i]) <= key(r[j])
    {
      InsertedPair(s, x, p, key, r, i, j);
    }
  }

  /** It adds x and nothing else. */
  lemma InsertedBag<T>(s: seq<T>, x: T, p: nat, key: T -> int, r: seq<T>)
    requires InsertedAt(s, x, p, key, r)
    ensures multiset(r) == multiset(s) + multiset{x}
  {
    assert r == s[..p] + [x] + s[p..];
    assert s == s[..p] + s[p..];
  }

  lemma InsertedPair<T>(s: seq<T>, x: T, p: nat, key: T -> int, r: seq<T>, i: nat, j: nat)
    requires SortedBy(s, key) && InsertedAt(s, x, p, key, r) && i < j < |r|
    ensures key(r[i]) <= key(r[j])
  {
    if i == p {
      assert r[j] == s[j - 1];
      assert p == j - 1 || key(s[p]) <= key(s[j - 1]);
    }
  }

  class Node<T(0)> {
    const slots: array<T>
    const key: T -> int
    const invalid: T
    var used: nat

    ghost predicate Valid()
      reads this, slots
    {
      && used <= slots.Length
      && forall i :: used <= i < slots.Length ==> slots[i] == invalid
    }

    ghost function Contents(): seq<T>
      requires used <= slots.Length
      reads this, slots
    {
      slots[..used]
    }

    constructor (capacity: nat, key: T -> int, invalid: T)
      ensures Valid() && Contents() == [] && slots.Length == capacity && fresh(slots)
      ensures this.key == key && this.invalid == invalid
    {
      this.key, this.invalid, used := key, invalid, 0;
      slots := new T[capacity](_ => invalid);
    }

    /** Number of leading items not greater than x. */
    method Position(x: T) returns (p: nat)
      requires used <= slots.Length
      ensures p <= used && (forall i :: 0 <= i < p ==> key(slots[i]) <= key(x))
      ensures p < used ==> key(x) < key(slots[p])
    {
      p := 0;
      while p < used && key(x) >= key(slots[p])
        invariant p <= used && (forall i :: 0 <= i < p ==> key(slots[i]) <= key(x))
      {
        p := p + 1;
      }
    }

    /** Moves the items from p on one slot up. */
    method ShiftUp(p: nat)
      requires p <= used < slots.Length
      modifies slots
      ensures forall i :: 0 <= i < p ==> slots[i] == old(slots[i])
      ensures forall i :: p < i <= used ==> slots[i] == old(slots[i - 1])
      ensures forall i :: used < i < slots.Length ==> slots[i] == old(slots[i])
    {
      var j := used;
      while j > p
        invariant p <= j <= used
        invariant forall i :: 0 <= i <= j ==> slots[i] == old(slots[i])
        invariant forall i :: j < i <= used ==> slots[i] == old(slots[i - 1])
        invariant forall i :: used < i < slots.Length ==> slots[i] == old(slots[i])
      {
        slots[j] := slots[j - 1];
        j := j - 1;
      }
    }

    /** Insert behind equal keys; refused when the node is full. */
    method Insert(x: T) returns (ok: bool, ghost p: nat)
      requires Valid()
      modifies this, slots
      ensures Valid() && (ok <==> old(used) < slots.Length)
      ensures ok ==> InsertedAt(old(Contents()), x, p, key, Contents())
      ensures !ok ==> Contents() == old(Contents())
    {
      p := 0;
      if used >= slots.Length {
        return false, 0;
      }
      var pos := Position(x);
      p := pos;
      ShiftUp(pos);
      slots[pos] := x;
      used := used + 1;
      ok := true;
    }

    /** Moves the items from `from` on to the empty node `right`. */
    method MoveTail(right: Node<T>, from: nat)
      requires Valid() && used == slots.Length && from <= used
      requires right.Valid() && right.used == 0 && right.slots.Length == slots.Length
      requires right != this && right.slots != slots
      modifies this, slots, right, right.slots
      ensures Valid() && right.Valid()
      ensures Contents() == old(Contents())[..from]
      ensures right.Contents() == old(Contents())[from..]
    {
      ghost var was := slots[..];
      var i := from;
      while i < slots.Length
        invariant from <= i <= slots.Length && used == slots.Length && right.used == 0
        invariant forall k :: 0 <= k < from ==> slots[k] == was[k]
        invariant forall k :: from <= k < i ==> slots[k] == invalid && right.slots[k - from] == was[k]
        invariant forall k :: i <= k < slots.Length ==> slots[k] == was[k]
        invariant forall k :: i - from <= k < right.slots.Length ==> right.slots[k] == right.invalid
      {
        right.slots[i - from] := slots[i];
        slots[i] := invalid;
        i := i + 1;
      }
      right.used := slots.Length - from;
      used := from;
      assert right.Contents() == was[from..];
    }

    /** Splits a full node around a new item: the two nodes together hold the
        stable insertion, each at least half, and the first key of the right
        node separates them.  A node that is not full is left alone. */
    method SplitInsert(right: Node<T>, x: T) returns (separator: int, ghost p: nat)
      requires Valid() && slots.Length >= 2 && SortedBy(Contents(), key)
      requires right.Valid() && right.used == 0 && right.slots.Length == slots.Length && right.key == key
      requires right != this && right.slots != slots
      modifies this, slots, right, right.slots
      ensures Valid() && right.Valid()
      ensures old(used) != slots.Length ==>
                separator == key(x) && Contents() == old(Contents()) && right.Contents() == []
      ensures old(used) == slots.Length ==>
                && InsertedAt(old(Contents()), x, p, key, Contents() + right.Contents())
                && 2 * used >= slots.Length && 2 * right.used >= slots.Length
                && right.used > 0 && separator == key(right.Contents()[0])
    {
      p := 0;
      var cap := slots.Length;
      if used != cap {
        separator := key(x);
        return;
      }
      ghost var was := Contents();
      if key(x) < key(slots[cap / 2]) {
        MoveTail(right, cap / 2);
        var ok;
        ok, p := Insert(x);
        JoinLeft(was, cap / 2, x, p, key, Contents());
      } else {
        var from := cap - cap / 2;
        MoveTail(right, from);
        ghost var q;
        var ok;
        ok, q := right.Insert(x);
        p := from + q;
        JoinRight(was, from, x, q, key, right.Contents());
      }
      separator := key(right.slots[0]);
    }
  }

  /** Inserting into the left part of a sorted sequence is inserting into the whole. */
  lemma JoinLeft<T>(s: seq<T>, m: nat, x: T, p: nat, key: T -> int, left: seq<T>)
    requires m < |s| && SortedBy(s, key) && key(x) < key(s[m])
    requires InsertedAt(s[..m], x, p, key, left)
    ensures InsertedAt(s, x, p, key, left + s[m..])
  {
    var r := left + s[m..];
    forall i | p < i < |r|
      ensures r[i] == s[i - 1]
    {
    }
  }

  /** And so is inserting into the right part. */
  lemma JoinRight<T>(s: seq<T>, m: nat, x: T, q: nat, key: T -> int, right: seq<T>)
    requires 0 < m <= |s| && SortedBy(s, key) && key(s[m - 1]) <= key(x)
    requires InsertedAt(s[m..], x, q, key, right)
    ensures InsertedAt(s, x, m + q, key, s[..m] + right)
  {
    var r := s[..m] + right;
    forall i | 0 <= i < m + q
      ensures r[i] == s[i] && key(s[i]) <= key(x)
    {
      if i >= m {
        assert s[m..][i - m] == s[i];
      }
    }
    forall i | m + q < i < |r|
      ensures r[i] == s[i - 1]
    {
      assert r[i] == right[i - m];
    }
  }
}
