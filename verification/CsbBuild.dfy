/** The levels the bulk loader builds, as functions of its input, and why
    stacking them gives a well-formed index. */
module CsbBuild {
  import opened CsbLayout
  import opened CsbTree

  ghost predicate Positive(sizes: seq<nat>) {
    sizes != [] && forall g :: 0 <= g < |sizes| ==> sizes[g] > 0
  }

  lemma PieceInside(sizes: seq<nat>, j: nat)
    requires j < |sizes| && sizes[j] > 0
    ensures Pre(sizes, j) < Pre(sizes, j + 1) == Pre(sizes, j) + sizes[j] <= Sum(sizes)
  {
    PreMono(sizes, j + 1, |sizes|);
  }

  lemma LevelSizes(level: Level)
    requires Positive(Sizes(level)) || NoEmptyGroup(level)
    ensures Positive(Sizes(level)) && NoEmptyGroup(level) && Count(level) >= |level| > 0
  {
    forall g | 0 <= g < |level|
      ensures Sizes(level)[g] > 0 && level[g] != []
    {
      assert NoEmptyGroup(level) ==> level[g] != [];
      assert |level[g]| == Sizes(level)[g];
    }
    PrePositive(Sizes(level), |level|);
  }

  lemma {:induction false} PrePositive(sizes: seq<nat>, j: nat)
    requires Positive(sizes) && j <= |sizes|
    ensures Pre(sizes, j) >= j
  {
    if j > 0 {
      PrePositive(sizes, j - 1);
    }
  }

  // ----- the leaf level -----

  /** Leaf nodes of the given sizes over the entries. */
  ghost predicate LeafNodes(es: seq<Entry>, sizes: seq<nat>, ns: seq<Node>)
    requires Sum(sizes) == |es|
  {
    |ns| == |sizes| && forall f :: 0 <= f < |ns| ==> ns[f] == Leaf(Piece(es, sizes, f))
  }

  /** First keys of all leaves but the first. */
  ghost predicate LeafKeys(es: seq<Entry>, sizes: seq<nat>, keys: seq<int>)
    requires Sum(sizes) == |es| && Positive(sizes)
  {
    && |keys| + 1 == |sizes|
    && forall f :: 0 <= f < |keys| ==> (PieceInside(sizes, f + 1); keys[f] == es[Pre(sizes, f + 1)].key)
  }

  lemma LeafLevelShape(lv: Level, es: seq<Entry>, sizes: seq<nat>)
    requires Sum(sizes) == |es| && Positive(sizes) && Positive(Sizes(lv))
    requires LeafNodes(es, sizes, Flatten(lv))
    ensures Shaped([lv]) && LeafDatas(lv) == Cut(es, sizes) && Content(lv) == es
  {
    LevelSizes(lv);
    FlattenCut(es, sizes);
    LeafDatasAre(Flatten(lv), es, sizes);
    assert LeafDatas(lv) == Cut(es, sizes);
  }

  lemma LeafDatasAre(ns: seq<Node>, es: seq<Entry>, sizes: seq<nat>)
    requires Sum(sizes) == |es| && Positive(sizes) && LeafNodes(es, sizes, ns)
    ensures forall f :: 0 <= f < |ns| ==> ns[f].Leaf? && ns[f].datas != [] && ns[f].datas == Cut(es, sizes)[f]
  {
    forall f | 0 <= f < |ns|
      ensures ns[f].Leaf? && ns[f].datas != [] && ns[f].datas == Cut(es, sizes)[f]
    {
      assert ns[f] == Leaf(Piece(es, sizes, f)) && sizes[f] > 0;
    }
  }

  lemma LeafLevelOk(lv: Level, es: seq<Entry>, sizes: seq<nat>, keys: seq<int>)
    requires Sum(sizes) == |es| && Positive(sizes) && Positive(Sizes(lv))
    requires LeafNodes(es, sizes, Flatten(lv)) && LeafKeys(es, sizes, keys)
    ensures Shaped([lv]) && Separated([lv]) && Content(lv) == es && TopKeys([lv], keys)
  {
    LeafLevelShape(lv, es, sizes);
    FlattenCut(es, sizes);
    forall f | 0 <= f < |keys|
      ensures keys[f] == KeyAt([lv], 0, f + 1)
    {
      PieceInside(sizes, f + 1);
      assert StartOf([lv], 0, f + 1) == Pre(sizes, f + 1);
    }
  }

  // ----- the inner levels -----

  /** One node for each group below: its keys are the group's first keys but the first. */
  ghost function InnerNode(keys: seq<int>, below: seq<nat>, j: nat): (n: Node)
    requires |keys| + 1 == Sum(below) && j < |below| && below[j] > 0
    ensures n.Inner? && |n.keys| == below[j] - 1
  {
    PieceInside(below, j);
    Inner(keys[Pre(below, j)..Pre(below, j + 1) - 1])
  }

  ghost predicate InnerNodes(keys: seq<int>, below: seq<nat>, ns: seq<Node>)
    requires |keys| + 1 == Sum(below) && Positive(below)
  {
    |ns| == |below| && forall j :: 0 <= j < |ns| ==> ns[j] == InnerNode(keys, below, j)
  }

  /** The key between two neighbouring nodes goes up. */
  ghost predicate UpKeys(keys: seq<int>, below: seq<nat>, up: seq<int>)
    requires |keys| + 1 == Sum(below) && Positive(below)
  {
    && |up| + 1 == |below|
    && forall j :: 0 <= j < |up| ==> up[j] == UpKey(keys, below, j)
  }

  ghost function UpKey(keys: seq<int>, below: seq<nat>, j: nat): int
    requires |keys| + 1 == Sum(below) && j + 1 < |below| && Positive(below)
  {
    PieceInside(below, j);
    PieceInside(below, j + 1);
    keys[Pre(below, j + 1) - 1]
  }

  /** Putting the next inner level on a correct stack keeps it correct, and the
      keys that went up are the first keys of the new top level. */
  lemma AddLevel(levels: seq<Level>, keys: seq<int>, lv: Level, below: seq<nat>, upKeys: seq<int>)
    requires Shaped(levels) && Separated(levels) && TopKeys(levels, keys)
    requires below == Sizes(levels[|levels| - 1]) && Positive(below) && Positive(Sizes(lv))
    requires InnerNodes(keys, below, Flatten(lv)) && UpKeys(keys, below, upKeys)
    ensures var up := levels + [lv];
            Shaped(up) && Separated(up) && TopKeys(up, upKeys)
  {
    var up := levels + [lv];
    AddLevelShaped(levels, keys, lv, below);
    assert forall k :: 0 <= k < |levels| ==> up[k] == levels[k];
    forall l, j | 1 <= l < |up| && 0 <= j < Count(up[l])
      ensures Separates(up, l, j)
    {
      if l < |levels| {
        OldLevelSeparates(levels, lv, l, j);
      } else {
        NewLevelSeparates(levels, keys, lv, below, j);
      }
    }
    forall j | 0 <= j < |upKeys|
      ensures upKeys[j] == KeyAt(up, |levels|, j + 1)
    {
      NewLevelKeyAt(levels, keys, lv, below, j);
    }
  }

  lemma AddLevelShaped(levels: seq<Level>, keys: seq<int>, lv: Level, below: seq<nat>)
    requires Shaped(levels) && |keys| + 1 == Sum(below)
    requires below == Sizes(levels[|levels| - 1]) && Positive(below) && Positive(Sizes(lv))
    requires InnerNodes(keys, below, Flatten(lv))
    ensures Shaped(levels + [lv])
  {
    LevelSizes(lv);
    assert AllInner(lv) && Count(lv) == |below|;
  }

  lemma OldLevelSeparates(levels: seq<Level>, lv: Level, l: nat, j: nat)
    requires Shaped(levels) && Shaped(levels + [lv]) && 1 <= l < |levels| && j < Count(levels[l])
    requires Separates(levels, l, j)
    ensures j < Count((levels + [lv])[l]) && Separates(levels + [lv], l, j)
  {
    var up := levels + [lv];
    assert up[l] == levels[l] && up[l - 1] == levels[l - 1];
    var low := levels[l - 1];
    var node := Flatten(levels[l])[j];
    forall k | 0 <= k < |node.keys|
      ensures Off(low, j) + k + 1 < Count(low)
      ensures node.keys[k] == KeyAt(up, l - 1, Off(low, j) + k + 1)
    {
      OffInside(low, j, k + 1);
      KeyAtExtend(levels, lv, l - 1, Off(low, j) + k + 1);
    }
  }

  lemma InnerKey(keys: seq<int>, below: seq<nat>, j: nat, k: nat)
    requires |keys| + 1 == Sum(below) && Positive(below) && j < |below| && k + 1 < below[j]
    ensures Pre(below, j) + k < |keys|
    ensures InnerNode(keys, below, j).keys[k] == keys[Pre(below, j) + k]
  {
    PieceInside(below, j);
  }

  lemma NewLevelSeparates(levels: seq<Level>, keys: seq<int>, lv: Level, below: seq<nat>, j: nat)
    requires Shaped(levels) && TopKeys(levels, keys) && Shaped(levels + [lv])
    requires below == Sizes(levels[|levels| - 1]) && Positive(below)
    requires InnerNodes(keys, below, Flatten(lv)) && j < Count(lv)
    ensures Separates(levels + [lv], |levels|, j)
  {
    var up := levels + [lv];
    var l := |levels|;
    var low := up[l - 1];
    assert up[l] == lv && low == levels[l - 1];
    var node := Flatten(lv)[j];
    forall k | 0 <= k < |node.keys|
      ensures Off(low, j) + k + 1 < Count(low)
      ensures node.keys[k] == KeyAt(up, l - 1, Off(low, j) + k + 1)
    {
      NewSeparator(levels, keys, lv, below, j, k);
    }
  }

  lemma NewSeparator(levels: seq<Level>, keys: seq<int>, lv: Level, below: seq<nat>, j: nat, k: nat)
    requires Shaped(levels) && TopKeys(levels, keys) && Shaped(levels + [lv])
    requires below == Sizes(levels[|levels| - 1]) && Positive(below) && j < |below| && k + 1 < below[j]
    ensures Pre(below, j) + k + 1 < Count(levels[|levels| - 1]) == Count((levels + [lv])[|levels| - 1])
    ensures InnerNode(keys, below, j).keys[k] == KeyAt(levels + [lv], |levels| - 1, Pre(below, j) + k + 1)
  {
    InnerKey(keys, below, j, k);
    KeyAtExtend(levels, lv, |levels| - 1, Pre(below, j) + k + 1);
  }

  lemma NewLevelKeyAt(levels: seq<Level>, keys: seq<int>, lv: Level, below: seq<nat>, j: nat)
    requires Shaped(levels) && TopKeys(levels, keys) && Shaped(levels + [lv])
    requires below == Sizes(levels[|levels| - 1]) && Positive(below)
    requires j + 1 < |below|
    ensures j + 1 < Count((levels + [lv])[|levels|])
    ensures UpKey(keys, below, j) == KeyAt(levels + [lv], |levels|, j + 1)
  {
    var up := levels + [lv];
    var n := |levels|;
    var low := levels[n - 1];
    assert up[n - 1] == low && up[n] == lv && Count(lv) == |low|;
    PieceInside(below, j);
    PieceInside(below, j + 1);
    var f := Off(low, j + 1);
    StartExtend(levels, lv, n - 1, f);
    assert keys[f - 1] == KeyAt(levels, n - 1, f);
  }

  // ----- occupancy -----

  /** Sizes within a capacity and, when there are several, at least h. */
  ghost predicate Within(sizes: seq<nat>, cap: nat, h: nat) {
    && (forall j :: 0 <= j < |sizes| ==> sizes[j] <= cap)
    && (|sizes| >= 2 ==> forall j :: 0 <= j < |sizes| ==> sizes[j] >= h)
  }

  lemma SumSingle(sizes: seq<nat>)
    ensures |sizes| == 1 ==> Sum(sizes) == sizes[0]
  {
    if |sizes| == 1 {
      assert Pre(sizes, 1) == Pre(sizes, 0) + sizes[0];
    }
  }

  lemma LeafLevelFits(lv: Level, es: seq<Entry>, sizes: seq<nat>, maxKeys: nat, maxDatas: nat)
    requires Sum(sizes) == |es| && Within(sizes, maxDatas, maxDatas / 2)
    requires LeafNodes(es, sizes, Flatten(lv)) && Within(Sizes(lv), maxKeys + 1, maxKeys / 2 + 1)
    ensures LevelFits(lv, maxKeys, maxDatas)
    ensures |sizes| >= 2 ==> LevelHalfFull(lv, maxKeys, maxDatas)
  {
    GroupsFit(lv, maxKeys);
  }

  lemma GroupsFit(lv: Level, maxKeys: nat)
    requires Within(Sizes(lv), maxKeys + 1, maxKeys / 2 + 1)
    ensures forall g :: 0 <= g < |lv| ==> |lv[g]| <= maxKeys + 1
  {
    forall g | 0 <= g < |lv|
      ensures |lv[g]| <= maxKeys + 1
    {
      assert |lv[g]| == Sizes(lv)[g];
    }
  }

  /** A node over a group of at least two and at most maxKeys + 1 nodes fits; when
      the level below has several groups it is half full too. */
  lemma InnerLevelFits(keys: seq<int>, lv: Level, below: seq<nat>, maxKeys: nat, maxDatas: nat)
    requires |keys| + 1 == Sum(below) && Positive(below) && Within(below, maxKeys + 1, maxKeys / 2 + 1)
    requires Sum(below) >= 2 && maxKeys >= 2
    requires InnerNodes(keys, below, Flatten(lv)) && Within(Sizes(lv), maxKeys + 1, maxKeys / 2 + 1)
    ensures LevelFits(lv, maxKeys, maxDatas)
    ensures |below| >= 2 ==> LevelHalfFull(lv, maxKeys, maxDatas)
  {
    GroupsFit(lv, maxKeys);
    SumSingle(below);
  }
}
