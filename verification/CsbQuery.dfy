/** Point and range queries: descend by separators, then walk the leaf list. */
module CsbQuery {
  import opened CsbLayout
  import opened CsbTree

  // ----- the reference: filter the entries, then group them by block -----

  datatype Range = Range(lo: int, openLo: bool, hi: int, openHi: bool)

  predicate AboveLo(r: Range, k: int) { if r.openLo then r.lo < k else r.lo <= k }

  predicate BelowHi(r: Range, k: int) { if r.openHi then k < r.hi else k <= r.hi }

  predicate InRange(r: Range, k: int) { AboveLo(r, k) && BelowHi(r, k) }

  /** The entries whose key lies in the range, in order. */
  function Select(es: seq<Entry>, r: Range): seq<Entry> { SelectTo(es, |es|, r) }

  function SelectTo(es: seq<Entry>, n: nat, r: Range): seq<Entry>
    requires n <= |es|
  {
    if n == 0 then []
    else SelectTo(es, n - 1, r) + if InRange(r, es[n - 1].key) then [es[n - 1]] else []
  }

  /** One more tuple offset under its block offset. */
  function Add(m: map<nat, seq<nat>>, e: Entry): map<nat, seq<nat>> {
    m[e.block := (if e.block in m then m[e.block] else []) + [e.tuple]]
  }

  function Collect(es: seq<Entry>): map<nat, seq<nat>> {
    if es == [] then map[] else Add(Collect(es[..|es| - 1]), es[|es| - 1])
  }

  /** Tuple offsets of one block, in order. */
  function TuplesOf(es: seq<Entry>, block: nat): seq<nat> {
    if es == [] then []
    else TuplesOf(es[..|es| - 1], block) + if es[|es| - 1].block == block then [es[|es| - 1].tuple] else []
  }

  /** A collected answer holds exactly the blocks that occur, each with its tuples in order. */
  lemma {:induction false} CollectLaw(es: seq<Entry>)
    ensures forall b :: b in Collect(es) <==> TuplesOf(es, b) != []
    ensures forall b :: b in Collect(es) ==> Collect(es)[b] == TuplesOf(es, b)
  {
    if es != [] {
      CollectLaw(es[..|es| - 1]);
    }
  }

  lemma CollectStep(es: seq<Entry>, p: nat, q: nat)
    requires p <= q < |es|
    ensures Collect(es[p..q + 1]) == Add(Collect(es[p..q]), es[q])
  {
    assert es[p..q + 1][..q - p] == es[p..q];
  }

  /** When the range lies in es[p..q], that is what the filter selects. */
  lemma SelectIs(es: seq<Entry>, r: Range, p: nat, q: nat)
    requires p <= q <= |es|
    requires forall x :: 0 <= x < |es| ==> (InRange(r, es[x].key) <==> p <= x < q)
    ensures Select(es, r) == es[p..q]
  {
    SelectToIs(es, |es|, r, p, q);
  }

  lemma {:induction false} SelectToIs(es: seq<Entry>, n: nat, r: Range, p: nat, q: nat)
    requires p <= q <= |es| && n <= |es|
    requires forall x :: 0 <= x < |es| ==> (InRange(r, es[x].key) <==> p <= x < q)
    ensures SelectTo(es, n, r) == if n <= p then [] else if n <= q then es[p..n] else es[p..q]
  {
    if n > 0 {
      SelectToIs(es, n - 1, r, p, q);
      if p < n <= q {
        assert es[p..n] == es[p..n - 1] + [es[n - 1]];
      }
    }
  }

  /** A scan that starts after everything too small and stops at the first entry
      out of range has seen exactly the range. */
  lemma ScanIs(es: seq<Entry>, r: Range, p: nat, q: nat)
    requires KeySorted(es) && p <= q <= |es|
    requires forall x :: 0 <= x < p ==> !InRange(r, es[x].key)
    requires forall x :: p <= x < |es| ==> AboveLo(r, es[x].key)
    requires forall x :: p <= x < q ==> InRange(r, es[x].key)
    requires q < |es| ==> !InRange(r, es[q].key)
    ensures Select(es, r) == es[p..q]
  {
    forall x | 0 <= x < |es|
      ensures InRange(r, es[x].key) <==> p <= x < q
    {
      if x > q {
        assert es[q].key <= es[x].key;
      }
    }
    SelectIs(es, r, p, q);
  }

  /** In a sorted array the entries of a range are a run. */
  lemma RangeIsRun(es: seq<Entry>, r: Range) returns (p: nat, q: nat)
    requires KeySorted(es)
    ensures p <= q <= |es| && Select(es, r) == es[p..q]
    ensures forall x :: 0 <= x < |es| ==> (p <= x < q <==> InRange(r, es[x].key))
  {
    p := 0;
    while p < |es| && !InRange(r, es[p].key)
      invariant p <= |es| && forall x :: 0 <= x < p ==> !InRange(r, es[x].key)
    {
      p := p + 1;
    }
    q := p;
    while q < |es| && InRange(r, es[q].key)
      invariant p <= q <= |es| && forall x :: p <= x < q ==> InRange(r, es[x].key)
    {
      q := q + 1;
    }
    forall x | 0 <= x < |es| ensures p <= x < q <==> InRange(r, es[x].key) {
      if q < x && p < q {
        assert es[p].key <= es[q].key <= es[x].key;
      }
    }
    SelectIs(es, r, p, q);
  }

  // ----- positions of leaves in the content -----

  ghost function PosOf(level: Level, g: nat, j: nat): nat
    requires AllLeaves(level) && g <= |level| && Off(level, g) + j <= Count(level)
  {
    Pre(Sizes(LeafDatas(level)), Off(level, g) + j)
  }

  lemma LeafAt(level: Level, g: nat, j: nat)
    requires AllLeaves(level) && g < |level| && j < |level[g]|
    ensures level[g][j].Leaf? && Off(level, g) + j < Count(level)
    ensures PosOf(level, g, j) + |level[g][j].datas| == PosOf(level, g, j + 1) <= |Content(level)|
    ensures forall i :: 0 <= i < |level[g][j].datas| ==>
              Content(level)[PosOf(level, g, j) + i] == level[g][j].datas[i]
  {
    OffInside(level, g, j);
    FlattenAt(level, g, j);
    var f := Off(level, g) + j;
    var ds := LeafDatas(level);
    assert ds[f] == level[g][j].datas;
    PreMono(Sizes(ds), f + 1, |ds|);
    forall i | 0 <= i < |ds[f]|
      ensures Content(level)[PosOf(level, g, j) + i] == ds[f][i]
    {
      FlattenAt(ds, f, i);
    }
  }

  // ----- the walk -----

  /** The scan of es from p0 has reached p; all of it is in range and collected. */
  ghost predicate Scanned(es: seq<Entry>, r: Range, p0: nat, p: nat, ret: map<nat, seq<nat>>) {
    && p0 <= p <= |es|
    && (forall x :: p0 <= x < p ==> InRange(r, es[x].key))
    && ret == Collect(es[p0..p])
  }

  /** Scans one leaf from entry i on; stopped when it met an entry out of range. */
  method ScanNode(datas: seq<Entry>, r: Range, i0: nat, ret0: map<nat, seq<nat>>, ghost es: seq<Entry>, ghost p0: nat, ghost pos: nat)
    returns (ret: map<nat, seq<nat>>, stopped: bool, ghost p: nat)
    requires i0 <= |datas| && pos + |datas| <= |es|
    requires forall i :: 0 <= i < |datas| ==> es[pos + i] == datas[i]
    requires Scanned(es, r, p0, pos + i0, ret0)
    ensures Scanned(es, r, p0, p, ret)
    ensures if stopped then p < pos + |datas| && !InRange(r, es[p].key) else p == pos + |datas|
  {
    ret, stopped, p := ret0, false, pos + i0;
    var i := i0;
    while i < |datas|
      invariant i0 <= i <= |datas| && p == pos + i && Scanned(es, r, p0, p, ret)
    {
      assert es[pos + i] == datas[i];
      if InRange(r, datas[i].key) {
        CollectStep(es, p0, p);
        ret := Add(ret, datas[i]);
      } else {
        stopped := true;
        return;
      }
      i, p := i + 1, p + 1;
    }
  }

  /** The scan stands at entry i of node j of group g; past the last node, at the next group. */
  ghost predicate At(level: Level, r: Range, p0: nat, g: nat, j: nat, i: nat, p: nat, ret: map<nat, seq<nat>>)
    requires AllLeaves(level)
  {
    && g < |level| && j <= |level[g]| && Off(level, g) + j <= Count(level)
    && (if j < |level[g]| then IsLeafAt(level, g, j) && i <= |level[g][j].datas| else i == 0)
    && p == PosOf(level, g, j) + i && Scanned(Content(level), r, p0, p, ret)
  }

  /** Scans node j from entry i on. */
  method ScanNodeOf(level: Level, g: nat, r: Range, j: nat, i: nat, ret0: map<nat, seq<nat>>, ghost p0: nat, ghost q: nat)
    returns (ret: map<nat, seq<nat>>, stopped: bool, ghost p: nat)
    requires AllLeaves(level) && At(level, r, p0, g, j, i, q, ret0) && j < |level[g]|
    ensures stopped ==> Scanned(Content(level), r, p0, p, ret) && p < |Content(level)| && !InRange(r, Content(level)[p].key)
    ensures !stopped ==> At(level, r, p0, g, j + 1, 0, p, ret)
  {
    LeafAt(level, g, j);
    ret, stopped, p := ScanNode(level[g][j].datas, r, i, ret0, Content(level), p0, PosOf(level, g, j));
    if j + 1 < |level[g]| {
      LeafAt(level, g, j + 1);
    }
  }

  /** Scans the nodes of one group from node j, entry i on. */
  method ScanGroup(level: Level, g: nat, r: Range, j0: nat, i0: nat, ret0: map<nat, seq<nat>>, ghost p0: nat, ghost q: nat)
    returns (ret: map<nat, seq<nat>>, stopped: bool, ghost p: nat)
    requires AllLeaves(level) && At(level, r, p0, g, j0, i0, q, ret0)
    ensures stopped ==> Scanned(Content(level), r, p0, p, ret) && p < |Content(level)| && !InRange(r, Content(level)[p].key)
    ensures !stopped ==> At(level, r, p0, g, |level[g]|, 0, p, ret)
  {
    hide Scanned, PosOf, AllLeaves;
    ret, stopped, p := ret0, false, q;
    var j: nat, i: nat := j0, i0;
    while j < |level[g]|
      invariant At(level, r, p0, g, j, i, p, ret)
    {
      ret, stopped, p := ScanNodeOf(level, g, r, j, i, ret, p0, p);
      if stopped {
        return;
      }
      j, i := j + 1, 0;
    }
  }

  ghost predicate IsLeafAt(level: Level, g: nat, j: nat) {
    g < |level| && j < |level[g]| && level[g][j].Leaf? && Off(level, g) + j < Count(level)
  }

  /** The walk stands in a group, or has left the list with everything scanned. */
  ghost predicate WalkAt(level: Level, r: Range, p0: nat, group: GroupRef, j: nat, i: nat, q: nat, ret: map<nat, seq<nat>>)
    requires AllLeaves(level)
  {
    if group == NullGroup then Scanned(Content(level), r, p0, q, ret) && q == |Content(level)|
    else group.level == 0 && At(level, r, p0, group.group, j, i, q, ret)
  }

  /** Scans one group and follows its tail link. */
  method WalkGroup(level: Level, tailer: map<GroupRef, GroupRef>, r: Range, group: GroupRef, j: nat, i: nat, ret0: map<nat, seq<nat>>,
                   ghost p0: nat, ghost q0: nat)
    returns (ret: map<nat, seq<nat>>, stopped: bool, next: GroupRef, ghost q: nat)
    requires AllLeaves(level) && NoEmptyGroup(level) && Tailed(|level|, tailer)
    requires group != NullGroup && WalkAt(level, r, p0, group, j, i, q0, ret0)
    ensures stopped ==> Scanned(Content(level), r, p0, q, ret) && q < |Content(level)| && !InRange(r, Content(level)[q].key)
    ensures !stopped ==> WalkAt(level, r, p0, next, 0, 0, q, ret)
    ensures next.GroupRef? ==> next.group == group.group + 1 < |level|
  {
    ret, stopped, q := ScanGroup(level, group.group, r, j, i, ret0, p0, q0);
    next := NullGroup;
    if !stopped {
      WalkNext(level, tailer, r, p0, group, q, ret);
      next := tailer[group];
    }
  }

  lemma WalkNext(level: Level, tailer: map<GroupRef, GroupRef>, r: Range, p0: nat, group: GroupRef, q: nat, ret: map<nat, seq<nat>>)
    requires AllLeaves(level) && NoEmptyGroup(level) && Tailed(|level|, tailer)
    requires group.GroupRef? && group.level == 0 && group.group < |level|
    requires At(level, r, p0, group.group, |level[group.group]|, 0, q, ret)
    ensures group in tailer && WalkAt(level, r, p0, tailer[group], 0, 0, q, ret)
    ensures tailer[group].GroupRef? ==> tailer[group].group == group.group + 1 < |level|
  {
    TailOf(|level|, tailer, group);
    MoveOn(level, r, p0, group.group, q, ret);
  }

  /** Follows the tail links from a group to the end of the list or the first
      entry out of range. */
  method Walk(level: Level, tailer: map<GroupRef, GroupRef>, r: Range, g0: nat, j0: nat, i0: nat, ghost p0: nat)
    returns (ret: map<nat, seq<nat>>, ghost q: nat)
    requires AllLeaves(level) && NoEmptyGroup(level) && Tailed(|level|, tailer)
    requires IsLeafAt(level, g0, j0) && i0 <= |level[g0][j0].datas|
    requires p0 == PosOf(level, g0, j0) + i0 <= |Content(level)|
    ensures Scanned(Content(level), r, p0, q, ret)
    ensures q < |Content(level)| ==> !InRange(r, Content(level)[q].key)
  {
    ret, q := map[], p0;
    assert Content(level)[p0..p0] == [];
    var group, j: nat, i: nat := GroupRef(0, g0), j0, i0;
    while group != NullGroup
      invariant WalkAt(level, r, p0, group, j, i, q, ret)
      decreases if group.GroupRef? then |level| - group.group else 0
    {
      var stopped;
      ret, stopped, group, q := WalkGroup(level, tailer, r, group, j, i, ret, p0, q);
      if stopped {
        return;
      }
      j, i := 0, 0;
    }
  }

  /** Past the last node of a group the scan is at the next group, or done. */
  lemma MoveOn(level: Level, r: Range, p0: nat, g: nat, p: nat, ret: map<nat, seq<nat>>)
    requires AllLeaves(level) && NoEmptyGroup(level) && g < |level| && At(level, r, p0, g, |level[g]|, 0, p, ret)
    ensures if g + 1 < |level| then At(level, r, p0, g + 1, 0, 0, p, ret)
            else Scanned(Content(level), r, p0, p, ret) && p == |Content(level)|
  {
    NextLeafGroup(level, g);
  }

  lemma TailOf(n: nat, tailer: map<GroupRef, GroupRef>, group: GroupRef)
    requires Tailed(n, tailer) && group.GroupRef? && group.level == 0 && group.group < n
    ensures group in tailer && tailer[group] == if group.group + 1 == n then NullGroup else GroupRef(0, group.group + 1)
  {
    assert IsLeafGroup(n, group);
  }

  lemma NextLeafGroup(level: Level, g: nat)
    requires AllLeaves(level) && NoEmptyGroup(level) && g < |level|
    ensures if g + 1 < |level| then IsLeafAt(level, g + 1, 0)
            else Off(level, g + 1) == Count(level) && PosOf(level, g + 1, 0) == |Content(level)|
  {
    if g + 1 < |level| {
      LeafAt(level, g + 1, 0);
    }
  }

  // ----- the descent -----

  ghost function EndOf(levels: seq<Level>, l: nat, f: nat): nat
    requires Shaped(levels) && l < |levels| && f < Count(levels[l])
  {
    if f + 1 < Count(levels[l]) then StartOf(levels, l, f + 1) else |Content(levels[0])|
  }

  /** Everything before the subtree of node f is too small; everything after it is not. */
  ghost predicate Between(levels: seq<Level>, r: Range, l: nat, f: nat)
    requires Shaped(levels) && l < |levels| && f < Count(levels[l])
  {
    var es := Content(levels[0]);
    && (forall x :: 0 <= x < |es| && x < StartOf(levels, l, f) ==> !AboveLo(r, es[x].key))
    && (forall x :: EndOf(levels, l, f) <= x < |es| ==> AboveLo(r, es[x].key))
  }

  lemma {:induction false} FirstStart(levels: seq<Level>, l: nat)
    requires Shaped(levels) && l < |levels| && Count(levels[l]) > 0
    ensures StartOf(levels, l, 0) == 0
  {
    if l > 0 {
      OffInside(levels[l - 1], 0, 0);
      FirstStart(levels, l - 1);
    }
  }

  /** The root is between: nothing lies before or after it. */
  lemma RootBetween(t: Tree, r: Range)
    requires WellFormed(t)
    ensures Count(t.levels[t.depth - 1]) == 1 && Between(t.levels, r, t.depth - 1, 0)
  {
    var top := t.levels[t.depth - 1];
    assert Pre(Sizes(top), 1) == Pre(Sizes(top), 0) + |top[0]|;
    FirstStart(t.levels, t.depth - 1);
  }

  /** Taking the child before the first separator that is not too small keeps the
      search between. */
  lemma DescentStep(levels: seq<Level>, r: Range, l: nat, f: nat, i: nat)
    requires Shaped(levels) && Separated(levels) && KeySorted(Content(levels[0]))
    requires 1 <= l < |levels| && f < Count(levels[l]) && Between(levels, r, l, f)
    requires var keys := Flatten(levels[l])[f].keys;
             && i <= |keys|
             && (forall k :: 0 <= k < i ==> !AboveLo(r, keys[k]))
             && (i < |keys| ==> AboveLo(r, keys[i]))
    ensures i < |levels[l - 1][f]| && Off(levels[l - 1], f) + i < Count(levels[l - 1])
    ensures Between(levels, r, l - 1, Off(levels[l - 1], f) + i)
  {
    assert Separates(levels, l, f);
    OffInside(levels[l - 1], f, i);
    DescentLeft(levels, r, l, f, i);
    DescentRight(levels, r, l, f, i);
  }

  lemma DescentLeft(levels: seq<Level>, r: Range, l: nat, f: nat, i: nat)
    requires Shaped(levels) && KeySorted(Content(levels[0]))
    requires 1 <= l < |levels| && f < Count(levels[l]) && Between(levels, r, l, f) && Separates(levels, l, f)
    requires i < |levels[l - 1][f]| && Off(levels[l - 1], f) + i < Count(levels[l - 1])
    requires i > 0 ==> !AboveLo(r, Flatten(levels[l])[f].keys[i - 1])
    ensures var es := Content(levels[0]);
            forall x :: 0 <= x < |es| && x < StartOf(levels, l - 1, Off(levels[l - 1], f) + i) ==> !AboveLo(r, es[x].key)
  {
    var es := Content(levels[0]);
    var c := Off(levels[l - 1], f) + i;
    StartInside(levels, l - 1, c);
    if i == 0 {
      assert StartOf(levels, l - 1, c) == StartOf(levels, l, f);
    } else {
      assert Flatten(levels[l])[f].keys[i - 1] == KeyAt(levels, l - 1, c);
    }
  }

  lemma DescentRight(levels: seq<Level>, r: Range, l: nat, f: nat, i: nat)
    requires Shaped(levels) && KeySorted(Content(levels[0]))
    requires 1 <= l < |levels| && f < Count(levels[l]) && Between(levels, r, l, f) && Separates(levels, l, f)
    requires i < |levels[l - 1][f]| && Off(levels[l - 1], f) + i < Count(levels[l - 1])
    requires i < |Flatten(levels[l])[f].keys| ==> AboveLo(r, Flatten(levels[l])[f].keys[i])
    ensures var es := Content(levels[0]);
            forall x :: EndOf(levels, l - 1, Off(levels[l - 1], f) + i) <= x < |es| ==> AboveLo(r, es[x].key)
  {
    var es := Content(levels[0]);
    var low := levels[l - 1];
    var c := Off(low, f) + i;
    if i + 1 < |low[f]| {
      OffInside(low, f, i + 1);
      StartInside(levels, l - 1, c + 1);
      assert Flatten(levels[l])[f].keys[i] == KeyAt(levels, l - 1, c + 1);
    } else {
      assert c + 1 == Off(low, f + 1);
      if f + 1 < |low| {
        OffInside(low, f + 1, 0);
      }
      assert EndOf(levels, l - 1, c) == EndOf(levels, l, f);
    }
  }

  /** Least separator that is not too small, or the number of separators. */
  method FindChild(keys: seq<int>, r: Range) returns (i: nat)
    ensures i <= |keys| && (forall k :: 0 <= k < i ==> !AboveLo(r, keys[k]))
    ensures i < |keys| ==> AboveLo(r, keys[i])
  {
    i := 0;
    while i < |keys| && !AboveLo(r, keys[i])
      invariant i <= |keys| && (forall k :: 0 <= k < i ==> !AboveLo(r, keys[k]))
    {
      i := i + 1;
    }
  }

  lemma InnerAt(levels: seq<Level>, node: NodeRef)
    requires Shaped(levels) && IsNode(levels, node) && node.level > 0
    ensures FlatOf(levels, node) < Count(levels[node.level])
    ensures levels[node.level][node.group][node.node].Inner?
    ensures levels[node.level][node.group][node.node] == Flatten(levels[node.level])[FlatOf(levels, node)]
  {
    FlattenAt(levels[node.level], node.group, node.node);
  }

  /** The search has come down to this node. */
  ghost predicate Reached(levels: seq<Level>, r: Range, node: NodeRef, l: nat) {
    && Shaped(levels) && IsNode(levels, node) && node.level == l
    && FlatOf(levels, node) < Count(levels[l])
    && Between(levels, r, l, FlatOf(levels, node))
  }

  lemma StepDown(levels: seq<Level>, father: map<NodeRef, NodeRef>, child: map<NodeRef, GroupRef>, r: Range, node: NodeRef, i: nat)
    requires Shaped(levels) && Separated(levels) && KeySorted(Content(levels[0])) && Linked(levels, father, child)
    requires IsNode(levels, node) && node.level > 0 && Reached(levels, r, node, node.level)
    requires levels[node.level][node.group][node.node].Inner?
    requires var keys := levels[node.level][node.group][node.node].keys;
             && i <= |keys|
             && (forall k :: 0 <= k < i ==> !AboveLo(r, keys[k]))
             && (i < |keys| ==> AboveLo(r, keys[i]))
    ensures node in child && child[node].GroupRef?
    ensures Reached(levels, r, NodeRef(child[node].level, child[node].group, i), node.level - 1)
  {
    InnerAt(levels, node);
    hide Separated, KeySorted, Between, NoEmptyGroup;
    DescentStep(levels, r, node.level, FlatOf(levels, node), i);
    assert node in child && Joined(levels, father, child, node);
  }

  /** From the root down to the leaf where the range begins. */
  method Descend(t: Tree, r: Range) returns (node: NodeRef)
    requires WellFormed(t) && KeySorted(Content(t.levels[0]))
    ensures Reached(t.levels, r, node, 0)
  {
    RootBetween(t, r);
    node := t.root;
    var d := 1;
    while d < t.depth
      invariant 1 <= d <= t.depth && Reached(t.levels, r, node, t.depth - d)
    {
      InnerAt(t.levels, node);
      var i := FindChild(t.levels[node.level][node.group][node.node].keys, r);
      StepDown(t.levels, t.father, t.child, r, node, i);
      node := NodeRef(t.child[node].level, t.child[node].group, i);
      d := d + 1;
    }
  }

  // ----- where the scan starts -----

  lemma LeafBounds(levels: seq<Level>, node: NodeRef)
    requires Shaped(levels) && IsNode(levels, node) && node.level == 0 && FlatOf(levels, node) < Count(levels[0])
    ensures IsLeafAt(levels[0], node.group, node.node)
    ensures StartOf(levels, 0, FlatOf(levels, node)) == PosOf(levels[0], node.group, node.node)
    ensures EndOf(levels, 0, FlatOf(levels, node)) == PosOf(levels[0], node.group, node.node) + |levels[0][node.group][node.node].datas|
  {
    LeafAt(levels[0], node.group, node.node);
  }

  /** Nothing in range before p, nothing too small from p on. */
  ghost predicate StartsAt(es: seq<Entry>, r: Range, p: nat) {
    && p <= |es|
    && (forall x :: 0 <= x < p ==> !InRange(r, es[x].key))
    && (forall x :: p <= x < |es| ==> AboveLo(r, es[x].key))
  }

  /** Skipping the entries of the leaf before i, none of them in range, is a
      right start when entry i is not too small or the leaf is used up. */
  lemma StartFound(levels: seq<Level>, r: Range, node: NodeRef, i: nat)
    requires Reached(levels, r, node, 0) && KeySorted(Content(levels[0]))
    requires IsLeafAt(levels[0], node.group, node.node)
    requires var datas := levels[0][node.group][node.node].datas;
             && i <= |datas|
             && (forall k :: 0 <= k < i ==> !InRange(r, datas[k].key))
             && (i < |datas| ==> AboveLo(r, datas[i].key))
    ensures StartsAt(Content(levels[0]), r, PosOf(levels[0], node.group, node.node) + i)
  {
    LeafBounds(levels, node);
    LeafAt(levels[0], node.group, node.node);
    StartIn(Content(levels[0]), r, PosOf(levels[0], node.group, node.node), levels[0][node.group][node.node].datas, i);
  }

  lemma StartIn(es: seq<Entry>, r: Range, pos: nat, datas: seq<Entry>, i: nat)
    requires KeySorted(es) && pos + |datas| <= |es| && forall k :: 0 <= k < |datas| ==> es[pos + k] == datas[k]
    requires forall x :: 0 <= x < pos ==> !AboveLo(r, es[x].key)
    requires forall x :: pos + |datas| <= x < |es| ==> AboveLo(r, es[x].key)
    requires i <= |datas| && forall k :: 0 <= k < i ==> !InRange(r, datas[k].key)
    requires i < |datas| ==> AboveLo(r, datas[i].key)
    ensures StartsAt(es, r, pos + i)
  {
    forall x | pos <= x < pos + i
      ensures !InRange(r, es[x].key)
    {
      assert es[pos + (x - pos)] == datas[x - pos];
    }
    if i < |datas| {
      assert es[pos + i] == datas[i];
    }
  }

  /** Walking on from the reached leaf, through its father's group. */
  method WalkFrom(t: Tree, r: Range, node: NodeRef, i: nat) returns (ret: map<nat, seq<nat>>)
    requires WellFormed(t) && KeySorted(Content(t.levels[0])) && t.depth >= 2
    requires IsNode(t.levels, node) && node.level == 0 && IsLeafAt(t.levels[0], node.group, node.node)
    requires i <= |t.levels[0][node.group][node.node].datas|
    requires StartsAt(Content(t.levels[0]), r, PosOf(t.levels[0], node.group, node.node) + i)
    ensures ret == Collect(Select(Content(t.levels[0]), r))
  {
    var group := FathersGroup(t, node);
    var j := FindNode(t.levels[0], group, node);
    ghost var p0, q := PosOf(t.levels[0], node.group, node.node) + i, 0;
    ret, q := Walk(t.levels[0], t.tailer, r, group, j, i, p0);
    ScanIs(Content(t.levels[0]), r, p0, q);
  }

  /** search_node->getFather()->getPointer() is the group the leaf lies in. */
  method FathersGroup(t: Tree, node: NodeRef) returns (g: nat)
    requires WellFormed(t) && t.depth >= 2 && IsNode(t.levels, node) && node.level == 0
    ensures g == node.group
  {
    ghost var up := NodeAbove(t.levels, node);
    FatherIs(t.levels, t.father, t.child, node, up);
    assert up in t.child && Joined(t.levels, t.father, t.child, up);
    g := t.child[t.father[node]].group;
  }

  /** The place of a node in its group, by pointer comparison. */
  method FindNode(level: Level, g: nat, node: NodeRef) returns (j: nat)
    requires g < |level| && node.NodeRef? && node.level == 0 && node.group == g && node.node < |level[g]|
    ensures j == node.node
  {
    j := 0;
    while j < |level[g]|
      invariant j <= node.node
    {
      if NodeRef(0, g, j) == node {
        return;
      }
      j := j + 1;
    }
  }

  // ----- a tree that is a single leaf -----

  /** With one leaf, the content is that leaf. */
  lemma OneLeaf(t: Tree)
    requires WellFormed(t) && t.depth == 1
    ensures t.levels[0][0][0].Leaf? && Content(t.levels[0]) == t.levels[0][0][0].datas
    ensures IsLeafAt(t.levels[0], 0, 0) && PosOf(t.levels[0], 0, 0) == 0
    ensures forall r :: Reached(t.levels, r, NodeRef(0, 0, 0), 0)
  {
    OneLeafContent(t.levels[0]);
    forall r
      ensures Reached(t.levels, r, NodeRef(0, 0, 0), 0)
    {
      RootBetween(t, r);
    }
  }

  lemma OneLeafContent(level: Level)
    requires AllLeaves(level) && |level| == 1 && |level[0]| == 1
    ensures level[0][0].Leaf? && IsLeafAt(level, 0, 0) && PosOf(level, 0, 0) == 0
    ensures Content(level) == level[0][0].datas
  {
    LeafAt(level, 0, 0);
    assert FlattenTo(level, 1) == FlattenTo(level, 0) + level[0];
    assert LeafDatas(level) == [level[0][0].datas];
    assert FlattenTo(LeafDatas(level), 1) == FlattenTo(LeafDatas(level), 0) + level[0][0].datas;
  }

  // ----- the queries -----

  /** The first entry of a leaf with the key, or the end of the leaf. */
  method FindKey(datas: seq<Entry>, key: int) returns (i: nat)
    ensures i <= |datas| && (forall k :: 0 <= k < i ==> datas[k].key != key)
    ensures i < |datas| ==> datas[i].key == key
  {
    i := 0;
    while i < |datas|
      invariant i <= |datas| && (forall k :: 0 <= k < i ==> datas[k].key != key)
    {
      if key == datas[i].key {
        return;
      }
      i := i + 1;
    }
  }

  /** The first entry of a leaf that is not too small, or the end of the leaf. */
  method FindLower(datas: seq<Entry>, r: Range) returns (i: nat)
    ensures i <= |datas| && (forall k :: 0 <= k < i ==> !AboveLo(r, datas[k].key))
    ensures i < |datas| ==> AboveLo(r, datas[i].key)
  {
    i := 0;
    while i < |datas|
      invariant i <= |datas| && (forall k :: 0 <= k < i ==> !AboveLo(r, datas[k].key))
    {
      if AboveLo(r, datas[i].key) {
        return;
      }
      i := i + 1;
    }
  }

  /** The branch for a root that is a leaf: scan it alone. */
  method CollectRoot(datas: seq<Entry>, r: Range, i: nat) returns (ret: map<nat, seq<nat>>, stopped: bool)
    requires KeySorted(datas) && StartsAt(datas, r, i)
    ensures ret == Collect(Select(datas, r))
    ensures stopped <==> exists x :: i <= x < |datas| && !InRange(r, datas[x].key)
  {
    ghost var p := 0;
    assert datas[i..i] == [];
    ret, stopped, p := ScanNode(datas, r, i, map[], datas, i, 0);
    ScanIs(datas, r, i, p);
  }

  function Point(key: int): Range { Range(key, false, key, false) }

  /** Search(key): exactly the entries with that key. */
  method Search(t: Tree, key: int, ghost es: seq<Entry>) returns (ret: map<nat, seq<nat>>)
    requires Indexes(t, es) && KeySorted(es)
    ensures ret == Collect(Select(es, Point(key)))
    ensures exists p, q :: 0 <= p <= q <= |es| && ret == Collect(es[p..q]) &&
                forall x :: 0 <= x < |es| ==> (p <= x < q <==> es[x].key == key)
  {
    var r := Point(key);
    ghost var p, q := RangeIsRun(es, r);
    assert forall x :: 0 <= x < |es| ==> (p <= x < q <==> es[x].key == key);
    if t.root == NullNode {
      return map[];
    }
    var node := Descend(t, r);
    LeafBounds(t.levels, node);
    var i := FindKey(t.levels[0][node.group][node.node].datas, key);
    StartFound(t.levels, r, node, i);
    ret := Answer(t, r, node, i);
  }

  /** Collects from the reached leaf on, whatever the depth. */
  method Answer(t: Tree, r: Range, node: NodeRef, i: nat) returns (ret: map<nat, seq<nat>>)
    requires WellFormed(t) && KeySorted(Content(t.levels[0]))
    requires IsNode(t.levels, node) && node.level == 0 && IsLeafAt(t.levels[0], node.group, node.node)
    requires i <= |t.levels[0][node.group][node.node].datas|
    requires StartsAt(Content(t.levels[0]), r, PosOf(t.levels[0], node.group, node.node) + i)
    ensures ret == Collect(Select(Content(t.levels[0]), r))
  {
    FatherOrRoot(t, node);
    if t.father[node] == NullNode {
      OneLeaf(t);
      var stopped;
      ret, stopped := CollectRoot(t.levels[0][0][0].datas, r, i);
    } else {
      ret := WalkFrom(t, r, node, i);
    }
  }

  /** Only the root has no father. */
  lemma FatherOrRoot(t: Tree, node: NodeRef)
    requires WellFormed(t) && IsNode(t.levels, node) && node.level == 0
    ensures node in t.father && (t.father[node] == NullNode <==> t.depth == 1)
    ensures t.depth == 1 ==> node == NodeRef(0, 0, 0)
  {
    if t.depth > 1 {
      var up := NodeAbove(t.levels, node);
      FatherIs(t.levels, t.father, t.child, node, up);
    }
  }

  lemma {:induction false} NothingSelected(es: seq<Entry>, r: Range)
    requires r.lo > r.hi
    ensures Select(es, r) == []
  {
    SelectIs(es, r, 0, 0);
  }

  /** The leaf and the entry where the range begins. */
  method LocateLower(t: Tree, r: Range) returns (node: NodeRef, i: nat)
    requires WellFormed(t) && KeySorted(Content(t.levels[0]))
    ensures IsNode(t.levels, node) && node.level == 0 && IsLeafAt(t.levels[0], node.group, node.node)
    ensures i <= |t.levels[0][node.group][node.node].datas|
    ensures StartsAt(Content(t.levels[0]), r, PosOf(t.levels[0], node.group, node.node) + i)
    ensures forall k :: 0 <= k < i ==> !AboveLo(r, t.levels[0][node.group][node.node].datas[k].key)
  {
    node := Descend(t, r);
    LeafBounds(t.levels, node);
    i := FindLower(t.levels[0][node.group][node.node].datas, r);
    StartFound(t.levels, r, node, i);
  }

  /** rangeQuery(lower, upper): exactly the entries with lower <= key <= upper. */
  method RangeQuery(t: Tree, lower: int, upper: int, ghost es: seq<Entry>) returns (ret: map<nat, seq<nat>>)
    requires Indexes(t, es) && KeySorted(es)
    ensures ret == Collect(Select(es, Range(lower, false, upper, false)))
    ensures exists p, q :: 0 <= p <= q <= |es| && ret == Collect(es[p..q]) &&
                forall x :: 0 <= x < |es| ==> (p <= x < q <==> lower <= es[x].key <= upper)
  {
    var r := Range(lower, false, upper, false);
    ghost var p, q := RangeIsRun(es, r);
    assert forall x :: 0 <= x < |es| ==> (p <= x < q <==> lower <= es[x].key <= upper);
    if lower > upper {
      NothingSelected(es, r);
      return map[];
    }
    if t.root == NullNode {
      return map[];
    }
    var node, i := LocateLower(t, r);
    ret := Answer(t, r, node, i);
  }

  datatype Comparison = EQ | L | LEQ | G | GEQ

  /** The outcome of a query: an answer, or the null pointer the code follows. */
  datatype Outcome = Answered(ret: map<nat, seq<nat>>) | NullDereference

  function RangeOf(lower: int, compLower: Comparison, upper: int, compUpper: Comparison): Range {
    Range(lower, compLower == G, upper, compUpper == L)
  }

  predicate IsRange(compLower: Comparison, compUpper: Comparison) {
    (compLower == G || compLower == GEQ) && (compUpper == L || compUpper == LEQ)
  }

  /** The failing family: a single-leaf tree whose last entry does not end the scan. */
  ghost predicate RunsOffRoot(t: Tree, r: Range, es: seq<Entry>) {
    t.depth == 1 && r.lo <= r.hi && es != [] && !(AboveLo(r, es[|es| - 1].key) && !BelowHi(r, es[|es| - 1].key))
  }

  /** rangeQuery with open or closed ends: the entries in the range, except that
      on a single-leaf tree the code falls through to the null father unless
      the last key lies beyond the upper end. */
  method RangeQueryComparing(t: Tree, lower: int, compLower: Comparison, upper: int, compUpper: Comparison, ghost es: seq<Entry>)
    returns (out: Outcome)
    requires Indexes(t, es) && KeySorted(es)
    ensures compLower == EQ ==> out == Answered(Collect(Select(es, Point(lower))))
    ensures compLower != EQ && !IsRange(compLower, compUpper) ==> out == Answered(map[])
    ensures IsRange(compLower, compUpper) ==>
              var r := RangeOf(lower, compLower, upper, compUpper);
              && (out.NullDereference? <==> RunsOffRoot(t, r, es))
              && (out.Answered? ==> out.ret == Collect(Select(es, r)))
    ensures compLower == EQ ==>
              exists p, q :: 0 <= p <= q <= |es| && out.Answered? && out.ret == Collect(es[p..q]) &&
                forall x :: 0 <= x < |es| ==> (p <= x < q <==> es[x].key == lower)
    ensures compLower == G && compUpper == L && out.Answered? ==>
              exists p, q :: 0 <= p <= q <= |es| && out.ret == Collect(es[p..q]) &&
                forall x :: 0 <= x < |es| ==> (p <= x < q <==> lower < es[x].key < upper)
    ensures compLower == G && compUpper == LEQ && out.Answered? ==>
              exists p, q :: 0 <= p <= q <= |es| && out.ret == Collect(es[p..q]) &&
                forall x :: 0 <= x < |es| ==> (p <= x < q <==> lower < es[x].key <= upper)
    ensures compLower == GEQ && compUpper == L && out.Answered? ==>
              exists p, q :: 0 <= p <= q <= |es| && out.ret == Collect(es[p..q]) &&
                forall x :: 0 <= x < |es| ==> (p <= x < q <==> lower <= es[x].key < upper)
    ensures compLower == GEQ && compUpper == LEQ && out.Answered? ==>
              exists p, q :: 0 <= p <= q <= |es| && out.ret == Collect(es[p..q]) &&
                forall x :: 0 <= x < |es| ==> (p <= x < q <==> lower <= es[x].key <= upper)
  {
    hide Shaped, Separated, Linked, Chained, KeySorted;
    ghost var p, q := RangeIsRun(es, RangeOf(lower, compLower, upper, compUpper));
    if compLower == EQ {
      var ret := Search(t, lower, es);
      return Answered(ret);
    } else if !IsRange(compLower, compUpper) {
      return Answered(map[]);
    }
    var r := RangeOf(lower, compLower, upper, compUpper);
    if lower > upper {
      NothingSelected(es, r);
      return Answered(map[]);
    }
    if t.root == NullNode {
      return Answered(map[]);
    }
    out := AnswerComparing(t, r);
  }

  method AnswerComparing(t: Tree, r: Range) returns (out: Outcome)
    requires WellFormed(t) && KeySorted(Content(t.levels[0])) && r.lo <= r.hi
    ensures out.NullDereference? <==> RunsOffRoot(t, r, Content(t.levels[0]))
    ensures out.Answered? ==> out.ret == Collect(Select(Content(t.levels[0]), r))
  {
    var node, i := LocateLower(t, r);
    FatherOrRoot(t, node);
    if t.father[node] == NullNode {
      OneLeaf(t);
      var ret, stopped := CollectRoot(t.levels[0][0][0].datas, r, i);
      StoppedAtLast(t.levels[0][0][0].datas, r, i, stopped);
      return if stopped then Answered(ret) else NullDereference;
    }
    var ret := WalkFrom(t, r, node, i);
    out := Answered(ret);
  }

  lemma StoppedAtLast(es: seq<Entry>, r: Range, i: nat, stopped: bool)
    requires KeySorted(es) && es != [] && StartsAt(es, r, i)
    requires forall k :: 0 <= k < i ==> !AboveLo(r, es[k].key)
    requires stopped <==> exists x :: i <= x < |es| && !InRange(r, es[x].key)
    ensures stopped <==> AboveLo(r, es[|es| - 1].key) && !BelowHi(r, es[|es| - 1].key)
  {
    if stopped {
      var x :| i <= x < |es| && !InRange(r, es[x].key);
      assert es[x].key <= es[|es| - 1].key;
    }
  }
}
