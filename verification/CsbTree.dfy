/** The CSB+ tree as data: nodes stored level by level (level 0 holds the
    leaves), handles for the source's pointers, and one map for each pointer
    field.  `WellFormed` is the reference description of a correct index. */
module CsbTree {
  import opened CsbLayout

  /** data_offset: a key with the place of its tuple. */
  datatype Entry = Entry(key: int, block: nat, tuple: nat)

  /** CCSBNodeGroup* and CCSBNode* */
  datatype GroupRef = NullGroup | GroupRef(level: nat, group: nat)
  datatype NodeRef = NullNode | NodeRef(level: nat, group: nat, node: nat)

  datatype Node = Leaf(datas: seq<Entry>) | Inner(keys: seq<int>)

  /** A level is a sequence of node groups. */
  type Level = seq<seq<Node>>

  datatype Tree = Tree(
    levels: seq<Level>,
    father: map<NodeRef, NodeRef>,
    child: map<NodeRef, GroupRef>,
    header: map<GroupRef, GroupRef>,
    tailer: map<GroupRef, GroupRef>,
    root: NodeRef,
    depth: nat,
    leafHeader: GroupRef,
    leafTailer: GroupRef)

  // ----- shape -----

  function Count(level: Level): nat { Sum(Sizes(level)) }

  /** Nodes before group g of a level. */
  function Off(level: Level, g: nat): nat
    requires g <= |level|
  {
    Pre(Sizes(level), g)
  }

  ghost predicate AllLeaves(level: Level) {
    forall f :: 0 <= f < |Flatten(level)| ==> Flatten(level)[f].Leaf? && Flatten(level)[f].datas != []
  }

  ghost predicate AllInner(level: Level) {
    forall f :: 0 <= f < |Flatten(level)| ==> Flatten(level)[f].Inner?
  }

  ghost predicate NoEmptyGroup(level: Level) {
    level != [] && forall g :: 0 <= g < |level| ==> level[g] != []
  }

  /** Leaves at the bottom, and above them one node for each group below. */
  ghost predicate Shaped(levels: seq<Level>) {
    && levels != []
    && (forall l :: 0 <= l < |levels| ==> NoEmptyGroup(levels[l]))
    && AllLeaves(levels[0])
    && (forall l :: 1 <= l < |levels| ==> AllInner(levels[l]) && Count(levels[l]) == |levels[l - 1]|)
  }

  ghost function LeafDatas(level: Level): (r: seq<seq<Entry>>)
    requires AllLeaves(level)
    ensures |r| == Count(level)
  {
    seq(|Flatten(level)|, f requires 0 <= f < |Flatten(level)| => Flatten(level)[f].datas)
  }

  /** The entries of the index in leaf order. */
  ghost function Content(level: Level): seq<Entry>
    requires AllLeaves(level)
  {
    Flatten(LeafDatas(level))
  }

  // ----- where each subtree begins -----

  lemma OffInside(level: Level, g: nat, i: nat)
    requires g < |level| && i < |level[g]|
    ensures Off(level, g) + i < Off(level, g + 1) <= Count(level)
  {
    PreMono(Sizes(level), g + 1, |level|);
  }

  /** Position in the content of the first entry below node f of level l. */
  ghost function StartOf(levels: seq<Level>, l: nat, f: nat): nat
    requires Shaped(levels) && l < |levels| && f < Count(levels[l])
  {
    if l == 0 then Pre(Sizes(LeafDatas(levels[0])), f)
    else
      OffInside(levels[l - 1], f, 0);
      StartOf(levels, l - 1, Off(levels[l - 1], f))
  }

  lemma {:induction false} StartInside(levels: seq<Level>, l: nat, f: nat)
    requires Shaped(levels) && l < |levels| && f < Count(levels[l])
    ensures StartOf(levels, l, f) < |Content(levels[0])|
  {
    if l == 0 {
      FlattenAt(LeafDatas(levels[0]), f, 0);
    } else {
      OffInside(levels[l - 1], f, 0);
      StartInside(levels, l - 1, Off(levels[l - 1], f));
    }
  }

  /** First key below node f of level l. */
  ghost function KeyAt(levels: seq<Level>, l: nat, f: nat): int
    requires Shaped(levels) && l < |levels| && f < Count(levels[l])
  {
    StartInside(levels, l, f);
    Content(levels[0])[StartOf(levels, l, f)].key
  }

  /** A node separates its children: key k - 1 is the first key below child k. */
  ghost predicate Separates(levels: seq<Level>, l: nat, j: nat)
    requires Shaped(levels) && 1 <= l < |levels| && j < Count(levels[l])
  {
    var node := Flatten(levels[l])[j];
    && |node.keys| + 1 == |levels[l - 1][j]|
    && forall k :: 0 <= k < |node.keys| ==>
        (OffInside(levels[l - 1], j, k + 1);
         node.keys[k] == KeyAt(levels, l - 1, Off(levels[l - 1], j) + k + 1))
  }

  ghost predicate Separated(levels: seq<Level>)
    requires Shaped(levels)
  {
    forall l, j :: 1 <= l < |levels| && 0 <= j < Count(levels[l]) ==> Separates(levels, l, j)
  }

  // ----- pointers -----

  ghost predicate IsNode(levels: seq<Level>, r: NodeRef) {
    r.NodeRef? && r.level < |levels| && r.group < |levels[r.level]| && r.node < |levels[r.level][r.group]|
  }

  ghost function FlatOf(levels: seq<Level>, r: NodeRef): nat
    requires IsNode(levels, r)
  {
    Off(levels[r.level], r.group) + r.node
  }

  /** Inner node r points at the group below it and that group's nodes point back. */
  ghost predicate Joined(levels: seq<Level>, father: map<NodeRef, NodeRef>, child: map<NodeRef, GroupRef>, r: NodeRef)
    requires IsNode(levels, r) && r.level > 0
  {
    var j := FlatOf(levels, r);
    && r in child && child[r] == GroupRef(r.level - 1, j)
    && j < |levels[r.level - 1]|
    && Fathered(father, r.level - 1, j, |levels[r.level - 1][j]|, r)
  }

  /** The n nodes of group g of level l all have father r. */
  ghost predicate Fathered(father: map<NodeRef, NodeRef>, l: nat, g: nat, n: nat, r: NodeRef) {
    forall k :: 0 <= k < n ==> NodeRef(l, g, k) in father && father[NodeRef(l, g, k)] == r
  }

  ghost predicate IsInner(levels: seq<Level>, r: NodeRef) { IsNode(levels, r) && r.level > 0 }

  ghost predicate IsTop(levels: seq<Level>, r: NodeRef) { IsNode(levels, r) && r.level == |levels| - 1 }

  /** Child and father links of all levels; the top level has no father. */
  ghost predicate Linked(levels: seq<Level>, father: map<NodeRef, NodeRef>, child: map<NodeRef, GroupRef>) {
    && (forall r :: r in father <==> IsNode(levels, r))
    && (forall r :: r in child <==> IsInner(levels, r))
    && (forall r :: r in child ==> Joined(levels, father, child, r))
    && (forall r :: IsTop(levels, r) ==> father[r] == NullNode)
  }

  predicate IsLeafGroup(n: nat, r: GroupRef) { r.GroupRef? && r.level == 0 && r.group < n }

  function HeaderOf(r: GroupRef): GroupRef {
    if r.NullGroup? || r.group == 0 then NullGroup else GroupRef(0, r.group - 1)
  }

  function TailerOf(n: nat, r: GroupRef): GroupRef {
    if r.NullGroup? || r.group == n - 1 then NullGroup else GroupRef(0, r.group + 1)
  }

  /** The doubly linked list of n leaf groups. */
  ghost predicate Chained(n: nat, header: map<GroupRef, GroupRef>, tailer: map<GroupRef, GroupRef>) {
    Headed(n, header) && Tailed(n, tailer)
  }

  ghost predicate Headed(n: nat, header: map<GroupRef, GroupRef>) {
    && (forall r :: r in header <==> IsLeafGroup(n, r))
    && (forall r :: r in header ==> header[r] == HeaderOf(r))
  }

  ghost predicate Tailed(n: nat, tailer: map<GroupRef, GroupRef>) {
    && (forall r :: r in tailer <==> IsLeafGroup(n, r))
    && (forall r :: r in tailer ==> tailer[r] == TailerOf(n, r))
  }

  // ----- occupancy -----

  /** Nothing over capacity, and every node but the root at least half full. */
  ghost predicate Occupied(levels: seq<Level>, maxKeys: nat, maxDatas: nat) {
    && (forall l :: 0 <= l < |levels| ==> LevelFits(levels[l], maxKeys, maxDatas))
    && (forall l :: 0 <= l < |levels| - 1 ==> LevelHalfFull(levels[l], maxKeys, maxDatas))
  }

  ghost predicate LevelFits(lv: Level, maxKeys: nat, maxDatas: nat) {
    && (forall g :: 0 <= g < |lv| ==> |lv[g]| <= maxKeys + 1)
    && (forall f :: 0 <= f < |Flatten(lv)| ==> NodeFits(Flatten(lv)[f], maxKeys, maxDatas))
  }

  ghost predicate LevelHalfFull(lv: Level, maxKeys: nat, maxDatas: nat) {
    forall f :: 0 <= f < |Flatten(lv)| ==> NodeHalfFull(Flatten(lv)[f], maxKeys, maxDatas)
  }

  predicate NodeFits(n: Node, maxKeys: nat, maxDatas: nat) {
    match n
    case Leaf(ds) => |ds| <= maxDatas
    case Inner(ks) => 1 <= |ks| <= maxKeys
  }

  predicate NodeHalfFull(n: Node, maxKeys: nat, maxDatas: nat) {
    match n
    case Leaf(ds) => |ds| >= maxDatas / 2
    case Inner(ks) => |ks| >= maxKeys / 2
  }

  // ----- the whole index -----

  ghost predicate WellFormed(t: Tree) {
    && Shaped(t.levels)
    && Separated(t.levels)
    && Linked(t.levels, t.father, t.child)
    && Chained(|t.levels[0]|, t.header, t.tailer)
    && t.depth == |t.levels|
    && |t.levels[t.depth - 1]| == 1 && |t.levels[t.depth - 1][0]| == 1
    && t.root == NodeRef(t.depth - 1, 0, 0)
    && t.leafHeader == GroupRef(0, 0)
    && t.leafTailer == GroupRef(0, |t.levels[0]| - 1)
  }

  const EMPTY := Tree([], map[], map[], map[], map[], NullNode, 0, NullGroup, NullGroup)

  predicate KeySorted(es: seq<Entry>) {
    forall i, j :: 0 <= i < j < |es| ==> es[i].key <= es[j].key
  }

  /** A well-formed index of these entries; no entries, no tree. */
  ghost predicate Indexes(t: Tree, es: seq<Entry>) {
    if es == [] then t == EMPTY
    else WellFormed(t) && Content(t.levels[0]) == es
  }

  // ----- adding a level on top -----

  lemma {:induction false} KeyAtExtend(levels: seq<Level>, top: Level, l: nat, f: nat)
    requires Shaped(levels) && Shaped(levels + [top]) && l < |levels| && f < Count(levels[l])
    ensures f < Count((levels + [top])[l]) && KeyAt(levels + [top], l, f) == KeyAt(levels, l, f)
  {
    StartExtend(levels, top, l, f);
  }

  lemma {:induction false} StartExtend(levels: seq<Level>, top: Level, l: nat, f: nat)
    requires Shaped(levels) && Shaped(levels + [top]) && l < |levels| && f < Count(levels[l])
    ensures (levels + [top])[l] == levels[l] && StartOf(levels + [top], l, f) == StartOf(levels, l, f)
  {
    assert (levels + [top])[l] == levels[l];
    if l > 0 {
      OffInside(levels[l - 1], f, 0);
      StartExtend(levels, top, l - 1, Off(levels[l - 1], f));
    }
  }

  /** The source's internal_key_array: first keys of all nodes of the top level but the first. */
  ghost predicate TopKeys(levels: seq<Level>, keys: seq<int>)
    requires Shaped(levels)
  {
    var l := |levels| - 1;
    && |keys| + 1 == Count(levels[l])
    && forall f :: 0 <= f < |keys| ==> keys[f] == KeyAt(levels, l, f + 1)
  }

  /** Two well-formed indexes with the same nodes are the same index: every
      pointer is determined. */
  lemma Determined(t: Tree, u: Tree)
    requires WellFormed(t) && WellFormed(u) && t.levels == u.levels
    ensures t == u
  {
    LinksDetermined(t.levels, t.father, t.child, u.father, u.child);
    ChainDetermined(|t.levels[0]|, t.header, t.tailer, u.header, u.tailer);
  }

  lemma ChainDetermined(n: nat, ha: map<GroupRef, GroupRef>, ta: map<GroupRef, GroupRef>,
                        hb: map<GroupRef, GroupRef>, tb: map<GroupRef, GroupRef>)
    requires Chained(n, ha, ta) && Chained(n, hb, tb)
    ensures ha == hb && ta == tb
  {
    forall r
      ensures r in ha <==> r in hb
      ensures r in ta <==> r in tb
    {
    }
    assert ha.Keys == hb.Keys && ta.Keys == tb.Keys;
  }

  lemma LinksDetermined(levels: seq<Level>, fa: map<NodeRef, NodeRef>, ca: map<NodeRef, GroupRef>,
                        fb: map<NodeRef, NodeRef>, cb: map<NodeRef, GroupRef>)
    requires Shaped(levels) && Linked(levels, fa, ca) && Linked(levels, fb, cb)
    ensures fa == fb && ca == cb
  {
    LinkKeys(levels, fa, ca, fb, cb);
    forall r | r in ca
      ensures ca[r] == cb[r]
    {
      assert Joined(levels, fa, ca, r) && Joined(levels, fb, cb, r);
    }
    forall r | r in fa
      ensures fa[r] == fb[r]
    {
      FatherDetermined(levels, fa, ca, fb, cb, r);
    }
  }

  lemma LinkKeys(levels: seq<Level>, fa: map<NodeRef, NodeRef>, ca: map<NodeRef, GroupRef>,
                 fb: map<NodeRef, NodeRef>, cb: map<NodeRef, GroupRef>)
    requires Linked(levels, fa, ca) && Linked(levels, fb, cb)
    ensures ca.Keys == cb.Keys && fa.Keys == fb.Keys
  {
    forall r
      ensures r in ca.Keys <==> r in cb.Keys
      ensures r in fa.Keys <==> r in fb.Keys
    {
    }
  }

  lemma FatherDetermined(levels: seq<Level>, fa: map<NodeRef, NodeRef>, ca: map<NodeRef, GroupRef>,
                         fb: map<NodeRef, NodeRef>, cb: map<NodeRef, GroupRef>, r: NodeRef)
    requires Shaped(levels) && Linked(levels, fa, ca) && Linked(levels, fb, cb) && IsNode(levels, r)
    ensures fa[r] == fb[r]
  {
    if IsTop(levels, r) {
    } else {
      var up := NodeAbove(levels, r);
      FatherIs(levels, fa, ca, r, up);
      FatherIs(levels, fb, cb, r, up);
    }
  }

  lemma FatherIs(levels: seq<Level>, father: map<NodeRef, NodeRef>, child: map<NodeRef, GroupRef>, r: NodeRef, up: NodeRef)
    requires Linked(levels, father, child) && IsNode(levels, r)
    requires IsNode(levels, up) && up.level == r.level + 1 && FlatOf(levels, up) == r.group
    ensures father[r] == up
  {
    assert IsInner(levels, up);
    assert Joined(levels, father, child, up);
    assert r == NodeRef(r.level, r.group, r.node);
  }

  /** The node of the next level that stands for r's group. */
  lemma NodeAbove(levels: seq<Level>, r: NodeRef) returns (up: NodeRef)
    requires Shaped(levels) && IsNode(levels, r) && r.level < |levels| - 1
    ensures IsNode(levels, up) && up.level == r.level + 1 && FlatOf(levels, up) == r.group
  {
    up := NodeAt(levels, r.level + 1, r.group);
  }

  /** Group and place of the node at flat position f. */
  lemma NodeAt(levels: seq<Level>, l: nat, f: nat) returns (r: NodeRef)
    requires l < |levels| && f < Count(levels[l])
    ensures IsNode(levels, r) && r.level == l && FlatOf(levels, r) == f
    ensures levels[l][r.group][r.node] == Flatten(levels[l])[f]
  {
    var g := Locate(Sizes(levels[l]), f);
    r := NodeRef(l, g, f - Off(levels[l], g));
    FlattenAt(levels[l], g, r.node);
  }
}
