/** serialize and deserialize: the index as a stream of words, level by level. */
module CsbDisk {
  import opened CsbLayout
  import opened CsbTree
  import opened CsbLinks
  import opened CsbLoader

  // ----- the file format, by position -----

  /** A data_offset is three words. */
  predicate EntryAt(file: seq<int>, p: nat, e: Entry) {
    p + 2 < |file| && file[p] == e.key && file[p + 1] == e.block && file[p + 2] == e.tuple
  }

  function NodeLength(n: Node): nat {
    match n
    case Leaf(ds) => 1 + 3 * |ds|
    case Inner(ks) => 1 + |ks|
  }

  /** used_keys, then that many elements. */
  ghost predicate HoldsNode(file: seq<int>, pos: nat, n: Node) {
    && pos + NodeLength(n) <= |file|
    && match n
       case Leaf(ds) => file[pos] == |ds| && forall k :: 0 <= k < |ds| ==> EntryAt(file, pos + 1 + 3 * k, ds[k])
       case Inner(ks) => file[pos] == |ks| && forall k :: 0 <= k < |ks| ==> file[pos + 1 + k] == ks[k]
  }

  function NodesLength(g: seq<Node>, k: nat): nat
    requires k <= |g|
  {
    if k == 0 then 0 else NodesLength(g, k - 1) + NodeLength(g[k - 1])
  }

  function GroupLength(g: seq<Node>): nat { 1 + NodesLength(g, |g|) }

  /** used_nodes, then the nodes; n of them are there. */
  ghost predicate HoldsNodes(file: seq<int>, pos: nat, g: seq<Node>, n: nat)
    requires n <= |g|
  {
    && pos < |file| && file[pos] == |g|
    && forall k :: 0 <= k < n ==> NodeSlot(file, pos, g, k)
  }

  ghost predicate NodeSlot(file: seq<int>, pos: nat, g: seq<Node>, k: nat)
    requires k < |g|
  {
    HoldsNode(file, pos + 1 + NodesLength(g, k), g[k])
  }

  ghost predicate HoldsGroup(file: seq<int>, pos: nat, g: seq<Node>) { HoldsNodes(file, pos, g, |g|) }

  function GroupsLength(level: Level, k: nat): nat
    requires k <= |level|
  {
    if k == 0 then 0 else GroupsLength(level, k - 1) + GroupLength(level[k - 1])
  }

  /** The first n groups of a level, one after another. */
  ghost predicate HoldsGroups(file: seq<int>, pos: nat, level: Level, n: nat)
    requires n <= |level|
  {
    forall k :: 0 <= k < n ==> GroupSlot(file, pos, level, k)
  }

  ghost predicate GroupSlot(file: seq<int>, pos: nat, level: Level, k: nat)
    requires k < |level|
  {
    HoldsGroup(file, pos + GroupsLength(level, k), level[k])
  }

  /** Words of the levels below top and not below l. */
  function LevelsLength(levels: seq<Level>, top: nat, l: nat): nat
    requires l <= top <= |levels|
    decreases top - l
  {
    if l == top then 0 else LevelsLength(levels, top, l + 1) + GroupsLength(levels[l], |levels[l]|)
  }

  ghost predicate HoldsLevels(file: seq<int>, pos: nat, levels: seq<Level>, top: nat, l: nat)
    requires l <= top <= |levels|
  {
    forall k :: l <= k < top ==> LevelSlot(file, pos, levels, top, k)
  }

  ghost predicate LevelSlot(file: seq<int>, pos: nat, levels: seq<Level>, top: nat, l: nat)
    requires l < top <= |levels|
  {
    HoldsGroups(file, pos + LevelsLength(levels, top, l + 1), levels[l], |levels[l]|)
  }

  /** A single node at the top. */
  ghost predicate OneRoot(levels: seq<Level>) {
    levels != [] && |levels[|levels| - 1]| == 1 && |levels[|levels| - 1][0]| == 1
  }

  /** The depth, the root node, then the levels from the top down. */
  ghost predicate HoldsTree(file: seq<int>, levels: seq<Level>)
    requires OneRoot(levels)
  {
    var top := |levels| - 1;
    && 0 < |file| && file[0] == top + 1
    && HoldsNode(file, 1, levels[top][0][0])
    && HoldsLevels(file, 1 + NodeLength(levels[top][0][0]), levels, top, 0)
  }

  // ----- what is written stays -----

  lemma NodeStays(file: seq<int>, file': seq<int>, pos: nat, n: Node)
    requires file <= file' && HoldsNode(file, pos, n)
    ensures HoldsNode(file', pos, n)
  {
    if n.Leaf? {
      forall k | 0 <= k < |n.datas|
        ensures EntryAt(file', pos + 1 + 3 * k, n.datas[k])
      {
        assert EntryAt(file, pos + 1 + 3 * k, n.datas[k]);
      }
    }
  }

  lemma NodesStay(file: seq<int>, file': seq<int>, pos: nat, g: seq<Node>, n: nat)
    requires n <= |g| && file <= file' && HoldsNodes(file, pos, g, n)
    ensures HoldsNodes(file', pos, g, n)
  {
    forall k | 0 <= k < n
      ensures NodeSlot(file', pos, g, k)
    {
      assert NodeSlot(file, pos, g, k);
      NodeStays(file, file', pos + 1 + NodesLength(g, k), g[k]);
    }
  }

  lemma GroupsStay(file: seq<int>, file': seq<int>, pos: nat, level: Level, n: nat)
    requires n <= |level| && file <= file' && HoldsGroups(file, pos, level, n)
    ensures HoldsGroups(file', pos, level, n)
  {
    forall k | 0 <= k < n
      ensures GroupSlot(file', pos, level, k)
    {
      assert GroupSlot(file, pos, level, k);
      NodesStay(file, file', pos + GroupsLength(level, k), level[k], |level[k]|);
    }
  }

  lemma LevelsStay(file: seq<int>, file': seq<int>, pos: nat, levels: seq<Level>, top: nat, l: nat)
    requires l <= top <= |levels| && file <= file' && HoldsLevels(file, pos, levels, top, l)
    ensures HoldsLevels(file', pos, levels, top, l)
  {
    forall k | l <= k < top
      ensures LevelSlot(file', pos, levels, top, k)
    {
      assert LevelSlot(file, pos, levels, top, k);
      GroupsStay(file, file', pos + LevelsLength(levels, top, k + 1), levels[k], |levels[k]|);
    }
  }

  // ----- writing -----

  method WriteNode(file: seq<int>, n: Node) returns (file': seq<int>)
    ensures file <= file' && |file'| == |file| + NodeLength(n) && HoldsNode(file', |file|, n)
  {
    match n
    case Inner(ks) =>
      file' := file + [|ks|] + ks;
    case Leaf(ds) =>
      file' := file + [|ds|];
      for k := 0 to |ds|
        invariant file <= file' && |file'| == |file| + 1 + 3 * k && file'[|file|] == |ds|
        invariant forall i :: 0 <= i < k ==> EntryAt(file', |file| + 1 + 3 * i, ds[i])
      {
        ghost var before := file';
        file' := file' + [ds[k].key, ds[k].block, ds[k].tuple];
        forall i | 0 <= i < k
          ensures EntryAt(file', |file| + 1 + 3 * i, ds[i])
        {
          assert EntryAt(before, |file| + 1 + 3 * i, ds[i]);
        }
      }
  }

  method WriteGroup(file: seq<int>, g: seq<Node>) returns (file': seq<int>)
    ensures file <= file' && |file'| == |file| + GroupLength(g) && HoldsGroup(file', |file|, g)
  {
    file' := file + [|g|];
    for i := 0 to |g|
      invariant file <= file' && |file'| == |file| + 1 + NodesLength(g, i)
      invariant HoldsNodes(file', |file|, g, i)
    {
      var next := WriteNode(file', g[i]);
      NodesStay(file', next, |file|, g, i);
      assert NodeSlot(next, |file|, g, i);
      file' := next;
    }
  }

  /** Handles of the first n groups of level l, in order. */
  ghost predicate Handles(s: seq<GroupRef>, l: nat, n: nat) {
    |s| == n && forall i :: 0 <= i < n ==> s[i] == GroupRef(l, i)
  }

  /** Popping one stack onto another reverses it. */
  method Pour(from: seq<GroupRef>) returns (to: seq<GroupRef>)
    ensures |to| == |from| && forall i :: 0 <= i < |to| ==> to[i] == from[|from| - 1 - i]
  {
    var rest := from;
    to := [];
    while |rest| != 0
      invariant |to| + |rest| == |from| && rest == from[..|rest|]
      invariant forall i :: 0 <= i < |to| ==> to[i] == from[|from| - 1 - i]
      decreases |rest|
    {
      to := to + [rest[|rest| - 1]];
      rest := rest[..|rest| - 1];
    }
  }

  /** Child pointers lead to the groups below, in order. */
  ghost predicate Downward(levels: seq<Level>, child: map<NodeRef, GroupRef>, l: nat)
    requires 0 < l < |levels|
  {
    && Count(levels[l]) == |levels[l - 1]|
    && forall g: nat, i: nat :: g < |levels[l]| && i < |levels[l][g]| ==>
         NodeRef(l, g, i) in child && child[NodeRef(l, g, i)] == GroupRef(l - 1, Off(levels[l], g) + i)
  }

  lemma LinkedDownward(levels: seq<Level>, father: map<NodeRef, NodeRef>, child: map<NodeRef, GroupRef>, l: nat)
    requires Linked(levels, father, child) && 0 < l < |levels| && Count(levels[l]) == |levels[l - 1]|
    ensures Downward(levels, child, l)
  {
    forall g: nat, i: nat | g < |levels[l]| && i < |levels[l][g]|
      ensures NodeRef(l, g, i) in child && child[NodeRef(l, g, i)] == GroupRef(l - 1, Off(levels[l], g) + i)
    {
      var r := NodeRef(l, g, i);
      assert r in child && Joined(levels, father, child, r);
    }
  }

  method PushChildren(levels: seq<Level>, child: map<NodeRef, GroupRef>, l: nat, g: nat, lower: seq<GroupRef>)
    returns (lower': seq<GroupRef>)
    requires 0 < l < |levels| && g < |levels[l]| && Downward(levels, child, l)
    requires Handles(lower, l - 1, Off(levels[l], g))
    ensures Handles(lower', l - 1, Off(levels[l], g + 1))
  {
    lower' := lower;
    for i := 0 to |levels[l][g]|
      invariant Handles(lower', l - 1, Off(levels[l], g) + i)
    {
      lower' := lower' + [child[NodeRef(l, g, i)]];
    }
  }

  /** Writes the groups of one level and collects the handles of the level below. */
  method WriteLevel(levels: seq<Level>, child: map<NodeRef, GroupRef>, l: nat, lower: seq<GroupRef>, file: seq<int>)
    returns (file': seq<int>, next: seq<GroupRef>)
    requires l < |levels| && Handles(lower, l, |levels[l]|) && (l > 0 ==> Downward(levels, child, l))
    ensures file <= file' && |file'| == |file| + GroupsLength(levels[l], |levels[l]|)
    ensures HoldsGroups(file', |file|, levels[l], |levels[l]|)
    ensures l > 0 ==> Handles(next, l - 1, |levels[l - 1]|)
  {
    var current := Pour(lower);
    file', next := file, [];
    ghost var c := 0;
    while |current| != 0
      invariant c <= |levels[l]| && |current| == |levels[l]| - c
      invariant forall i :: 0 <= i < |current| ==> current[i] == GroupRef(l, |levels[l]| - 1 - i)
      invariant file <= file' && |file'| == |file| + GroupsLength(levels[l], c)
      invariant HoldsGroups(file', |file|, levels[l], c)
      invariant l > 0 ==> Handles(next, l - 1, Off(levels[l], c))
      decreases |current|
    {
      var g := current[|current| - 1].group;
      if l != 0 {
        next := PushChildren(levels, child, l, g, next);
      }
      var more := WriteGroup(file', levels[l][g]);
      GroupsStay(file', more, |file|, levels[l], c);
      assert GroupSlot(more, |file|, levels[l], c);
      file' := more;
      current := current[..|current| - 1];
      c := c + 1;
    }
  }

  method WriteBelow(levels: seq<Level>, child: map<NodeRef, GroupRef>, first: GroupRef, top: nat, head: seq<int>)
    returns (file: seq<int>)
    requires 0 < top < |levels| && |levels[top - 1]| == 1 && first == GroupRef(top - 1, 0)
    requires forall l :: 0 < l < |levels| ==> Downward(levels, child, l)
    ensures head <= file && HoldsLevels(file, |head|, levels, top, 0)
  {
    file := head;
    var lower := [first];
    var l := top;
    while l > 0
      invariant l <= top && (l > 0 ==> Handles(lower, l - 1, |levels[l - 1]|))
      invariant head <= file && |file| == |head| + LevelsLength(levels, top, l)
      invariant HoldsLevels(file, |head|, levels, top, l)
    {
      l := l - 1;
      var more;
      more, lower := WriteLevel(levels, child, l, lower, file);
      LevelsStay(file, more, |head|, levels, top, l + 1);
      assert LevelSlot(more, |head|, levels, top, l);
      file := more;
    }
  }

  /** The group below the root is the only group of its level. */
  lemma RootChild(t: Tree)
    requires WellFormed(t) && t.depth >= 2
    ensures t.root in t.child && t.child[t.root] == GroupRef(t.depth - 2, 0) && |t.levels[t.depth - 2]| == 1
  {
    var top := t.levels[t.depth - 1];
    assert t.root in t.child && Joined(t.levels, t.father, t.child, t.root);
    assert Pre(Sizes(top), 1) == Pre(Sizes(top), 0) + |top[0]|;
  }

  lemma AllDownward(t: Tree)
    requires WellFormed(t)
    ensures forall l :: 0 < l < |t.levels| ==> Downward(t.levels, t.child, l)
  {
    forall l | 0 < l < |t.levels|
      ensures Downward(t.levels, t.child, l)
    {
      LinkedDownward(t.levels, t.father, t.child, l);
    }
  }

  method WriteTree(levels: seq<Level>, child: map<NodeRef, GroupRef>, root: NodeRef) returns (file: seq<int>)
    requires OneRoot(levels) && root == NodeRef(|levels| - 1, 0, 0)
    requires forall l :: 0 < l < |levels| ==> Downward(levels, child, l)
    requires |levels| > 1 ==> root in child && child[root] == GroupRef(|levels| - 2, 0) && |levels[|levels| - 2]| == 1
    ensures HoldsTree(file, levels)
  {
    var top := |levels| - 1;
    var node := levels[top][0][0];
    file := WriteNode([|levels|], node);
    if top > 0 {
      var more := WriteBelow(levels, child, child[root], top, file);
      NodeStays(file, more, 1, node);
      file := more;
    }
  }

  /** An empty index writes nothing. */
  method Serialize(t: Tree) returns (file: seq<int>)
    requires t == EMPTY || WellFormed(t)
    ensures t == EMPTY ==> file == []
    ensures t != EMPTY ==> OneRoot(t.levels) && HoldsTree(file, t.levels)
  {
    if t.root == NullNode {
      return [];
    }
    AllDownward(t);
    if t.depth > 1 {
      RootChild(t);
    }
    file := WriteTree(t.levels, t.child, t.root);
  }

  // ----- reading -----

  /** The offsets the loader accepts. */
  predicate EntryInBounds(e: Entry) { e.block <= 1023 && e.tuple <= 2046 }

  predicate NodeInBounds(n: Node) {
    n.Leaf? ==> forall k :: 0 <= k < |n.datas| ==> EntryInBounds(n.datas[k])
  }

  predicate GroupInBounds(g: seq<Node>) { forall k :: 0 <= k < |g| ==> NodeInBounds(g[k]) }

  predicate LevelInBounds(level: Level) { forall g :: 0 <= g < |level| ==> GroupInBounds(level[g]) }

  ghost predicate InBounds(levels: seq<Level>) { forall l :: 0 <= l < |levels| ==> LevelInBounds(levels[l]) }

  predicate EntriesInBounds(es: seq<Entry>) { forall i :: 0 <= i < |es| ==> EntryInBounds(es[i]) }

  /** The bounds are a matter of the entries alone. */
  lemma InBoundsEntries(levels: seq<Level>)
    requires Shaped(levels)
    ensures InBounds(levels) <==> EntriesInBounds(Content(levels[0]))
  {
    if InBounds(levels) {
      forall p | 0 <= p < |Content(levels[0])| ensures EntryInBounds(Content(levels[0])[p]) {
        EntryOfNode(levels, p);
      }
    } else {
      var l :| 0 <= l < |levels| && !LevelInBounds(levels[l]);
      var g :| 0 <= g < |levels[l]| && !GroupInBounds(levels[l][g]);
      var k :| 0 <= k < |levels[l][g]| && !NodeInBounds(levels[l][g][k]);
      LevelKind(levels, l);
      var i :| 0 <= i < |levels[l][g][k].datas| && !EntryInBounds(levels[l][g][k].datas[i]);
      NodeEntry(levels[0], g, k, i);
    }
  }

  lemma EntryOfNode(levels: seq<Level>, p: nat)
    requires Shaped(levels) && LevelInBounds(levels[0]) && p < |Content(levels[0])|
    ensures EntryInBounds(Content(levels[0])[p])
  {
    var level := levels[0];
    var ds := LeafDatas(level);
    var f := Locate(Sizes(ds), p);
    FlattenAt(ds, f, p - Pre(Sizes(ds), f));
    var g := Locate(Sizes(level), f);
    var k := f - Pre(Sizes(level), g);
    FlattenAt(level, g, k);
    assert GroupInBounds(level[g]) && NodeInBounds(level[g][k]);
  }

  lemma NodeEntry(level: Level, g: nat, k: nat, i: nat)
    requires AllLeaves(level) && g < |level| && k < |level[g]| && level[g][k].Leaf? && i < |level[g][k].datas|
    ensures exists p :: 0 <= p < |Content(level)| && Content(level)[p] == level[g][k].datas[i]
  {
    OffInside(level, g, k);
    FlattenAt(level, g, k);
    var f := Off(level, g) + k;
    FlattenAt(LeafDatas(level), f, i);
    assert Content(level)[Pre(Sizes(LeafDatas(level)), f) + i] == level[g][k].datas[i];
  }

  method ReadEntries(file: seq<int>, pos: nat, used: nat, ghost ds: seq<Entry>) returns (datas: seq<Entry>)
    requires used == |ds| && forall k :: 0 <= k < |ds| ==> EntryAt(file, pos + 3 * k, ds[k])
    ensures datas == ds
  {
    datas := [];
    for k := 0 to used
      invariant |datas| == k && forall i :: 0 <= i < k ==> datas[i] == ds[i]
    {
      assert EntryAt(file, pos + 3 * k, ds[k]);
      datas := datas + [Entry(file[pos + 3 * k], file[pos + 3 * k + 1], file[pos + 3 * k + 2])];
    }
  }

  method CheckBounds(datas: seq<Entry>) returns (ok: bool)
    ensures ok <==> NodeInBounds(Leaf(datas))
  {
    for i := 0 to |datas|
      invariant forall k :: 0 <= k < i ==> EntryInBounds(datas[k])
    {
      if datas[i].block > 1023 || datas[i].tuple > 2046 {
        assert !EntryInBounds(datas[i]);
        return false;
      }
    }
    ok := true;
  }

  /** Reads one node of the given kind; leaves may fail the bounds check. */
  method ReadNode(file: seq<int>, pos: nat, leaf: bool, ghost n: Node) returns (node: Node, ok: bool)
    requires HoldsNode(file, pos, n) && n.Leaf? == leaf
    ensures node == n && (ok <==> NodeInBounds(n))
  {
    var used := file[pos];
    if leaf {
      var datas := ReadEntries(file, pos + 1, used, n.datas);
      ok := CheckBounds(datas);
      node := Leaf(datas);
    } else {
      var keys := file[pos + 1..pos + 1 + used];
      assert keys == n.keys;
      node, ok := Inner(keys), true;
    }
  }

  method ReadGroup(file: seq<int>, pos: nat, leaf: bool, ghost g: seq<Node>) returns (group: seq<Node>, pos': nat, ok: bool)
    requires HoldsGroup(file, pos, g) && forall k :: 0 <= k < |g| ==> g[k].Leaf? == leaf
    ensures ok <==> GroupInBounds(g)
    ensures ok ==> group == g && pos' == pos + GroupLength(g)
  {
    var used := file[pos];
    group, pos', ok := [], pos + 1, true;
    for i := 0 to used
      invariant ok && |group| == i && pos' == pos + 1 + NodesLength(g, i)
      invariant forall k :: 0 <= k < i ==> group[k] == g[k] && NodeInBounds(g[k])
    {
      assert NodeSlot(file, pos, g, i);
      var node;
      node, ok := ReadNode(file, pos', leaf, g[i]);
      if !ok {
        return;
      }
      group := group + [node];
      pos' := pos' + NodeLength(node);
    }
  }

  // ----- rebuilding the pointers -----

  /** Nodes of the levels above l and of the first c groups of level l. */
  ghost predicate IsNodeFrom(levels: seq<Level>, r: NodeRef, l: nat, c: nat) {
    IsNode(levels, r) && (r.level > l || (r.level == l && r.group < c))
  }

  /** Inner nodes of the levels above l and, on level l, before node j of group g. */
  ghost predicate IsInnerFrom(levels: seq<Level>, r: NodeRef, l: nat, g: nat, j: nat) {
    IsInner(levels, r) && (r.level > l || (r.level == l && Before(r, g, j)))
  }

  /** father is the part of `whole` for the levels above l and the first c groups of level l. */
  ghost predicate FathersTo(levels: seq<Level>, whole: map<NodeRef, NodeRef>, father: map<NodeRef, NodeRef>, l: nat, c: nat) {
    && (forall r :: r in father <==> IsNodeFrom(levels, r, l, c))
    && (forall r :: r in father && r in whole ==> father[r] == whole[r])
  }

  /** child is the part of `whole` for the levels above l and the nodes of level l before node j of group g. */
  ghost predicate ChildrenTo(levels: seq<Level>, whole: map<NodeRef, GroupRef>, child: map<NodeRef, GroupRef>, l: nat, g: nat, j: nat) {
    && (forall r :: r in child <==> IsInnerFrom(levels, r, l, g, j))
    && (forall r :: r in child && r in whole ==> child[r] == whole[r])
  }

  /** The group below node i of group g has that node as its father. */
  ghost predicate UpNode(levels: seq<Level>, father: map<NodeRef, NodeRef>, u: nat, g: nat, i: nat)
    requires 0 < u < |levels| && g < |levels[u]|
  {
    var c := Off(levels[u], g) + i;
    c < |levels[u - 1]| && Fathered(father, u - 1, c, |levels[u - 1][c]|, NodeRef(u, g, i))
  }

  ghost predicate Upward(levels: seq<Level>, father: map<NodeRef, NodeRef>, u: nat)
    requires 0 < u < |levels|
  {
    forall g: nat, i: nat :: g < |levels[u]| && i < |levels[u][g]| ==> UpNode(levels, father, u, g, i)
  }

  lemma LinkedUpward(levels: seq<Level>, father: map<NodeRef, NodeRef>, child: map<NodeRef, GroupRef>, u: nat)
    requires Linked(levels, father, child) && 0 < u < |levels|
    ensures Upward(levels, father, u)
  {
    forall g: nat, i: nat | g < |levels[u]| && i < |levels[u][g]|
      ensures UpNode(levels, father, u, g, i)
    {
      var r := NodeRef(u, g, i);
      assert r in child && Joined(levels, father, child, r);
    }
  }

  /** A new group: all its nodes get father r. */
  method AdoptGroup(father0: map<NodeRef, NodeRef>, l: nat, c: nat, n: nat, r: NodeRef, ghost levels: seq<Level>, ghost whole: map<NodeRef, NodeRef>)
    returns (father: map<NodeRef, NodeRef>)
    requires l < |levels| && c < |levels[l]| && n == |levels[l][c]| && Fathered(whole, l, c, n, r)
    requires FathersTo(levels, whole, father0, l, c)
    ensures FathersTo(levels, whole, father, l, c + 1)
  {
    father := father0;
    for k := 0 to n
      invariant forall x :: x in father <==> x in father0 || InGroupTo(x, l, c, k)
      invariant forall x :: x in father && x in whole ==> father[x] == whole[x]
    {
      father := father[NodeRef(l, c, k) := r];
    }
    forall x
      ensures x in father <==> IsNodeFrom(levels, x, l, c + 1)
    {
      assert x in father0 <==> IsNodeFrom(levels, x, l, c);
    }
  }

  predicate InGroupTo(x: NodeRef, l: nat, c: nat, k: nat) { InGroup(x, l, c) && x.node < k }

  /** Node r takes the next group. */
  lemma ChildTaken(levels: seq<Level>, whole: map<NodeRef, GroupRef>, child: map<NodeRef, GroupRef>, r: NodeRef)
    requires IsNode(levels, r) && r.level > 0 && r in whole
    requires ChildrenTo(levels, whole, child, r.level, r.group, r.node)
    ensures ChildrenTo(levels, whole, child[r := whole[r]], r.level, r.group, r.node + 1)
  {
    var now, l, g, j := child[r := whole[r]], r.level, r.group, r.node + 1;
    forall x
      ensures x in now <==> IsInnerFrom(levels, x, l, g, j)
    {
      assert x in child <==> IsInnerFrom(levels, x, r.level, r.group, r.node);
    }
  }

  lemma ChildrenNextGroup(levels: seq<Level>, whole: map<NodeRef, GroupRef>, child: map<NodeRef, GroupRef>, l: nat, g: nat)
    requires l < |levels| && g < |levels[l]| && ChildrenTo(levels, whole, child, l, g, |levels[l][g]|)
    ensures ChildrenTo(levels, whole, child, l, g + 1, 0)
  {
    var n, g' := |levels[l][g]|, g + 1;
    forall x
      ensures IsInnerFrom(levels, x, l, g, n) <==> IsInnerFrom(levels, x, l, g', 0)
    {
    }
  }

  lemma ChildrenNextLevel(levels: seq<Level>, whole: map<NodeRef, GroupRef>, child: map<NodeRef, GroupRef>, l: nat)
    requires 0 < l < |levels| && ChildrenTo(levels, whole, child, l, |levels[l]|, 0)
    ensures ChildrenTo(levels, whole, child, l - 1, 0, 0)
  {
    forall x
      ensures IsInnerFrom(levels, x, l, |levels[l]|, 0) <==> IsInnerFrom(levels, x, l - 1, 0, 0)
    {
    }
  }

  lemma FathersNextLevel(levels: seq<Level>, whole: map<NodeRef, NodeRef>, father: map<NodeRef, NodeRef>, l: nat)
    requires 0 < l < |levels| && FathersTo(levels, whole, father, l, |levels[l]|)
    ensures FathersTo(levels, whole, father, l - 1, 0)
  {
    forall x
      ensures IsNodeFrom(levels, x, l, |levels[l]|) <==> IsNodeFrom(levels, x, l - 1, 0)
    {
    }
  }

  datatype Partial = Partial(level: Level, pos: nat, father: map<NodeRef, NodeRef>, child: map<NodeRef, GroupRef>)

  /** c groups of level l are read and linked to the nodes before node j of group g above. */
  ghost predicate ReadTo(s: Partial, pos: nat, levels: seq<Level>, fathers: map<NodeRef, NodeRef>, children: map<NodeRef, GroupRef>,
                         l: nat, g: nat, j: nat, c: nat)
    requires l < |levels|
  {
    && c <= |levels[l]| && |s.level| == c && s.pos == pos + GroupsLength(levels[l], c)
    && (forall k :: 0 <= k < c ==> s.level[k] == levels[l][k] && GroupInBounds(levels[l][k]))
    && FathersTo(levels, fathers, s.father, l, c)
    && ChildrenTo(levels, children, s.child, l + 1, g, j)
  }

  /** Reads the group below node j of group g and links the two. */
  method ReadChild(file: seq<int>, s0: Partial, ghost pos: nat, ghost levels: seq<Level>, ghost fathers: map<NodeRef, NodeRef>,
                   ghost children: map<NodeRef, GroupRef>, l: nat, g: nat, j: nat)
    returns (s: Partial, ok: bool)
    requires l + 1 < |levels| && g < |levels[l + 1]| && j < |levels[l + 1][g]|
    requires Downward(levels, children, l + 1) && Upward(levels, fathers, l + 1)
    requires HoldsGroups(file, pos, levels[l], |levels[l]|) && KindOk(levels[l], l == 0)
    requires ReadTo(s0, pos, levels, fathers, children, l, g, j, Off(levels[l + 1], g) + j)
    ensures ok ==> ReadTo(s, pos, levels, fathers, children, l, g, j + 1, Off(levels[l + 1], g) + j + 1)
    ensures !ok ==> !LevelInBounds(levels[l])
  {
    var c := |s0.level|;
    var r := NodeRef(l + 1, g, j);
    assert NodeRef(l + 1, g, j) in children && children[r] == GroupRef(l, c);
    OffInside(levels[l + 1], g, j);
    assert GroupSlot(file, pos, levels[l], c);
    assert UpNode(levels, fathers, l + 1, g, j);
    var group, pos';
    group, pos', ok := ReadGroup(file, s0.pos, l == 0, levels[l][c]);
    s := s0;
    if ok {
      var father := AdoptGroup(s0.father, l, c, |group|, r, levels, fathers);
      ChildTaken(levels, children, s0.child, r);
      s := Partial(s0.level + [group], pos', father, s0.child[r := GroupRef(l, c)]);
    }
  }

  ghost predicate KindOk(level: Level, leaf: bool) {
    forall g, k :: 0 <= g < |level| && 0 <= k < |level[g]| ==> level[g][k].Leaf? == leaf
  }

  /** Reads level l, one group for each node of the level above.  The handles of
      the level above come from one stack and are poured onto another first. */
  method ReadLevel(file: seq<int>, s0: Partial, above: Level, current: seq<GroupRef>, l: nat, ghost levels: seq<Level>,
                   ghost fathers: map<NodeRef, NodeRef>, ghost children: map<NodeRef, GroupRef>)
    returns (s: Partial, pushed: seq<GroupRef>, ok: bool)
    requires l + 1 < |levels| && above == levels[l + 1] && Count(levels[l + 1]) == |levels[l]|
    requires Handles(current, l + 1, |above|)
    requires Downward(levels, children, l + 1) && Upward(levels, fathers, l + 1)
    requires HoldsGroups(file, s0.pos, levels[l], |levels[l]|) && KindOk(levels[l], l == 0)
    requires ReadTo(s0, s0.pos, levels, fathers, children, l, 0, 0, 0)
    ensures ok ==> ReadTo(s, s0.pos, levels, fathers, children, l, |above|, 0, |levels[l]|)
    ensures ok ==> Handles(pushed, l, |levels[l]|)
    ensures ok <==> LevelInBounds(levels[l])
  {
    s, pushed, ok := s0, [], true;
    var upper := Pour(current);
    ghost var done := 0;
    while |upper| != 0
      invariant done <= |above| && |upper| == |above| - done
      invariant forall i :: 0 <= i < |upper| ==> upper[i] == GroupRef(l + 1, |above| - 1 - i)
      invariant ok && ReadTo(s, s0.pos, levels, fathers, children, l, done, 0, Off(levels[l + 1], done))
      invariant Handles(pushed, l, |s.level|)
      decreases |upper|
    {
      var g := upper[|upper| - 1].group;
      s, pushed, ok := ReadChildren(file, s, pushed, above, g, l, s0.pos, levels, fathers, children);
      if !ok {
        return;
      }
      upper := upper[..|upper| - 1];
      done := done + 1;
    }
  }

  /** The groups below all nodes of group g of the level above. */
  method ReadChildren(file: seq<int>, s0: Partial, pushed0: seq<GroupRef>, above: Level, g: nat, l: nat, ghost pos: nat,
                      ghost levels: seq<Level>, ghost fathers: map<NodeRef, NodeRef>, ghost children: map<NodeRef, GroupRef>)
    returns (s: Partial, pushed: seq<GroupRef>, ok: bool)
    requires l + 1 < |levels| && above == levels[l + 1] && g < |above|
    requires Downward(levels, children, l + 1) && Upward(levels, fathers, l + 1)
    requires HoldsGroups(file, pos, levels[l], |levels[l]|) && KindOk(levels[l], l == 0)
    requires ReadTo(s0, pos, levels, fathers, children, l, g, 0, Off(levels[l + 1], g))
    requires Handles(pushed0, l, |s0.level|)
    ensures ok ==> ReadTo(s, pos, levels, fathers, children, l, g + 1, 0, Off(levels[l + 1], g + 1))
    ensures ok ==> Handles(pushed, l, |s.level|)
    ensures !ok ==> !LevelInBounds(levels[l])
  {
    s, pushed, ok := s0, pushed0, true;
    for j := 0 to |above[g]|
      invariant ok && ReadTo(s, pos, levels, fathers, children, l, g, j, Off(levels[l + 1], g) + j)
      invariant Handles(pushed, l, |s.level|)
    {
      var handle := GroupRef(l, |s.level|);
      s, ok := ReadChild(file, s, pos, levels, fathers, children, l, g, j);
      if !ok {
        return;
      }
      pushed := pushed + [handle];
    }
    ChildrenNextGroup(levels, children, s.child, l + 1, g);
  }

  /** The leaf list as deserialize sets it: the two ends first, then the middle. */
  method RelinkTailers(n: nat) returns (m: map<GroupRef, GroupRef>)
    requires n > 0
    ensures Tailed(n, m)
  {
    m := map[GroupRef(0, n - 1) := NullGroup];
    if n > 1 {
      m := m[GroupRef(0, 0) := GroupRef(0, 1)];
      for i := 1 to n - 1
        invariant forall r :: r in m <==> IsListed(r, i, n)
        invariant forall r :: r in m ==> m[r] == TailerOf(n, r)
      {
        m := m[GroupRef(0, i) := GroupRef(0, i + 1)];
      }
    }
    ListedAll(n);
  }

  method RelinkHeaders(n: nat) returns (m: map<GroupRef, GroupRef>)
    requires n > 0
    ensures Headed(n, m)
  {
    m := map[GroupRef(0, 0) := NullGroup];
    if n > 1 {
      m := m[GroupRef(0, n - 1) := GroupRef(0, n - 2)];
      for i := 1 to n - 1
        invariant forall r :: r in m <==> IsListed(r, i, n)
        invariant forall r :: r in m ==> m[r] == HeaderOf(r)
      {
        m := m[GroupRef(0, i) := GroupRef(0, i - 1)];
      }
    }
    ListedAll(n);
  }

  method RelinkLeaves(n: nat) returns (header: map<GroupRef, GroupRef>, tailer: map<GroupRef, GroupRef>)
    requires n > 0
    ensures Chained(n, header, tailer)
  {
    header := RelinkHeaders(n);
    tailer := RelinkTailers(n);
  }

  // ----- reading the whole index -----

  /** Levels l and up are read, all in bounds, and the pointers between them set. */
  ghost predicate ReadDown(built: seq<Level>, s: Partial, levels: seq<Level>, fathers: map<NodeRef, NodeRef>,
                           children: map<NodeRef, GroupRef>, pos: nat, l: nat)
    requires l < |levels|
  {
    && built == levels[l..] && s.pos == pos + LevelsLength(levels, |levels| - 1, l)
    && (forall k :: l <= k < |levels| ==> LevelInBounds(levels[k]))
    && FathersTo(levels, fathers, s.father, l, |levels[l]|)
    && ChildrenTo(levels, children, s.child, l, 0, 0)
  }

  ghost predicate Readable(file: seq<int>, pos: nat, levels: seq<Level>, fathers: map<NodeRef, NodeRef>, children: map<NodeRef, GroupRef>) {
    && levels != [] && HoldsLevels(file, pos, levels, |levels| - 1, 0)
    && (forall l :: 0 < l < |levels| ==> Downward(levels, children, l) && Upward(levels, fathers, l))
    && (forall l :: 0 <= l < |levels| ==> KindOk(levels[l], l == 0))
  }

  /** One level further down. */
  method ReadNext(file: seq<int>, built0: seq<Level>, s0: Partial, current: seq<GroupRef>, l: nat, ghost pos: nat,
                  ghost levels: seq<Level>, ghost fathers: map<NodeRef, NodeRef>, ghost children: map<NodeRef, GroupRef>)
    returns (built: seq<Level>, s: Partial, pushed: seq<GroupRef>, ok: bool)
    requires l + 1 < |levels| && Readable(file, pos, levels, fathers, children)
    requires ReadDown(built0, s0, levels, fathers, children, pos, l + 1) && Handles(current, l + 1, |levels[l + 1]|)
    ensures ok <==> LevelInBounds(levels[l])
    ensures ok ==> ReadDown(built, s, levels, fathers, children, pos, l) && Handles(pushed, l, |levels[l]|)
  {
    var above := built0[0];
    FathersNextLevel(levels, fathers, s0.father, l + 1);
    assert LevelSlot(file, pos, levels, |levels| - 1, l);
    assert Downward(levels, children, l + 1);
    s, pushed, ok := ReadLevel(file, s0.(level := []), above, current, l, levels, fathers, children);
    built := built0;
    if ok {
      ChildrenNextLevel(levels, children, s.child, l + 1);
      assert s.level == levels[l];
      built := [s.level] + built0;
    }
  }

  lemma TreeReadable(t: Tree, file: seq<int>)
    requires WellFormed(t) && HoldsTree(file, t.levels)
    ensures Readable(file, 1 + NodeLength(t.levels[t.depth - 1][0][0]), t.levels, t.father, t.child)
  {
    AllDownward(t);
    forall l | 0 < l < |t.levels|
      ensures Upward(t.levels, t.father, l)
    {
      LinkedUpward(t.levels, t.father, t.child, l);
    }
    forall l | 0 <= l < |t.levels|
      ensures KindOk(t.levels[l], l == 0)
    {
      LevelKind(t.levels, l);
    }
  }

  lemma LevelKind(levels: seq<Level>, l: nat)
    requires Shaped(levels) && l < |levels|
    ensures KindOk(levels[l], l == 0)
  {
    forall g, k | 0 <= g < |levels[l]| && 0 <= k < |levels[l][g]|
      ensures levels[l][g][k].Leaf? == (l == 0)
    {
      FlattenAt(levels[l], g, k);
    }
  }

  /** The pointer maps of a whole index, without the list of leaves. */
  ghost predicate Pointers(levels: seq<Level>, fathers: map<NodeRef, NodeRef>, children: map<NodeRef, GroupRef>) {
    && (forall r :: r in fathers <==> IsNode(levels, r))
    && (forall r :: r in children <==> IsInner(levels, r))
    && (forall r :: IsTop(levels, r) ==> fathers[r] == NullNode)
  }

  /** The root alone: no father, nothing joined yet. */
  lemma RootRead(levels: seq<Level>, fathers: map<NodeRef, NodeRef>, children: map<NodeRef, GroupRef>, s: Partial, pos: nat)
    requires OneRoot(levels) && Pointers(levels, fathers, children) && s.pos == pos
    requires s.father == map[NodeRef(|levels| - 1, 0, 0) := NullNode] && s.child == map[]
    requires LevelInBounds(levels[|levels| - 1])
    ensures ReadDown([levels[|levels| - 1]], s, levels, fathers, children, pos, |levels| - 1)
  {
    var top := |levels| - 1;
    assert [levels[top]] == levels[top..];
    RootFathers(levels, fathers, children, s.father);
    forall r
      ensures !IsInnerFrom(levels, r, top, 0, 0)
    {
    }
  }

  lemma RootFathers(levels: seq<Level>, fathers: map<NodeRef, NodeRef>, children: map<NodeRef, GroupRef>, father: map<NodeRef, NodeRef>)
    requires OneRoot(levels) && Pointers(levels, fathers, children)
    requires father == map[NodeRef(|levels| - 1, 0, 0) := NullNode]
    ensures FathersTo(levels, fathers, father, |levels| - 1, 1)
  {
    var root := NodeRef(|levels| - 1, 0, 0);
    assert IsTop(levels, root);
    forall r
      ensures r in father <==> IsNodeFrom(levels, r, |levels| - 1, 1)
    {
      assert r in father <==> r == root;
    }
  }

  /** With all levels read, the maps are complete. */
  lemma MapsRead(levels: seq<Level>, fathers: map<NodeRef, NodeRef>, children: map<NodeRef, GroupRef>, father: map<NodeRef, NodeRef>, child: map<NodeRef, GroupRef>)
    requires levels != [] && Pointers(levels, fathers, children)
    requires FathersTo(levels, fathers, father, 0, |levels[0]|) && ChildrenTo(levels, children, child, 0, 0, 0)
    ensures father == fathers && child == children
  {
    forall r
      ensures r in father <==> r in fathers
      ensures r in child <==> r in children
    {
      assert IsNodeFrom(levels, r, 0, |levels[0]|) <==> IsNode(levels, r);
      assert IsInnerFrom(levels, r, 0, 0, 0) <==> IsInner(levels, r);
    }
    assert father.Keys == fathers.Keys && child.Keys == children.Keys;
  }

  lemma RootBounds(levels: seq<Level>)
    requires OneRoot(levels)
    ensures LevelInBounds(levels[|levels| - 1]) <==> NodeInBounds(levels[|levels| - 1][0][0])
    ensures !NodeInBounds(levels[|levels| - 1][0][0]) ==> !InBounds(levels)
  {
    assert GroupInBounds(levels[|levels| - 1][0]) <==> NodeInBounds(levels[|levels| - 1][0][0]);
  }

  /** Nodes and parent links, from the root down. */
  method ReadTree(file: seq<int>, ghost levels: seq<Level>, ghost fathers: map<NodeRef, NodeRef>, ghost children: map<NodeRef, GroupRef>)
    returns (built: seq<Level>, father: map<NodeRef, NodeRef>, child: map<NodeRef, GroupRef>, ok: bool)
    requires OneRoot(levels) && Pointers(levels, fathers, children) && HoldsTree(file, levels)
    requires Readable(file, 1 + NodeLength(levels[|levels| - 1][0][0]), levels, fathers, children)
    ensures ok <==> InBounds(levels)
    ensures ok ==> built == levels && father == fathers && child == children
  {
    built, father, child := [], map[], map[];
    var depth := file[0];
    ghost var pos := 1 + NodeLength(levels[depth - 1][0][0]);
    RootBounds(levels);
    assert KindOk(levels[depth - 1], depth - 1 == 0);
    var node;
    node, ok := ReadNode(file, 1, depth == 1, levels[depth - 1][0][0]);
    if !ok {
      return;
    }
    var s := Partial([], 1 + NodeLength(node), map[NodeRef(depth - 1, 0, 0) := NullNode], map[]);
    built := [[[node]]];
    assert levels[depth - 1] == [levels[depth - 1][0]] && levels[depth - 1][0] == [node];
    RootRead(levels, fathers, children, s, pos);
    var l := depth - 1;
    var current := [GroupRef(l, 0)];
    while l > 0
      invariant 0 <= l < |levels| && ok && ReadDown(built, s, levels, fathers, children, pos, l)
      invariant Handles(current, l, |levels[l]|)
    {
      l := l - 1;
      built, s, current, ok := ReadNext(file, built, s, current, l, pos, levels, fathers, children);
      if !ok {
        return;
      }
    }
    MapsRead(levels, fathers, children, s.father, s.child);
    father, child := s.father, s.child;
  }

  /** Reading back what serialize wrote rebuilds the very same index, nodes and
      pointers, exactly when all offsets are within the loader's bounds. */
  method Deserialize(file: seq<int>, ghost t: Tree) returns (u: Tree, ok: bool)
    requires WellFormed(t) && HoldsTree(file, t.levels)
    ensures ok <==> InBounds(t.levels)
    ensures ok ==> u == t
  {
    u := EMPTY;
    TreeReadable(t, file);
    var built, father, child;
    built, father, child, ok := ReadTree(file, t.levels, t.father, t.child);
    if ok {
      var header, tailer := RelinkLeaves(|built[0]|);
      ChainDetermined(|t.levels[0]|, header, tailer, t.header, t.tailer);
      var depth := file[0];
      u := Tree(built, father, child, header, tailer, NodeRef(depth - 1, 0, 0), depth, GroupRef(0, 0), GroupRef(0, |built[0]| - 1));
    }
  }
}
