/** The bulk loader's loops: planning the sizes of a level, filling its nodes
    and recording the keys for the level above. */
module CsbLoader {
  import opened Arithmetic
  import opened CsbLayout
  import opened CsbTree
  import opened CsbBuild
  import opened CsbLinks

  // ----- what a partly filled level looks like -----

  /** f leaves are filled from the first i entries, and off keys are written. */
  ghost predicate LeavesFilled(es: seq<Entry>, used: seq<nat>, ns: seq<Node>, f: nat, i: nat, keys: seq<int>, off: nat)
    requires Sum(used) == |es| && Positive(used)
  {
    && f <= |used| && |ns| == f && i == Pre(used, f)
    && (forall x :: 0 <= x < f ==> ns[x] == Leaf(Piece(es, used, x)))
    && off == (if f == 0 then 0 else f - 1) && off <= |keys|
    && forall x :: 0 <= x < off ==> (PieceInside(used, x + 1); keys[x] == es[Pre(used, x + 1)].key)
  }

  lemma LeavesFilledStep(es: seq<Entry>, used: seq<nat>, ns: seq<Node>, f: nat, i: nat, keys: seq<int>, off: nat,
                         datas: seq<Entry>, keys': seq<int>, off': nat)
    requires Sum(used) == |es| && Positive(used) && LeavesFilled(es, used, ns, f, i, keys, off)
    requires f < |used| && i + used[f] <= |es| && datas == es[i..i + used[f]]
    requires if i == 0 then keys' == keys && off' == off
             else off < |keys| && keys' == keys[off := es[i].key] && off' == off + 1
    ensures LeavesFilled(es, used, ns + [Leaf(datas)], f + 1, i + used[f], keys', off')
  {
    PieceInside(used, f);
    if f > 0 {
      PrePositive(used, f);
    }
  }

  /** f inner nodes are filled; the keys read and sent up so far. */
  ghost predicate InnersFilled(keys: seq<int>, below: seq<nat>, ns: seq<Node>, f: nat, i: nat, up: seq<int>, off: nat)
    requires |keys| + 1 == Sum(below) && Positive(below)
  {
    && f <= |below| && |ns| == f
    && i == (if f == |below| then |keys| else Pre(below, f))
    && (forall x :: 0 <= x < f ==> ns[x] == InnerNode(keys, below, x))
    && off == (if f == |below| then f - 1 else f) && off <= |up|
    && forall x :: 0 <= x < off ==> up[x] == UpKey(keys, below, x)
  }

  lemma InnersFilledStep(keys: seq<int>, below: seq<nat>, ns: seq<Node>, f: nat, i: nat, up: seq<int>, off: nat,
                         ks: seq<int>, up': seq<int>, i': nat, off': nat)
    requires |keys| + 1 == Sum(below) && Positive(below) && InnersFilled(keys, below, ns, f, i, up, off)
    requires f < |below| && i + below[f] - 1 <= |keys| && ks == keys[i..i + below[f] - 1]
    requires if f + 1 == |below| then up' == up && off' == off && i' == i + below[f] - 1
             else off < |up| && i + below[f] <= |keys| && off' == off + 1 && i' == i + below[f] &&
                  up' == up[off := keys[i + below[f] - 1]]
    ensures InnersFilled(keys, below, ns + [Inner(ks)], f + 1, i', up', off')
  {
    PieceInside(below, f);
  }

  // ----- planning -----

  /** Node counts of groupNum groups when the last would hold rest nodes. */
  method PlanGroups(groupNum: nat, rest: nat, maxKeys: nat) returns (counts: seq<nat>)
    requires maxKeys >= 2 && groupNum >= 2 && 0 < rest <= maxKeys + 1
    ensures ShareShape(groupNum, maxKeys + 1, maxKeys / 2 + 1, rest, counts)
  {
    var counter := 0;
    counts := [];
    while counter < groupNum - 2
      invariant 0 <= counter <= groupNum - 2 && |counts| == counter
      invariant forall g :: 0 <= g < counter ==> counts[g] == maxKeys + 1
    {
      counts := counts + [maxKeys + 1];
      counter := counter + 1;
    }
    if rest >= maxKeys / 2 + 1 {
      counts := counts + [maxKeys + 1, rest];
    } else {
      var both := rest + (maxKeys + 1);
      Halves(both);
      counts := counts + [if both % 2 == 0 then both / 2 else both / 2 + 1, both / 2];
    }
  }

  /** Entry counts of the leaves: all full but the last two. */
  method PlanLeaves(n: nat, leafNum: nat, groupNum: nat, maxDatas: nat) returns (used: seq<nat>)
    requires maxDatas >= 2 && n > maxDatas && leafNum == CeilDiv(n, maxDatas) && groupNum >= 1
    ensures n >= (leafNum - 1) * maxDatas
    ensures ShareShape(leafNum, maxDatas, maxDatas / 2, n - (leafNum - 1) * maxDatas, used)
  {
    LastShare(n, maxDatas);
    var counter := 0;
    used := [];
    while counter < leafNum - 2
      invariant 0 <= counter && |used| == counter && (leafNum >= 2 ==> counter <= leafNum - 2)
      invariant forall f :: 0 <= f < counter ==> used[f] == maxDatas
    {
      used := used + [maxDatas];
      counter := counter + 1;
    }
    var last := n - (leafNum - 1) * maxDatas;
    LeafCountAtLeastTwo(n, maxDatas);
    if groupNum == 1 {
      if last >= maxDatas / 2 {
        used := used + [maxDatas, last];
      } else {
        var rest := n - maxDatas * (leafNum - 2);
        assert rest == last + maxDatas;
        Halves(rest);
        used := used + [if rest % 2 == 1 then rest / 2 + 1 else rest / 2, rest / 2];
      }
    } else {
      var restdata := n % maxDatas;
      if restdata == 0 {
        restdata := maxDatas;
      }
      LastShareIsRemainder(n, maxDatas);
      if restdata >= maxDatas / 2 {
        used := used + [maxDatas, restdata];
      } else {
        restdata := restdata + maxDatas;
        Halves(restdata);
        used := used + [if restdata % 2 == 0 then restdata / 2 else restdata / 2 + 1, restdata / 2];
      }
    }
  }

  // ----- leaf level -----

  /** Groups of the leaf level of n entries. */
  method PlanLeafGroups(n: nat, leafNum: nat, groupNum: nat, maxKeys: nat, maxDatas: nat) returns (counts: seq<nat>)
    requires maxKeys >= 2 && maxDatas >= 2 && n > 0
    requires leafNum == CeilDiv(n, maxDatas) && leafNum > 0 && groupNum == CeilDiv(leafNum, maxKeys + 1)
    ensures GroupPlan(counts, leafNum, maxKeys)
  {
    if groupNum == 1 {
      counts := [leafNum];
    } else {
      LastShare(leafNum, maxKeys + 1);
      LastShare(n, maxDatas);
      var full := (groupNum - 1) * (maxKeys + 1);
      RestOfLeaves(n, maxDatas, full);
      var rest := CeilDiv(n - full * maxDatas, maxDatas);
      counts := PlanGroups(groupNum, rest, maxKeys);
      SharesAre(leafNum, groupNum, maxKeys + 1, maxKeys / 2 + 1, counts);
    }
    GroupPlanOk(leafNum, maxKeys, counts);
  }

  /** Sizes of the groups and of the leaves over n entries. */
  method PlanLeafLevel(n: nat, maxKeys: nat, maxDatas: nat) returns (counts: seq<nat>, used: seq<nat>)
    requires maxKeys >= 2 && maxDatas >= 2 && n > maxDatas
    ensures GroupPlan(counts, |used|, maxKeys) && |used| == CeilDiv(n, maxDatas) && |used| >= 2
    ensures Sum(used) == n && Positive(used) && Within(used, maxDatas, maxDatas / 2)
  {
    var leafNum := CeilDiv(n, maxDatas);
    LeafCountAtLeastTwo(n, maxDatas);
    LastShare(leafNum, maxKeys + 1);
    var groupNum := CeilDiv(leafNum, maxKeys + 1);
    counts := PlanLeafGroups(n, leafNum, groupNum, maxKeys, maxDatas);
    used := PlanLeaves(n, leafNum, groupNum, maxDatas);
    LeafPlanUsable(n, leafNum, maxDatas, used);
  }

  method SetTailers(n: nat) returns (m: map<GroupRef, GroupRef>)
    requires n > 0
    ensures Tailed(n, m)
  {
    m := map[GroupRef(0, n - 1) := NullGroup];
    for i := 0 to n - 1
      invariant forall r :: r in m <==> IsListed(r, i, n)
      invariant forall r :: r in m ==> m[r] == TailerOf(n, r)
    {
      m := m[GroupRef(0, i) := GroupRef(0, i + 1)];
    }
    ListedAll(n);
  }

  method SetHeaders(n: nat) returns (m: map<GroupRef, GroupRef>)
    requires n > 0
    ensures Headed(n, m)
  {
    m := map[GroupRef(0, 0) := NullGroup];
    for i := 1 to n
      invariant Headed(i, m)
    {
      m := m[GroupRef(0, i) := GroupRef(0, i - 1)];
    }
  }

  /** The first i leaf groups and the last of n. */
  predicate IsListed(r: GroupRef, i: nat, n: nat) {
    r.GroupRef? && r.level == 0 && (r.group < i || r.group == n - 1)
  }

  lemma ListedAll(n: nat)
    requires n > 0
    ensures forall r :: IsListed(r, n - 1, n) <==> IsLeafGroup(n, r)
  {
  }

  /** The doubly linked list through n leaf groups. */
  method ChainLeaves(n: nat) returns (header: map<GroupRef, GroupRef>, tailer: map<GroupRef, GroupRef>)
    requires n > 0
    ensures Chained(n, header, tailer)
  {
    tailer := SetTailers(n);
    header := SetHeaders(n);
  }

  method FillNode(es: seq<Entry>, start: nat, count: nat, keys: array<int>, off: nat) returns (datas: seq<Entry>, off': nat)
    requires start + count <= |es| && count > 0 && (start != 0 ==> off < keys.Length)
    modifies keys
    ensures datas == es[start..start + count]
    ensures if start == 0 then keys[..] == old(keys[..]) && off' == off
            else keys[..] == old(keys[..])[off := es[start].key] && off' == off + 1
  {
    datas, off' := [], off;
    var i := start;
    for k := 0 to count
      invariant i == start + k && datas == es[start..i]
      invariant if k == 0 || start == 0 then keys[..] == old(keys[..]) && off' == off
                else keys[..] == old(keys[..])[off := es[start].key] && off' == off + 1
    {
      datas := datas + [es[i]];
      if i != 0 && k == 0 {
        keys[off'] := es[i].key;
        off' := off' + 1;
      }
      i := i + 1;
    }
  }

  /** Fills count leaves after the nodes already filled. */
  method FillLeafGroup(es: seq<Entry>, used: seq<nat>, count: nat, i0: nat, f0: nat, keys: array<int>, off0: nat, ghost done: seq<Node>)
    returns (nodes: seq<Node>, i: nat, f: nat, off: nat)
    requires Sum(used) == |es| && Positive(used) && |used| == keys.Length + 1 && f0 + count <= |used|
    requires LeavesFilled(es, used, done, f0, i0, keys[..], off0)
    modifies keys
    ensures |nodes| == count && f == f0 + count && LeavesFilled(es, used, done + nodes, f, i, keys[..], off)
  {
    nodes, i, f, off := [], i0, f0, off0;
    assert done + nodes == done;
    for j := 0 to count
      invariant |nodes| == j && f == f0 + j
      invariant LeavesFilled(es, used, done + nodes, f, i, keys[..], off)
    {
      ghost var before := keys[..];
      PieceInside(used, f);
      PrePositive(used, f);
      var datas, off' := FillNode(es, i, used[f], keys, off);
      LeavesFilledStep(es, used, done + nodes, f, i, before, off, datas, keys[..], off');
      assert done + nodes + [Leaf(datas)] == done + (nodes + [Leaf(datas)]);
      nodes := nodes + [Leaf(datas)];
      i, f, off := i + used[f], f + 1, off';
    }
  }

  /** Fills the planned nodes group by group and records the upper keys. */
  method FillLeaves(es: seq<Entry>, counts: seq<nat>, used: seq<nat>, keys: array<int>) returns (lv: Level, off: nat)
    requires Sum(used) == |es| && Positive(used) && Sum(counts) == |used| == keys.Length + 1
    modifies keys
    ensures Sizes(lv) == counts && LeafNodes(es, used, Flatten(lv))
    ensures off == keys.Length && LeafKeys(es, used, keys[..])
  {
    lv, off := [], 0;
    var i: nat, f: nat := 0, 0;
    for g := 0 to |counts|
      invariant |lv| == g && forall x :: 0 <= x < g ==> |lv[x]| == counts[x]
      invariant f == Pre(counts, g)
      invariant LeavesFilled(es, used, Flatten(lv), f, i, keys[..], off)
    {
      PreMono(counts, g + 1, |counts|);
      var nodes;
      nodes, i, f, off := FillLeafGroup(es, used, counts[g], i, f, keys, off, Flatten(lv));
      FlattenAppend(lv, nodes);
      lv := lv + [nodes];
    }
    assert Sizes(lv) == counts;
  }

  function LeafTree(lv: Level, header: map<GroupRef, GroupRef>, tailer: map<GroupRef, GroupRef>): Tree
    requires lv != []
  {
    Tree([lv], FreshFathers(lv, 0), map[], header, tailer, NullNode, 1, GroupRef(0, 0), GroupRef(0, |lv| - 1))
  }

  method MakeLeafNodeGroup(es: seq<Entry>, keys: array<int>, maxKeys: nat, maxDatas: nat)
    returns (t: Tree, off: nat, ghost ks: seq<int>)
    requires maxKeys >= 2 && maxDatas >= 2 && |es| > maxDatas
    requires keys.Length + 1 == CeilDiv(|es|, maxDatas)
    modifies keys
    ensures off == keys.Length && ks == keys[..]
    ensures Stacked(t, es, ks, maxKeys, maxDatas)
  {
    var counts, used := PlanLeafLevel(|es|, maxKeys, maxDatas);
    var lv;
    lv, off := FillLeaves(es, counts, used, keys);
    ks := keys[..];
    var header, tailer := ChainLeaves(|lv|);
    t := LeafTree(lv, header, tailer);
    LeavesStacked(t, lv, es, used, counts, ks, maxKeys, maxDatas);
  }

  /** One inner node, and the key after it when there is one. */
  method FillInnerNode(keys: array<int>, start: nat, count: nat, full: bool, up: array<int>, off: nat)
    returns (ks: seq<int>, i: nat, off': nat)
    requires keys != up && start + count <= keys.Length
    requires full ==> start + count < keys.Length
    requires start + count < keys.Length ==> off < up.Length
    modifies up
    ensures ks == keys[start..start + count]
    ensures if start + count < keys.Length
            then up[..] == old(up[..])[off := keys[start + count]] && off' == off + 1 && i == start + count + 1
            else up[..] == old(up[..]) && off' == off && i == start + count
  {
    ks, i, off' := [], start, off;
    for k := 0 to count
      invariant i == start + k && ks == keys[start..i] && up[..] == old(up[..])
    {
      ks := ks + [keys[i]];
      i := i + 1;
    }
    if full || i < keys.Length {
      up[off'] := keys[i];
      off', i := off' + 1, i + 1;
    }
  }

  /** Fills count inner nodes after the nodes already filled.  A full node takes maxKeys
      keys, the last two as many as their groups need. */
  method FillInnerGroup(keys: array<int>, below: seq<nat>, maxKeys: nat, count: nat, i0: nat, f0: nat, up: array<int>, off0: nat,
                        ghost ks: seq<int>, ghost done: seq<Node>)
    returns (nodes: seq<Node>, i: nat, f: nat, off: nat)
    requires ks == keys[..] && |ks| + 1 == Sum(below) && Positive(below) && |below| == up.Length + 1
    requires forall j :: 0 <= j < |below| - 2 ==> below[j] == maxKeys + 1
    requires keys != up && f0 + count <= |below| && InnersFilled(ks, below, done, f0, i0, up[..], off0)
    modifies up
    ensures |nodes| == count && f == f0 + count && ks == keys[..]
    ensures InnersFilled(ks, below, done + nodes, f, i, up[..], off)
  {
    nodes, i, f, off := [], i0, f0, off0;
    assert done + nodes == done;
    for j := 0 to count
      invariant |nodes| == j && f == f0 + j && ks == keys[..]
      invariant InnersFilled(ks, below, done + nodes, f, i, up[..], off)
    {
      PieceInside(below, f);
      if f + 1 < |below| { PieceInside(below, f + 1); }
      var number := if f < |below| - 2 then maxKeys else below[f] - 1;
      ghost var before := up[..];
      var taken, i', off' := FillInnerNode(keys, i, number, f < |below| - 2, up, off);
      assert taken == ks[i..i + number];
      InnersFilledStep(ks, below, done + nodes, f, i, before, off, taken, up[..], i', off');
      assert done + nodes + [Inner(taken)] == done + (nodes + [Inner(taken)]);
      nodes := nodes + [Inner(taken)];
      i, f, off := i', f + 1, off';
    }
  }

  /** Fills the planned inner nodes over the groups of the level below; the key
      between two nodes goes up. */
  method FillInners(keys: array<int>, counts: seq<nat>, below: seq<nat>, maxKeys: nat, up: array<int>, ghost ks: seq<int>)
    returns (lv: Level, off: nat)
    requires ks == keys[..] && |ks| + 1 == Sum(below) && Positive(below) && Sum(counts) == |below| == up.Length + 1
    requires forall j :: 0 <= j < |below| - 2 ==> below[j] == maxKeys + 1
    requires keys != up
    modifies up
    ensures Sizes(lv) == counts && InnerNodes(ks, below, Flatten(lv))
    ensures off == up.Length && UpKeys(ks, below, up[..])
  {
    lv, off := [], 0;
    var i: nat, f: nat := 0, 0;
    for g := 0 to |counts|
      invariant |lv| == g && forall x :: 0 <= x < g ==> |lv[x]| == counts[x]
      invariant f == Pre(counts, g) && ks == keys[..]
      invariant InnersFilled(ks, below, Flatten(lv), f, i, up[..], off)
    {
      PreMono(counts, g + 1, |counts|);
      var nodes;
      nodes, i, f, off := FillInnerGroup(keys, below, maxKeys, counts[g], i, f, up, off, ks, Flatten(lv));
      FlattenAppend(lv, nodes);
      lv := lv + [nodes];
    }
    assert Sizes(lv) == counts;
  }

  // ----- linking a new level to the one below -----

  method SetFathers(father: map<NodeRef, NodeRef>, l: nat, g: nat, n: nat, r: NodeRef) returns (now: map<NodeRef, NodeRef>)
    requires forall k :: 0 <= k < n ==> NodeRef(l, g, k) in father
    ensures Refathered(father, now, l, g, n, r)
  {
    now := father;
    for k := 0 to n
      invariant Refathered(father, now, l, g, k, r)
    {
      assert NodeRef(l, g, k) in father;
      now := now[NodeRef(l, g, k) := r];
    }
  }

  /** Node r of the top level takes group g below. */
  method JoinNode(levels: seq<Level>, father0: map<NodeRef, NodeRef>, child0: map<NodeRef, GroupRef>, r: NodeRef, g: nat)
    returns (father: map<NodeRef, NodeRef>, child: map<NodeRef, GroupRef>)
    requires Shaped(levels) && IsNode(levels, r) && r.level == |levels| - 1 > 0 && g == FlatOf(levels, r)
    requires LinkedTo(levels, father0, child0, r.group, r.node)
    ensures LinkedTo(levels, father, child, r.group, r.node + 1)
  {
    FlatInside(levels, r);
    var l := r.level - 1;
    forall k | 0 <= k < |levels[l][g]|
      ensures NodeRef(l, g, k) in father0
    {
      assert IsNode(levels, NodeRef(l, g, k));
    }
    father := SetFathers(father0, l, g, |levels[l][g]|, r);
    child := child0[r := GroupRef(l, g)];
    JoinStep(levels, father0, child0, father, r);
  }

  /** Gives every node of the top level, in order, the next group below. */
  method LinkLevel(levels: seq<Level>, father0: map<NodeRef, NodeRef>, child0: map<NodeRef, GroupRef>)
    returns (father: map<NodeRef, NodeRef>, child: map<NodeRef, GroupRef>)
    requires |levels| >= 2 && Shaped(levels) && LinkedTo(levels, father0, child0, 0, 0)
    ensures Linked(levels, father, child)
  {
    var top := |levels| - 1;
    father, child := father0, child0;
    var leafi := 0;
    for g := 0 to |levels[top]|
      invariant leafi == Off(levels[top], g) && LinkedTo(levels, father, child, g, 0)
    {
      for j := 0 to |levels[top][g]|
        invariant leafi == Off(levels[top], g) + j && LinkedTo(levels, father, child, g, j)
      {
        father, child := JoinNode(levels, father, child, NodeRef(top, g, j), leafi);
        leafi := leafi + 1;
      }
      NextGroup(levels, father, child, g);
    }
    AllLinked(levels, father, child);
  }

  /** One correct level more on top of t, grouped as planned. */
  ghost predicate Raised(t: Tree, u: Tree, counts: seq<nat>, upKeys: seq<int>, maxKeys: nat, maxDatas: nat) {
    && |t.levels| > 0 && |u.levels| == |t.levels| + 1 && t.levels <= u.levels
    && Shaped(u.levels) && Separated(u.levels) && Linked(u.levels, u.father, u.child)
    && TopKeys(u.levels, upKeys)
    && Occupied(u.levels, maxKeys, maxDatas)
    && Sizes(u.levels[|t.levels|]) == counts
    && (|t.levels[|t.levels| - 1]| >= 2 ==> LevelHalfFull(u.levels[|t.levels|], maxKeys, maxDatas))
    && u == t.(levels := u.levels, father := u.father, child := u.child, depth := t.depth + 1)
  }

  /** Fills the next level from the key array, in groups of the given sizes, and links it. */
  method BuildInner(t: Tree, keys: array<int>, counts: seq<nat>, up: array<int>, maxKeys: nat,
                    ghost es: seq<Entry>, ghost ks: seq<int>, ghost maxDatas: nat)
    returns (u: Tree, off: nat, ghost ups: seq<int>)
    requires Stacked(t, es, ks, maxKeys, maxDatas) && ks == keys[..]
    requires Positive(counts) && Within(counts, maxKeys + 1, maxKeys / 2 + 1)
    requires Sum(counts) == |t.levels[t.depth - 1]| == up.Length + 1 && keys != up
    modifies up
    ensures off == up.Length && ups == up[..] && Raised(t, u, counts, ups, maxKeys, maxDatas)
  {
    var below := Sizes(t.levels[t.depth - 1]);
    var lv;
    lv, off := FillInners(keys, counts, below, maxKeys, up, ks);
    ups := up[..];
    AddLevel(t.levels, ks, lv, below, ups);
    InnerLevelFits(ks, lv, below, maxKeys, maxDatas);
    LevelAdded(t.levels, t.father, t.child, lv);
    var levels := t.levels + [lv];
    var father, child := LinkLevel(levels, t.father + FreshFathers(lv, t.depth), t.child);
    u := t.(levels := levels, father := father, child := child, depth := t.depth + 1);
    RaisedOccupied(t.levels, lv, maxKeys, maxDatas);
  }

  lemma RaisedOccupied(levels: seq<Level>, lv: Level, maxKeys: nat, maxDatas: nat)
    requires levels != [] && Occupied(levels, maxKeys, maxDatas) && LevelHalfFull(levels[|levels| - 1], maxKeys, maxDatas)
    requires LevelFits(lv, maxKeys, maxDatas)
    ensures Occupied(levels + [lv], maxKeys, maxDatas)
  {
    var up := levels + [lv];
    forall l | 0 <= l < |up|
      ensures LevelFits(up[l], maxKeys, maxDatas)
      ensures l < |up| - 1 ==> LevelHalfFull(up[l], maxKeys, maxDatas)
    {
      if l < |levels| {
        assert up[l] == levels[l];
      }
    }
  }

  method PlanInnerGroups(m: nat, maxKeys: nat) returns (counts: seq<nat>)
    requires m > 0 && maxKeys >= 2
    ensures GroupPlan(counts, m, maxKeys)
  {
    LastShare(m, maxKeys + 1);
    var groupNum := CeilDiv(m, maxKeys + 1);
    if groupNum >= 2 {
      var rest := m - (groupNum - 1) * (maxKeys + 1);
      counts := PlanGroups(groupNum, rest, maxKeys);
      SharesAre(m, groupNum, maxKeys + 1, maxKeys / 2 + 1, counts);
    } else {
      counts := [m];
    }
    GroupPlanOk(m, maxKeys, counts);
  }

  /** Above several groups the raised tree is a stack again. */
  lemma RaisedStacked(t: Tree, u: Tree, es: seq<Entry>, keys: seq<int>, counts: seq<nat>, upKeys: seq<int>, maxKeys: nat, maxDatas: nat)
    requires Stacked(t, es, keys, maxKeys, maxDatas) && Raised(t, u, counts, upKeys, maxKeys, maxDatas)
    requires |t.levels[t.depth - 1]| >= 2 && GroupPlan(counts, |upKeys| + 1, maxKeys)
    ensures Stacked(u, es, upKeys, maxKeys, maxDatas)
  {
    assert u.levels[0] == t.levels[0];
    assert Sum(counts) == Count(u.levels[t.depth]) == |t.levels[t.depth - 1]|;
  }

  /** A single group below and a single node above: that node is the root. */
  lemma RaisedRoot(t: Tree, u: Tree, es: seq<Entry>, keys: seq<int>, upKeys: seq<int>, maxKeys: nat, maxDatas: nat)
    requires Stacked(t, es, keys, maxKeys, maxDatas) && Raised(t, u, [1], upKeys, maxKeys, maxDatas)
    ensures WellFormed(u.(root := NodeRef(u.depth - 1, 0, 0))) && Content(u.levels[0]) == es
  {
    assert u.levels[0] == t.levels[0];
    assert |u.levels[t.depth]| == 1 && |u.levels[t.depth][0]| == Sizes(u.levels[t.depth])[0];
  }

  /** One inner level over a top level of several groups. */
  method MakeInternalNodeGroup(t: Tree, keys: array<int>, up: array<int>, maxKeys: nat,
                               ghost es: seq<Entry>, ghost ks: seq<int>, ghost maxDatas: nat)
    returns (u: Tree, off: nat, ghost ups: seq<int>)
    requires Stacked(t, es, ks, maxKeys, maxDatas) && ks == keys[..] && keys != up
    requires |t.levels[t.depth - 1]| == up.Length + 1 >= 2
    modifies up
    ensures off == up.Length && ups == up[..] && Stacked(u, es, ups, maxKeys, maxDatas)
  {
    var counts := PlanInnerGroups(up.Length + 1, maxKeys);
    u, off, ups := BuildInner(t, keys, counts, up, maxKeys, es, ks, maxDatas);
    RaisedStacked(t, u, es, ks, counts, ups, maxKeys, maxDatas);
  }

  /** The root over a top level of a single group. */
  method MakeRoot(t: Tree, keys: array<int>, maxKeys: nat,
                  ghost es: seq<Entry>, ghost ks: seq<int>, ghost maxDatas: nat)
    returns (u: Tree)
    requires Stacked(t, es, ks, maxKeys, maxDatas) && ks == keys[..] && |t.levels[t.depth - 1]| == 1
    ensures WellFormed(u) && Content(u.levels[0]) == es
    ensures Occupied(u.levels, maxKeys, maxDatas) && u.depth >= 2
  {
    var none := new int[0];
    SingleSum();
    ghost var ups;
    var off;
    u, off, ups := BuildInner(t, keys, [1], none, maxKeys, es, ks, maxDatas);
    RaisedRoot(t, u, es, ks, ups, maxKeys, maxDatas);
    u := u.(root := NodeRef(u.depth - 1, 0, 0));
  }

  lemma SingleSum()
    ensures Sum([1]) == 1 && Positive([1])
  {
    assert Pre([1], 1) == Pre([1], 0) + 1;
  }

  lemma GroupPlanOk(m: nat, maxKeys: nat, s: seq<nat>)
    requires m > 0 && maxKeys >= 2 && s == Shares(m, maxKeys + 1, maxKeys / 2 + 1)
    ensures GroupPlan(s, m, maxKeys)
  {
    SharesUsable(m, maxKeys + 1, maxKeys / 2 + 1, s);
    GroupNumber(m, maxKeys);
  }

  /** One group exactly when the nodes fit in one; always fewer groups than nodes. */
  lemma GroupNumber(m: nat, maxKeys: nat)
    requires m > 0 && maxKeys >= 1
    ensures var q := CeilDiv(m, maxKeys + 1); (q == 1 <==> m <= maxKeys + 1) && (m >= 2 ==> q < m)
  {
    var q := CeilDiv(m, maxKeys + 1);
    CeilDivBounds(m, maxKeys + 1);
    if m <= maxKeys + 1 {
      CeilDivUnique(m, maxKeys + 1, 1);
    }
    if q >= m && m >= 2 {
      MulLe(m - 1, q - 1, maxKeys + 1);
      MulLe(2, maxKeys + 1, m - 1);
    }
  }

  /** One group at the top exactly when its keys fit in one node. */
  lemma TopGroups(t: Tree, es: seq<Entry>, keys: seq<int>, maxKeys: nat, maxDatas: nat)
    requires Stacked(t, es, keys, maxKeys, maxDatas)
    ensures |t.levels[t.depth - 1]| == 1 <==> |keys| <= maxKeys
    ensures 1 <= |t.levels[t.depth - 1]| <= |keys|
  {
    assert |t.levels[t.depth - 1]| == |Sizes(t.levels[t.depth - 1])|;
  }

  /** Bottom up: the leaves, then one inner level after another up to the root. */
  method LoadLevels(es: seq<Entry>, maxKeys: nat, maxDatas: nat) returns (t: Tree)
    requires maxKeys >= 2 && maxDatas >= 2 && |es| > maxDatas
    ensures WellFormed(t) && Content(t.levels[0]) == es
    ensures Occupied(t.levels, maxKeys, maxDatas) && t.depth >= 2
  {
    LeafCountAtLeastTwo(|es|, maxDatas);
    var keys := new int[CeilDiv(|es|, maxDatas) - 1];
    var num;
    ghost var ks;
    t, num, ks := MakeLeafNodeGroup(es, keys, maxKeys, maxDatas);
    while num > maxKeys
      invariant num == keys.Length && fresh(keys) && ks == keys[..]
      invariant Stacked(t, es, ks, maxKeys, maxDatas)
      decreases num
    {
      TopGroups(t, es, ks, maxKeys, maxDatas);
      var up := new int[|t.levels[t.depth - 1]| - 1];
      t, num, ks := MakeInternalNodeGroup(t, keys, up, maxKeys, es, ks, maxDatas);
      keys := up;
    }
    TopGroups(t, es, ks, maxKeys, maxDatas);
    t := MakeRoot(t, keys, maxKeys, es, ks, maxDatas);
  }

  lemma Halves(n: nat)
    ensures (n + 1) / 2 == (if n % 2 == 0 then n / 2 else n / 2 + 1) && (n + 1) / 2 + n / 2 == n
  {
  }

  /** b bins of capacity c, the last holding last before balancing. */
  predicate ShareShape(b: nat, c: nat, h: nat, last: nat, s: seq<nat>) {
    && b >= 2 && |s| == b
    && (forall j :: 0 <= j < b - 2 ==> s[j] == c)
    && (if last >= h then s[b - 2] == c && s[b - 1] == last
        else s[b - 2] == (last + c + 1) / 2 && s[b - 1] == (last + c) / 2)
  }

  lemma SharesAre(m: nat, b: nat, c: nat, h: nat, s: seq<nat>)
    requires c > 0 && m > 0 && b == CeilDiv(m, c)
    requires m >= (b - 1) * c && ShareShape(b, c, h, m - (b - 1) * c, s)
    ensures s == Shares(m, c, h)
  {
  }

  /** Group sizes as the loader plans them: fewest groups, only the last two short. */
  ghost predicate GroupPlan(sizes: seq<nat>, m: nat, maxKeys: nat) {
    && Positive(sizes) && Sum(sizes) == m
    && (|sizes| == 1 <==> m <= maxKeys + 1) && (m >= 2 ==> |sizes| < m)
    && Within(sizes, maxKeys + 1, maxKeys / 2 + 1)
    && forall j :: 0 <= j < |sizes| - 2 ==> sizes[j] == maxKeys + 1
  }

  /** The levels built so far are correct, and keys are the first keys of all
      top-level nodes but the first. */
  ghost predicate Stacked(t: Tree, es: seq<Entry>, keys: seq<int>, maxKeys: nat, maxDatas: nat) {
    && Shaped(t.levels) && Separated(t.levels) && Linked(t.levels, t.father, t.child)
    && Chained(|t.levels[0]|, t.header, t.tailer)
    && Content(t.levels[0]) == es && TopKeys(t.levels, keys)
    && t.depth == |t.levels| && t.leafHeader == GroupRef(0, 0) && t.leafTailer == GroupRef(0, |t.levels[0]| - 1)
    && Occupied(t.levels, maxKeys, maxDatas) && LevelHalfFull(t.levels[t.depth - 1], maxKeys, maxDatas)
    && maxKeys >= 2 && |keys| >= 1
    && GroupPlan(Sizes(t.levels[t.depth - 1]), |keys| + 1, maxKeys)
  }

  lemma LeavesStacked(t: Tree, lv: Level, es: seq<Entry>, used: seq<nat>, counts: seq<nat>, keys: seq<int>, maxKeys: nat, maxDatas: nat)
    requires maxKeys >= 2 && |used| >= 2 && GroupPlan(counts, |used|, maxKeys)
    requires Sum(used) == |es| && Positive(used) && Within(used, maxDatas, maxDatas / 2)
    requires Sizes(lv) == counts && LeafNodes(es, used, Flatten(lv)) && LeafKeys(es, used, keys)
    requires t.levels == [lv] && t.father == FreshFathers(lv, 0) && t.child == map[]
    requires Chained(|lv|, t.header, t.tailer)
    requires t.depth == 1 && t.leafHeader == GroupRef(0, 0) && t.leafTailer == GroupRef(0, |lv| - 1)
    ensures Stacked(t, es, keys, maxKeys, maxDatas)
  {
    LeafLevelOk(lv, es, used, keys);
    LeafLevelFits(lv, es, used, maxKeys, maxDatas);
    LeavesLinked(lv);
  }

  lemma LeafPlanUsable(n: nat, leafNum: nat, maxDatas: nat, used: seq<nat>)
    requires maxDatas >= 2 && n > maxDatas && leafNum == CeilDiv(n, maxDatas)
    requires n >= (leafNum - 1) * maxDatas
    requires ShareShape(leafNum, maxDatas, maxDatas / 2, n - (leafNum - 1) * maxDatas, used)
    ensures Sum(used) == n && Positive(used) && Within(used, maxDatas, maxDatas / 2)
  {
    SharesAre(n, leafNum, maxDatas, maxDatas / 2, used);
    SharesUsable(n, maxDatas, maxDatas / 2, used);
  }

  lemma LeavesLinked(lv: Level)
    ensures Linked([lv], FreshFathers(lv, 0), map[])
  {
  }

  lemma SharesUsable(m: nat, c: nat, h: nat, s: seq<nat>)
    requires m > 0 && c > 0 && h <= (c + 1) / 2 && s == Shares(m, c, h)
    ensures Sum(s) == m && Positive(s) && Within(s, c, h) && |s| == CeilDiv(m, c)
    ensures forall j :: 0 <= j < |s| - 2 ==> s[j] == c
  {
    SharesLaws(m, c, h);
    LastShare(m, c);
  }

  /** Leaves left for the last group, counted from the entries left. */
  lemma RestOfLeaves(n: nat, d: nat, full: nat)
    requires d > 0 && n > 0 && full < CeilDiv(n, d)
    ensures n > full * d && CeilDiv(n - full * d, d) == CeilDiv(n, d) - full
  {
    var q := CeilDiv(n, d);
    CeilDivBounds(n, d);
    MulLe(full, q - 1, d);
    var r := q - full;
    assert r * d == q * d - full * d && (r - 1) * d == (q - 1) * d - full * d;
    CeilDivUnique(n - full * d, d, r);
  }

  lemma LeafCountAtLeastTwo(n: nat, d: nat)
    requires d > 0 && n > d
    ensures CeilDiv(n, d) >= 2
  {
    CeilDivBounds(n, d);
    if CeilDiv(n, d) <= 1 {
      MulLe(CeilDiv(n, d), 1, d);
    }
  }

  lemma LastShareIsRemainder(n: nat, d: nat)
    requires d > 0 && n > 0
    ensures n - (CeilDiv(n, d) - 1) * d == if n % d == 0 then d else n % d
  {
    var q := n / d;
    assert n == q * d + n % d;
    if n % d == 0 {
      CeilDivUnique(n, d, q);
      assert q > 0;
      assert (q - 1) * d == q * d - d;
    } else {
      assert (q + 1) * d == q * d + d;
      CeilDivUnique(n, d, q + 1);
    }
  }
}
