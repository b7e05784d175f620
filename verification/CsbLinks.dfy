/** Setting the father and child pointers of one new level, node by node. */
module CsbLinks {
  import opened CsbLayout
  import opened CsbTree

  predicate Before(r: NodeRef, g: nat, j: nat) {
    r.NodeRef? && (r.group < g || (r.group == g && r.node < j))
  }

  /** Everything is linked but the top-level nodes from node j of group g on. */
  ghost predicate LinkedTo(levels: seq<Level>, father: map<NodeRef, NodeRef>, child: map<NodeRef, GroupRef>, g: nat, j: nat) {
    && (forall r :: r in father <==> IsNode(levels, r))
    && (forall r :: r in child <==> IsInnerTo(levels, r, g, j))
    && (forall r :: r in child ==> Joined(levels, father, child, r))
    && (forall r :: IsTop(levels, r) ==> father[r] == NullNode)
  }

  /** Inner nodes, of the top level only those before node j of group g. */
  ghost predicate IsInnerTo(levels: seq<Level>, r: NodeRef, g: nat, j: nat) {
    IsInner(levels, r) && (r.level < |levels| - 1 || Before(r, g, j))
  }

  /** Earlier nodes of a level have smaller flat positions. */
  lemma FlatOrder(levels: seq<Level>, a: NodeRef, b: NodeRef)
    requires IsNode(levels, a) && IsNode(levels, b) && a.level == b.level && Before(a, b.group, b.node)
    ensures FlatOf(levels, a) < FlatOf(levels, b)
  {
    if a.group < b.group {
      OffInside(levels[a.level], a.group, a.node);
      PreMono(Sizes(levels[a.level]), a.group + 1, b.group);
    }
  }

  /** The n nodes of group g of level l now have father r; no other father changed. */
  ghost predicate Refathered(was: map<NodeRef, NodeRef>, now: map<NodeRef, NodeRef>, l: nat, g: nat, n: nat, r: NodeRef) {
    && now.Keys == was.Keys
    && Fathered(now, l, g, n, r)
    && forall x :: x in was && !InGroup(x, l, g) ==> now[x] == was[x]
  }

  predicate InGroup(x: NodeRef, l: nat, g: nat) { x.NodeRef? && x.level == l && x.group == g }

  lemma JoinStep(levels: seq<Level>, was: map<NodeRef, NodeRef>, wasChild: map<NodeRef, GroupRef>,
                 now: map<NodeRef, NodeRef>, r: NodeRef)
    requires Shaped(levels) && IsNode(levels, r) && r.level == |levels| - 1 > 0
    requires LinkedTo(levels, was, wasChild, r.group, r.node)
    requires HasGroupBelow(levels, r) && Refathered(was, now, r.level - 1, FlatOf(levels, r), |levels[r.level - 1][FlatOf(levels, r)]|, r)
    ensures LinkedTo(levels, now, wasChild[r := GroupRef(r.level - 1, FlatOf(levels, r))], r.group, r.node + 1)
  {
    var j := FlatOf(levels, r);
    var child := wasChild[r := GroupRef(r.level - 1, j)];
    forall x | x in child
      ensures Joined(levels, now, child, x)
    {
      if x != r {
        assert x in wasChild && Joined(levels, was, wasChild, x);
        if x.level == r.level {
          FlatOrder(levels, x, r);
        }
        OtherKept(levels, was, wasChild, now, child, r, x);
      }
    }
    forall x
      ensures x in child <==> IsInnerTo(levels, x, r.group, r.node + 1)
    {
      assert x in child <==> x in wasChild || x == r;
    }
    forall x | IsTop(levels, x)
      ensures now[x] == NullNode
    {
      assert x in was && !InGroup(x, r.level - 1, j);
    }
  }

  lemma OtherKept(levels: seq<Level>, was: map<NodeRef, NodeRef>, wasChild: map<NodeRef, GroupRef>,
                  now: map<NodeRef, NodeRef>, child: map<NodeRef, GroupRef>, r: NodeRef, x: NodeRef)
    requires IsNode(levels, r) && r.level > 0 && IsNode(levels, x) && x.level > 0 && HasGroupBelow(levels, r)
    requires Refathered(was, now, r.level - 1, FlatOf(levels, r), |levels[r.level - 1][FlatOf(levels, r)]|, r)
    requires Joined(levels, was, wasChild, x)
    requires x in child && child[x] == wasChild[x]
    requires x.level != r.level || FlatOf(levels, x) != FlatOf(levels, r)
    ensures Joined(levels, now, child, x)
  {
    var l, j := x.level - 1, FlatOf(levels, x);
    forall k | 0 <= k < |levels[l][j]|
      ensures NodeRef(l, j, k) in now && now[NodeRef(l, j, k)] == x
    {
      assert NodeRef(l, j, k) in was && was[NodeRef(l, j, k)] == x;
    }
  }

  ghost predicate HasGroupBelow(levels: seq<Level>, r: NodeRef)
    requires IsNode(levels, r) && r.level > 0
  {
    FlatOf(levels, r) < |levels[r.level - 1]|
  }

  lemma FlatInside(levels: seq<Level>, r: NodeRef)
    requires Shaped(levels) && IsNode(levels, r) && r.level > 0
    ensures HasGroupBelow(levels, r)
  {
    OffInside(levels[r.level], r.group, r.node);
  }

  /** Past the last node of a group, the next group begins. */
  lemma NextGroup(levels: seq<Level>, father: map<NodeRef, NodeRef>, child: map<NodeRef, GroupRef>, g: nat)
    requires levels != [] && g < |levels[|levels| - 1]|
    requires LinkedTo(levels, father, child, g, |levels[|levels| - 1][g]|)
    ensures LinkedTo(levels, father, child, g + 1, 0)
  {
    var n, g' := |levels[|levels| - 1][g]|, g + 1;
    forall r
      ensures IsInnerTo(levels, r, g, n) <==> IsInnerTo(levels, r, g', 0)
    {
    }
  }

  lemma AllLinked(levels: seq<Level>, father: map<NodeRef, NodeRef>, child: map<NodeRef, GroupRef>)
    requires levels != [] && LinkedTo(levels, father, child, |levels[|levels| - 1]|, 0)
    ensures Linked(levels, father, child)
  {
    forall r
      ensures IsInner(levels, r) <==> IsInnerTo(levels, r, |levels[|levels| - 1]|, 0)
    {
    }
  }

  /** The constructor's null father for every node of a new level. */
  function FreshFathers(lv: Level, l: nat): (m: map<NodeRef, NodeRef>)
    ensures forall r :: r in m <==> IsNodeOf(lv, l, r)
    ensures forall r :: r in m ==> m[r] == NullNode
  {
    map g: nat, i: nat | g < |lv| && i < |lv[g]| :: NodeRef(l, g, i) := NullNode
  }

  predicate IsNodeOf(lv: Level, l: nat, r: NodeRef) {
    r.NodeRef? && r.level == l && r.group < |lv| && r.node < |lv[r.group]|
  }

  /** A new level starts with null fathers and nothing joined. */
  lemma LevelAdded(levels: seq<Level>, father: map<NodeRef, NodeRef>, child: map<NodeRef, GroupRef>, lv: Level)
    requires levels != [] && Linked(levels, father, child)
    ensures LinkedTo(levels + [lv], father + FreshFathers(lv, |levels|), child, 0, 0)
  {
    var up := levels + [lv];
    var father' := father + FreshFathers(lv, |levels|);
    assert forall k :: 0 <= k < |levels| ==> up[k] == levels[k];
    forall r
      ensures r in father' <==> IsNode(up, r)
      ensures IsTop(up, r) ==> father'[r] == NullNode
      ensures r in child <==> IsInnerTo(up, r, 0, 0)
    {
      assert r in father <==> IsNode(levels, r);
      assert r in child <==> IsInner(levels, r);
      assert IsTop(up, r) ==> IsNodeOf(lv, |levels|, r);
    }
    forall r | r in child
      ensures Joined(up, father', child, r)
    {
      assert Joined(levels, father, child, r);
      FreshKeeps(levels, father, child, lv, r);
    }
  }

  lemma FreshKeeps(levels: seq<Level>, father: map<NodeRef, NodeRef>, child: map<NodeRef, GroupRef>, lv: Level, r: NodeRef)
    requires IsNode(levels, r) && r.level > 0 && Joined(levels, father, child, r)
    ensures IsNode(levels + [lv], r) && Joined(levels + [lv], father + FreshFathers(lv, |levels|), child, r)
  {
    var up := levels + [lv];
    assert up[r.level] == levels[r.level] && up[r.level - 1] == levels[r.level - 1];
    var l, j := r.level - 1, FlatOf(levels, r);
    forall k | 0 <= k < |up[l][j]|
      ensures NodeRef(l, j, k) in father + FreshFathers(lv, |levels|)
      ensures (father + FreshFathers(lv, |levels|))[NodeRef(l, j, k)] == r
    {
      assert NodeRef(l, j, k) in father && father[NodeRef(l, j, k)] == r;
      assert NodeRef(l, j, k) !in FreshFathers(lv, |levels|);
    }
  }
}
