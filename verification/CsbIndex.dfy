/** CSBPlusTree<int>: the index object and its bulk loader. */
module CsbIndex {
  import opened CsbLayout
  import opened CsbTree
  import opened CsbLoader
  import opened CsbQuery
  import opened CsbDisk

  class CSBPlusTree {
    const maxKeys: nat
    const maxDatas: nat

    /** The root, the depth, the nodes and their pointers. */
    var tree: Tree

    constructor (maxKeys: nat, maxDatas: nat)
      requires maxKeys >= 2 && maxDatas >= 2
      ensures tree == EMPTY && this.maxKeys == maxKeys && this.maxDatas == maxDatas
    {
      this.maxKeys, this.maxDatas := maxKeys, maxDatas;
      tree := EMPTY;
    }

    /** Loading any array into a fresh index gives a well-formed index of exactly
        its entries, with every node but the root at least half full. */
    method BulkLoad(es: seq<Entry>)
      requires maxKeys >= 2 && maxDatas >= 2 && tree == EMPTY
      modifies this
      ensures Indexes(tree, es)
      ensures Occupied(tree.levels, maxKeys, maxDatas)
      ensures tree.depth == 0 <==> |es| == 0
      ensures tree.depth >= 2 <==> |es| > maxDatas
    {
      if |es| == 0 {
        return;
      } else if |es| <= maxDatas {
        SingleLeaf(es, maxKeys, maxDatas);
        tree := SingleLeafTree(es);
      } else {
        var t := LoadLevels(es, maxKeys, maxDatas);
        tree := t;
      }
    }

    /** Saving one index and loading it into a fresh one: the same index, so every
        query answers the same; refused exactly when some entry is out of bounds. */
    method CopyThroughDisk(from: CSBPlusTree) returns (ok: bool)
      requires WellFormed(from.tree)
      modifies this
      ensures ok <==> EntriesInBounds(Content(old(from.tree).levels[0]))
      ensures ok <==> forall i :: 0 <= i < |Content(old(from.tree).levels[0])| ==>
                        Content(old(from.tree).levels[0])[i].block < 1024 && Content(old(from.tree).levels[0])[i].tuple < 2047
      ensures ok ==> tree == old(from.tree)
      ensures !ok ==> tree == old(tree)
    {
      var t := from.tree;
      InBoundsEntries(t.levels);
      var file := Serialize(t);
      var u;
      u, ok := Deserialize(file, t);
      if ok {
        tree := u;
      }
    }
  }

  /** The whole index over any sorted array: load it, save it, load the file into a
      second index when the offsets allow, and query that one.  The answers
      are those of filtering the array. */
  method LoadSaveQuery(es: seq<Entry>, maxKeys: nat, maxDatas: nat, lower: int, upper: int)
    returns (point: map<nat, seq<nat>>, range: map<nat, seq<nat>>)
    requires maxKeys >= 2 && maxDatas >= 2 && KeySorted(es)
    ensures point == Collect(Select(es, Point(lower)))
    ensures range == Collect(Select(es, Range(lower, false, upper, false)))
    ensures exists p, q :: 0 <= p <= q <= |es| && point == Collect(es[p..q]) &&
                forall x :: 0 <= x < |es| ==> (p <= x < q <==> es[x].key == lower)
    ensures exists p, q :: 0 <= p <= q <= |es| && range == Collect(es[p..q]) &&
                forall x :: 0 <= x < |es| ==> (p <= x < q <==> lower <= es[x].key <= upper)
  {
    var index := new CSBPlusTree(maxKeys, maxDatas);
    index.BulkLoad(es);
    var t := index.tree;
    if |es| > 0 {
      var copy := new CSBPlusTree(maxKeys, maxDatas);
      var ok := copy.CopyThroughDisk(index);
      if ok {
        t := copy.tree;
      }
    }
    point := Search(t, lower, es);
    range := RangeQuery(t, lower, upper, es);
  }

  function SingleLeafTree(es: seq<Entry>): Tree {
    Tree([[[Leaf(es)]]], map[NodeRef(0, 0, 0) := NullNode], map[],
         map[GroupRef(0, 0) := NullGroup], map[GroupRef(0, 0) := NullGroup],
         NodeRef(0, 0, 0), 1, GroupRef(0, 0), GroupRef(0, 0))
  }

  /** A single leaf is the root and the whole list. */
  lemma SingleLeaf(es: seq<Entry>, maxKeys: nat, maxDatas: nat)
    requires 0 < |es| <= maxDatas
    ensures WellFormed(SingleLeafTree(es)) && Content(SingleLeafTree(es).levels[0]) == es
    ensures Occupied(SingleLeafTree(es).levels, maxKeys, maxDatas)
  {
    var lv: Level := [[Leaf(es)]];
    assert FlattenTo(lv, 1) == FlattenTo(lv, 0) + lv[0];
    assert Flatten(lv) == [Leaf(es)];
    assert LeafDatas(lv) == [es];
    assert FlattenTo([es], 1) == FlattenTo([es], 0) + es;
    assert Content(lv) == es;
    assert Shaped([lv]);
  }

  /** The open-range query does fail: one entry, and a range that covers it. */
  lemma SingleLeafFallsThrough()
    ensures var es := [Entry(5, 0, 0)];
            Indexes(SingleLeafTree(es), es) && RunsOffRoot(SingleLeafTree(es), RangeOf(1, GEQ, 9, LEQ), es)
  {
    SingleLeaf([Entry(5, 0, 0)], 2, 2);
  }

  /** A reload is refused: one entry whose block offset is one too large. */
  lemma ReloadRefused()
    ensures var es := [Entry(5, 1024, 0)];
            Indexes(SingleLeafTree(es), es) && !InBounds(SingleLeafTree(es).levels)
  {
    var es := [Entry(5, 1024, 0)];
    SingleLeaf(es, 2, 2);
    InBoundsEntries(SingleLeafTree(es).levels);
    assert !EntryInBounds(es[0]);
  }

  /** What a reload of one entry accepts: block offsets up to 1023, tuple offsets up to 2046. */
  lemma ReloadBound(key: int, block: nat, tuple: nat)
    ensures var es := [Entry(key, block, tuple)];
            Indexes(SingleLeafTree(es), es) && (InBounds(SingleLeafTree(es).levels) <==> block < 1024 && tuple < 2047)
  {
    var es := [Entry(key, block, tuple)];
    SingleLeaf(es, 2, 2);
    InBoundsEntries(SingleLeafTree(es).levels);
    assert EntriesInBounds(es) <==> EntryInBounds(es[0]);
  }
}
