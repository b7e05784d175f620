/** The filter kernel: the reference loop, the emitted block graph, and repeated calls
    that go on from the saved cursors. */
module FilterKernel {

  /** The tuples from lo to hi that pass. */
  function Kept<T>(c: seq<T>, lo: nat, hi: nat, pass: T -> bool): seq<T>
    requires hi <= |c|
    decreases hi
  {
    if hi <= lo then [] else Kept(c, lo, hi - 1, pass) + if pass(c[hi - 1]) then [c[hi - 1]] else []
  }

  lemma {:induction false} KeptSplit<T>(c: seq<T>, lo: nat, mid: nat, hi: nat, pass: T -> bool)
    requires lo <= mid <= hi <= |c|
    ensures Kept(c, lo, hi, pass) == Kept(c, lo, mid, pass) + Kept(c, mid, hi, pass)
    decreases hi
  {
    if mid < hi {
      KeptSplit(c, lo, mid, hi - 1, pass);
    }
  }

  /** The output buffer and the two cursors. */
  datatype Cursors<T> = Cursors(b: seq<T>, bCur: nat, cCur: nat)

  /** What one call does. */
  function Processed<T>(k: Cursors<T>, bCount: nat, c: seq<T>, pass: T -> bool): (r: Cursors<T>)
    requires bCount <= |k.b|
    ensures |r.b| == |k.b|
    decreases |c| - k.cCur
  {
    if k.cCur >= |c| then k
    else if !pass(c[k.cCur]) then Processed(k.(cCur := k.cCur + 1), bCount, c, pass)
    else if k.bCur >= bCount then k
    else Processed(Cursors(k.b[k.bCur := c[k.cCur]], k.bCur + 1, k.cCur + 1), bCount, c, pass)
  }

  /** The call appends exactly the passing tuples it moved over, and stops only at the
      end of the input or before a passing tuple when the output is full. */
  lemma {:induction false} ProcessedKeeps<T>(k: Cursors<T>, bCount: nat, c: seq<T>, pass: T -> bool)
    requires k.bCur <= bCount <= |k.b| && k.cCur <= |c|
    ensures var r := Processed(k, bCount, c, pass);
            && k.cCur <= r.cCur <= |c| && k.bCur <= r.bCur <= bCount
            && r.b[..k.bCur] == k.b[..k.bCur]
            && r.b[k.bCur..r.bCur] == Kept(c, k.cCur, r.cCur, pass)
            && r.b[r.bCur..] == k.b[r.bCur..]
            && (r.cCur == |c| || (r.bCur == bCount && pass(c[r.cCur])))
    decreases |c| - k.cCur
  {
    var r := Processed(k, bCount, c, pass);
    if k.cCur < |c| && (!pass(c[k.cCur]) || k.bCur < bCount) {
      var x := c[k.cCur];
      var n := if pass(x) then Cursors(k.b[k.bCur := x], k.bCur + 1, k.cCur + 1) else k.(cCur := k.cCur + 1);
      ProcessedKeeps(n, bCount, c, pass);
      KeptSplit(c, k.cCur, k.cCur + 1, r.cCur, pass);
      assert Kept(c, k.cCur, k.cCur, pass) == [];
      if pass(x) {
        assert r.b[k.bCur] == r.b[..k.bCur + 1][k.bCur] == x;
        assert r.b[k.bCur..r.bCur] == [x] + r.b[k.bCur + 1..r.bCur];
        assert r.b[..k.bCur] == r.b[..k.bCur + 1][..k.bCur];
        assert r.b[r.bCur..] == n.b[r.bCur..] == k.b[r.bCur..];
      }
    }
  }

  /** process_func */
  method ProcessFunc<T>(b: array<T>, bStart: nat, bCount: nat, c: seq<T>, cStart: nat, pass: T -> bool)
    returns (bCur: nat, cCur: nat)
    requires bCount <= b.Length
    modifies b
    ensures Cursors(b[..], bCur, cCur) == Processed(Cursors(old(b[..]), bStart, cStart), bCount, c, pass)
  {
    bCur, cCur := bStart, cStart;
    ghost var goal := Processed(Cursors(b[..], bCur, cCur), bCount, c, pass);
    while cCur < |c|
      invariant Processed(Cursors(b[..], bCur, cCur), bCount, c, pass) == goal
      decreases |c| - cCur
    {
      if pass(c[cCur]) {
        if bCur < bCount {
          ghost var was := b[..];
          b[bCur] := c[cCur];
          assert b[..] == was[bCur := c[cCur]];
          bCur := bCur + 1;
        } else {
          break;
        }
      }
      cCur := cCur + 1;
    }
  }

  // ----- the emitted block graph -----

  datatype Label = Entry | WhileCond | WhileBody | IfPassed | IfHasSpace | WhileEnd | ExitBlock

  /** The machine: the next block, the memory (buffer and both cursors), and the two
      values that live across blocks: the address of the current tuple and its result. */
  datatype Machine<T> = Machine(at: Label, mem: Cursors<T>, tuple: nat, passed: bool)

  /** Runs one basic block. */
  function Block<T>(m: Machine<T>, bCount: nat, c: seq<T>, pass: T -> bool): (r: Machine<T>)
    requires bCount <= |m.mem.b| && (m.at.WhileBody? ==> m.mem.cCur < |c|)
    requires m.at.IfHasSpace? ==> m.mem.bCur < |m.mem.b| && m.tuple < |c|
  {
    match m.at
    case Entry => m.(at := WhileCond)
    case WhileCond => m.(at := if m.mem.cCur < |c| then WhileBody else ExitBlock)
    case WhileBody =>
      var tuple := m.mem.cCur;
      var passed := pass(c[tuple]);
      m.(tuple := tuple, passed := passed, at := if passed then IfPassed else WhileEnd)
    case IfPassed => m.(at := if m.mem.bCur < bCount then IfHasSpace else ExitBlock)
    case IfHasSpace =>
      m.(mem := Cursors(m.mem.b[m.mem.bCur := c[m.tuple]], m.mem.bCur + 1, m.mem.cCur), at := WhileEnd)
    case WhileEnd => m.(mem := m.mem.(cCur := m.mem.cCur + 1), at := WhileCond)
    case ExitBlock => m
  }

  /** The machine is in a state that some run from the entry reaches. */
  predicate Reached<T>(m: Machine<T>, bCount: nat, c: seq<T>) {
    && bCount <= |m.mem.b|
    && (m.at.WhileBody? || m.at.IfPassed? || m.at.IfHasSpace? ==> m.mem.cCur < |c|)
    && (m.at.IfPassed? || m.at.IfHasSpace? ==> m.tuple == m.mem.cCur)
    && (m.at.IfHasSpace? ==> m.mem.bCur < bCount)
  }

  /** Runs n blocks. */
  function Blocks<T>(m: Machine<T>, n: nat, bCount: nat, c: seq<T>, pass: T -> bool): (r: Machine<T>)
    requires Reached(m, bCount, c)
    ensures Reached(r, bCount, c)
    decreases n
  {
    if n == 0 then m else Blocks(Block(m, bCount, c, pass), n - 1, bCount, c, pass)
  }

  lemma {:induction false} BlocksSplit<T>(m: Machine<T>, i: nat, j: nat, bCount: nat, c: seq<T>, pass: T -> bool)
    requires Reached(m, bCount, c)
    ensures Blocks(m, i + j, bCount, c, pass) == Blocks(Blocks(m, i, bCount, c, pass), j, bCount, c, pass)
    decreases i
  {
    if i > 0 {
      BlocksSplit(Block(m, bCount, c, pass), i - 1, j, bCount, c, pass);
    }
  }

  /** One turn of the loop, from the condition to the condition or to the exit. */
  lemma OneTurn<T>(m: Machine<T>, bCount: nat, c: seq<T>, pass: T -> bool) returns (n: nat)
    requires m.at == WhileCond && bCount <= |m.mem.b|
    ensures var r := Blocks(m, n, bCount, c, pass);
            if m.mem.cCur >= |c| || (pass(c[m.mem.cCur]) && m.mem.bCur >= bCount)
            then r.at == ExitBlock && r.mem == m.mem
            else r.at == WhileCond && r.mem.cCur == m.mem.cCur + 1 &&
                 Processed(r.mem, bCount, c, pass) == Processed(m.mem, bCount, c, pass)
  {
    var m1 := Block(m, bCount, c, pass);
    assert Blocks(m, 1, bCount, c, pass) == Blocks(m1, 0, bCount, c, pass) == m1;
    n := 1;
    if m.mem.cCur < |c| {
      var m2 := Block(m1, bCount, c, pass);
      var m3 := Block(m2, bCount, c, pass);
      assert Blocks(m1, 2, bCount, c, pass) == Blocks(m2, 1, bCount, c, pass) == Blocks(m3, 0, bCount, c, pass);
      n := 3;
      if pass(c[m.mem.cCur]) && m.mem.bCur < bCount {
        var m4 := Block(m3, bCount, c, pass);
        var m5 := Block(m4, bCount, c, pass);
        assert Blocks(m3, 2, bCount, c, pass) == Blocks(m4, 1, bCount, c, pass) == Blocks(m5, 0, bCount, c, pass);
        BlocksSplit(m, 3, 2, bCount, c, pass);
        n := 5;
      }
    }
  }

  /** The graph ends, and in the cursors and the output of the reference loop. */
  lemma {:induction false} GraphRefinesLoop<T>(m: Machine<T>, bCount: nat, c: seq<T>, pass: T -> bool) returns (n: nat)
    requires m.at == WhileCond && bCount <= |m.mem.b|
    ensures var r := Blocks(m, n, bCount, c, pass);
            r.at == ExitBlock && r.mem == Processed(m.mem, bCount, c, pass)
    decreases |c| - m.mem.cCur
  {
    n := OneTurn(m, bCount, c, pass);
    var r := Blocks(m, n, bCount, c, pass);
    if r.at == WhileCond {
      var k := GraphRefinesLoop(r, bCount, c, pass);
      BlocksSplit(m, n, k, bCount, c, pass);
      n := n + k;
    }
  }

  /** From the entry block. */
  lemma EmittedRefinesReference<T>(mem: Cursors<T>, bCount: nat, c: seq<T>, pass: T -> bool) returns (n: nat)
    requires bCount <= |mem.b|
    ensures var r := Blocks(Machine(Entry, mem, 0, false), n, bCount, c, pass);
            r.at == ExitBlock && r.mem == Processed(mem, bCount, c, pass)
  {
    var m := Machine(Entry, mem, 0, false);
    var k := GraphRefinesLoop(Block(m, bCount, c, pass), bCount, c, pass);
    n := k + 1;
  }

  // ----- repeated calls -----

  function Concat<T>(outs: seq<seq<T>>, n: nat): seq<T>
    requires n <= |outs|
  {
    if n == 0 then [] else Concat(outs, n - 1) + outs[n - 1]
  }

  lemma {:induction false} ConcatSame<T>(outs: seq<seq<T>>, o: seq<T>, n: nat)
    requires n <= |outs|
    ensures Concat(outs + [o], n) == Concat(outs, n)
  {
    if n > 0 {
      ConcatSame(outs, o, n - 1);
    }
  }

  /** One call into a new output block. */
  method FillBlock<T(0)>(c: seq<T>, cStart: nat, room: nat, pass: T -> bool) returns (out: seq<T>, cCur: nat)
    requires cStart <= |c|
    ensures cStart <= cCur <= |c| && out == Kept(c, cStart, cCur, pass) && |out| <= room
    ensures cCur == |c| || (|out| == room && pass(c[cCur]))
  {
    var b := new T[room];
    ghost var k := Cursors(b[..], 0, cStart);
    var bCur;
    bCur, cCur := ProcessFunc(b, 0, room, c, cStart, pass);
    ProcessedKeeps(k, room, c, pass);
    out := b[..bCur];
    assert out == b[..][0..bCur];
  }

  /** Calls into blocks of any capacities: together the blocks hold the passing tuples of
      the part read so far, nothing twice and nothing left out; a block that is not full
      means that the input is used up. */
  method FilterAll<T(0)>(c: seq<T>, capacities: seq<nat>, pass: T -> bool) returns (outs: seq<seq<T>>, cCur: nat)
    ensures |outs| == |capacities| && cCur <= |c|
    ensures Concat(outs, |outs|) == Kept(c, 0, cCur, pass)
    ensures forall i :: 0 <= i < |outs| ==> |outs[i]| <= capacities[i]
    ensures cCur == |c| || forall i :: 0 <= i < |outs| ==> |outs[i]| == capacities[i]
  {
    outs, cCur := [], 0;
    while |outs| < |capacities|
      invariant |outs| <= |capacities| && cCur <= |c|
      invariant Concat(outs, |outs|) == Kept(c, 0, cCur, pass)
      invariant forall i :: 0 <= i < |outs| ==> |outs[i]| <= capacities[i]
      invariant cCur == |c| || forall i :: 0 <= i < |outs| ==> |outs[i]| == capacities[i]
      decreases |capacities| - |outs|
    {
      var out, next := FillBlock(c, cCur, capacities[|outs|], pass);
      KeptSplit(c, 0, cCur, next, pass);
      ConcatSame(outs, out, |outs|);
      outs, cCur := outs + [out], next;
    }
  }
}
