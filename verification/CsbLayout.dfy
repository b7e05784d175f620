/** How the bulk loader shares items out: entries over leaf nodes, nodes over
    node groups.  Both levels use one rule, written here once. */
module CsbLayout {

  import opened Arithmetic

  /** Total of the first j shares: where share j begins. */
  function Pre(s: seq<nat>, j: nat): nat
    requires j <= |s|
  {
    if j == 0 then 0 else Pre(s, j - 1) + s[j - 1]
  }

  function Sum(s: seq<nat>): nat { Pre(s, |s|) }

  lemma {:induction false} PreMono(s: seq<nat>, i: nat, j: nat)
    requires i <= j <= |s|
    ensures Pre(s, i) <= Pre(s, j)
    decreases j - i
  {
    if i < j {
      PreMono(s, i, j - 1);
    }
  }

  lemma {:induction false} PreSame(s: seq<nat>, t: seq<nat>, j: nat)
    requires j <= |s| && j <= |t| && forall k :: 0 <= k < j ==> s[k] == t[k]
    ensures Pre(s, j) == Pre(t, j)
  {
    if j > 0 {
      PreSame(s, t, j - 1);
    }
  }

  lemma {:induction false} PreConst(s: seq<nat>, j: nat, c: nat)
    requires j <= |s| && forall k :: 0 <= k < j ==> s[k] == c
    ensures Pre(s, j) == j * c
  {
    if j > 0 {
      PreConst(s, j - 1, c);
    }
  }

  /** m items over the fewest bins of capacity c, all bins full but the last
      two; when the last bin would hold fewer than h, the last two bins split
      their items evenly, the extra one to the left. */
  function Shares(m: nat, c: nat, h: nat): (s: seq<nat>)
    requires m > 0 && c > 0
  {
    LastShare(m, c);
    var b := CeilDiv(m, c);
    if b == 1 then [m]
    else
      var last := m - (b - 1) * c;
      if last >= h then seq(b - 1, _ => c) + [last]
      else seq(b - 2, _ => c) + [(last + c + 1) / 2, (last + c) / 2]
  }

  /** Fewest bins, nothing lost, no bin over capacity, only the last two bins
      short, and with two bins or more none below h. */
  lemma SharesLaws(m: nat, c: nat, h: nat)
    requires m > 0 && c > 0 && h <= (c + 1) / 2
    ensures var s := Shares(m, c, h);
            && |s| == CeilDiv(m, c)
            && Sum(s) == m
            && (forall j :: 0 <= j < |s| ==> 0 < s[j] <= c)
            && (forall j :: 0 <= j < |s| - 2 ==> s[j] == c)
            && (|s| >= 2 ==> forall j :: 0 <= j < |s| ==> s[j] >= h)
  {
    var s := Shares(m, c, h);
    var b := CeilDiv(m, c);
    CeilDivBounds(m, c);
    if b == 1 {
      assert Pre(s, 1) == Pre(s, 0) + s[0];
      assert m <= 1 * c;
    } else {
      var last := m - (b - 1) * c;
      LastShare(m, c);
      PreConst(s, b - 2, c);
      assert (b - 2) * c + c == (b - 1) * c;
      assert Pre(s, b) == Pre(s, b - 1) + s[b - 1];
    }
  }

  lemma LastShare(m: nat, c: nat)
    requires m > 0 && c > 0
    ensures var b := CeilDiv(m, c); b > 0 && 0 < m - (b - 1) * c <= c
  {
    var b := CeilDiv(m, c);
    CeilDivBounds(m, c);
    assert b * c == (b - 1) * c + c;
  }

  /** The shares of s, in order. */
  function Cut<T>(s: seq<T>, sizes: seq<nat>): (r: seq<seq<T>>)
    requires Sum(sizes) == |s|
    ensures |r| == |sizes| && forall j :: 0 <= j < |sizes| ==> r[j] == Piece(s, sizes, j)
  {
    seq(|sizes|, j requires 0 <= j < |sizes| => Piece(s, sizes, j))
  }

  function Piece<T>(s: seq<T>, sizes: seq<nat>, j: nat): (r: seq<T>)
    requires Sum(sizes) == |s| && j < |sizes|
    ensures |r| == sizes[j]
  {
    PreMono(sizes, j + 1, |sizes|);
    s[Pre(sizes, j)..Pre(sizes, j + 1)]
  }

  function Sizes<T>(ss: seq<seq<T>>): (r: seq<nat>)
    ensures |r| == |ss| && forall j :: 0 <= j < |ss| ==> r[j] == |ss[j]|
  {
    seq(|ss|, j requires 0 <= j < |ss| => |ss[j]|)
  }

  /** The first j pieces in one sequence. */
  function FlattenTo<T>(ss: seq<seq<T>>, j: nat): (r: seq<T>)
    requires j <= |ss|
    ensures |r| == Pre(Sizes(ss), j)
  {
    if j == 0 then [] else FlattenTo(ss, j - 1) + ss[j - 1]
  }

  function Flatten<T>(ss: seq<seq<T>>): (r: seq<T>)
    ensures |r| == Sum(Sizes(ss))
  {
    FlattenTo(ss, |ss|)
  }

  lemma {:induction false} FlattenPrefix<T>(ss: seq<seq<T>>, i: nat, j: nat)
    requires i <= j <= |ss|
    ensures FlattenTo(ss, i) <= FlattenTo(ss, j)
    decreases j - i
  {
    if i < j {
      FlattenPrefix(ss, i, j - 1);
    }
  }

  lemma {:induction false} FlattenSame<T>(ss: seq<seq<T>>, tt: seq<seq<T>>, j: nat)
    requires j <= |ss| && j <= |tt| && forall k :: 0 <= k < j ==> ss[k] == tt[k]
    ensures FlattenTo(ss, j) == FlattenTo(tt, j)
  {
    if j > 0 {
      FlattenSame(ss, tt, j - 1);
    }
  }

  lemma FlattenAppend<T>(ss: seq<seq<T>>, s: seq<T>)
    ensures Flatten(ss + [s]) == Flatten(ss) + s
  {
    FlattenSame(ss + [s], ss, |ss|);
  }

  /** Element k of piece j sits at the piece's offset plus k. */
  lemma FlattenAt<T>(ss: seq<seq<T>>, j: nat, k: nat)
    requires j < |ss| && k < |ss[j]|
    ensures Pre(Sizes(ss), j) + k < |Flatten(ss)|
    ensures Flatten(ss)[Pre(Sizes(ss), j) + k] == ss[j][k]
  {
    FlattenPrefix(ss, j + 1, |ss|);
    assert FlattenTo(ss, j + 1) == FlattenTo(ss, j) + ss[j];
  }

  /** Cutting loses nothing. */
  lemma FlattenCut<T>(s: seq<T>, sizes: seq<nat>)
    requires Sum(sizes) == |s|
    ensures Flatten(Cut(s, sizes)) == s
    ensures Sizes(Cut(s, sizes)) == sizes
  {
    FlattenCutTo(s, sizes, |sizes|);
  }

  lemma {:induction false} FlattenCutTo<T>(s: seq<T>, sizes: seq<nat>, j: nat)
    requires Sum(sizes) == |s| && j <= |sizes|
    ensures Pre(sizes, j) <= |s|
    ensures FlattenTo(Cut(s, sizes), j) == s[..Pre(sizes, j)]
  {
    PreMono(sizes, j, |sizes|);
    if j > 0 {
      FlattenCutTo(s, sizes, j - 1);
      var a, b := Pre(sizes, j - 1), Pre(sizes, j);
      assert s[..a] + s[a..b] == s[..b];
    }
  }

  /** The piece that covers flat position p. */
  lemma Locate(sizes: seq<nat>, p: nat) returns (j: nat)
    requires p < Sum(sizes)
    ensures j < |sizes| && Pre(sizes, j) <= p < Pre(sizes, j + 1)
  {
    j := LocateTo(sizes, |sizes|, p);
  }

  lemma {:induction false} LocateTo(sizes: seq<nat>, n: nat, p: nat) returns (j: nat)
    requires n <= |sizes| && p < Pre(sizes, n)
    ensures j < n && Pre(sizes, j) <= p < Pre(sizes, j + 1)
  {
    if p < Pre(sizes, n - 1) {
      j := LocateTo(sizes, n - 1, p);
    } else {
      j := n - 1;
    }
  }
}
