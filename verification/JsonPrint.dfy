/** Printing numbers and strings, and token lists as growing documents. */
module JsonPrint {
  import opened JsonText
  import opened JsonDecode

  // ----- integers -----

  function Pow10(k: nat): (r: nat)
    ensures r >= 1
  {
    if k == 0 then 1 else 10 * Pow10(k - 1)
  }

  lemma {:induction false} DigitsShort(n: nat, k: nat)
    requires n < Pow10(k)
    ensures |Digits(n)| <= k || k == 0
  {
    if n >= 10 {
      DigitsShort(n / 10, k - 1);
    }
  }

  lemma SixtyFourBitsShort(n: uint64)
    ensures |Digits(n as int)| <= 20
  {
    assert Pow10(5) == 100_000;
    assert Pow10(10) == 10_000_000_000;
    assert Pow10(15) == 1_000_000_000_000_000;
    assert Pow10(20) == 100_000_000_000_000_000_000;
    DigitsShort(n as int, 20);
  }

  /** Writes the digits downward from just below end, before a NUL; they stay
      within twenty-one bytes. */
  method UintToString(n: uint64, buffer: array<char>, end: nat) returns (current: nat)
    requires 21 <= end <= buffer.Length
    modifies buffer
    ensures end - 21 <= current < end
    ensures buffer[current..end - 1] == Digits(n as int) && buffer[end - 1] == '\0'
  {
    SixtyFourBitsShort(n);
    var value := n;
    current := end - 1;
    buffer[current] := '\0';
    current := current - 1;
    buffer[current] := DigitChar(value as int % 10);
    ghost var done := [DigitChar(value as int % 10)];
    value := value / 10;
    while value != 0
      invariant 0 <= current < end
      invariant buffer[end - 1] == '\0' && buffer[current..end - 1] == done
      invariant Digits(n as int) == if value == 0 then done else Digits(value as int) + done
    {
      var c := DigitChar(value as int % 10);
      Peeled(value as int, done);
      assert |Digits(value as int)| >= 1 && |done| == end - 1 - current;
      current := current - 1;
      buffer[current] := c;
      assert buffer[current + 1..end - 1] == done;
      done := [c] + done;
      value := value / 10;
    }
  }

  lemma Peeled(v: nat, done: string)
    ensures Digits(v) + done ==
            (if v / 10 == 0 then [] else Digits(v / 10)) + ([DigitChar(v % 10)] + done)
  {
    if v >= 10 {
      assert Digits(v / 10) + [DigitChar(v % 10)] + done == Digits(v / 10) + ([DigitChar(v % 10)] + done);
    }
  }

  /** The text of an integer; the cursor never leaves the buffer. */
  method ValueToString(n: int) returns (s: string)
    requires -TWO_63 <= n < TWO_64
    ensures s == IntText(n)
  {
    var buffer := new char[25];
    var isNegative := n < 0;
    var value := if isNegative then -n else n;
    var current := UintToString(value as uint64, buffer, 25);
    if isNegative {
      ghost var digits := buffer[current..24];
      current := current - 1;
      buffer[current] := '-';
      assert buffer[current + 1..24] == digits;
    }
    s := buffer[current..24];
  }

  // ----- strings -----

  predicate IsSpecial(c: char) {
    c == '"' || c == '\\' || c == 8 as char || c == 12 as char || c == '\n' || c == '\r' || c == '\t' || IsControl(c)
  }

  predicate NoSpecial(s: string) { forall i :: 0 <= i < |s| ==> !IsSpecial(s[i]) }

  lemma {:induction false} NothingEscaped(s: string)
    requires NoSpecial(s)
    ensures Escaped(s) == s
  {
    if s != [] {
      NothingEscaped(s[1..]);
      assert Escape(s[0]) == [s[0]];
    }
  }

  method HasSpecial(s: string) returns (r: bool)
    ensures r == !NoSpecial(s)
  {
    for i := 0 to |s|
      invariant forall j :: 0 <= j < i ==> !IsSpecial(s[j])
    {
      if IsSpecial(s[i]) {
        return true;
      }
    }
    return false;
  }

  /** The shortcut for strings with nothing to escape gives the same text. */
  method ValueToQuotedString(value: string) returns (r: string)
    ensures r == Quoted(value)
  {
    var special := HasSpecial(value);
    if !special {
      NothingEscaped(value);
      return "\"" + value + "\"";
    }
    r := "\"";
    for i := 0 to |value|
      invariant r + Escaped(value[i..]) == "\"" + Escaped(value)
    {
      assert value[i..][0] == value[i] && value[i..][1..] == value[i + 1..];
      assert r + (Escape(value[i]) + Escaped(value[i + 1..])) == r + Escape(value[i]) + Escaped(value[i + 1..]);
      r := r + Escape(value[i]);
    }
    assert r == "\"" + Escaped(value);
    r := r + "\"";
  }

  // ----- documents -----

  predicate AllSpaces(s: string) { forall i :: 0 <= i < |s| ==> IsSpace(s[i]) }

  lemma {:induction false} SkipAll(s: string, pos: nat)
    requires pos <= |s| && forall i :: pos <= i < |s| ==> IsSpace(s[i])
    ensures SkipSpaces(s, pos) == |s|
    decreases |s| - pos
  {
    if pos < |s| {
      SkipAll(s, pos + 1);
    }
  }

  lemma SpacesSpaced(s: string)
    requires AllSpaces(s)
    ensures Spaced(s, 0, [])
  {
    SkipAll(s, 0);
  }

  lemma WordSpaced(w: string)
    requires w != "" && !IsSpace(w[0])
    ensures Spaced(w, 0, [w])
  {
    assert SkipSpaces(w, 0) == 0;
    assert SkipSpaces(w, |w|) == |w|;
    assert [w][1..] == [];
  }

  /** A token with white space around it. */
  lemma PaddedSpaced(a: string, w: string, b: string)
    requires AllSpaces(a) && AllSpaces(b) && w != "" && !IsSpace(w[0])
    ensures Spaced(a + w + b, 0, [w])
  {
    hide Spaced, SkipSpaces, Has;
    SpacesSpaced(a);
    WordSpaced(w);
    SpacedJoin(a, 0, w, [], [w]);
    assert [] + [w] == [w];
    SpacesSpaced(b);
    SpacedJoin(a + w, 0, b, [w], []);
    assert [w] + [] == [w];
  }

  /** The document only grew, and by these tokens. */
  predicate Grown(was: string, now: string, toks: seq<string>) {
    was <= now && Spaced(now[|was|..], 0, toks)
  }

  lemma GrownBy(was: string, text: string, toks: seq<string>)
    requires Spaced(text, 0, toks)
    ensures Grown(was, was + text, toks)
  {
    assert (was + text)[|was|..] == text;
  }

  lemma GrownTwice(a: string, b: string, c: string, x: seq<string>, y: seq<string>)
    requires Grown(a, b, x) && Grown(b, c, y)
    ensures Grown(a, c, x + y)
  {
    SpacedJoin(b[|a|..], 0, c[|b|..], x, y);
    assert c[|a|..] == b[|a|..] + c[|b|..];
  }

  // ----- the tokens written so far -----

  function Comma(i: nat): seq<string> { if i > 0 then [","] else [] }

  /** The tokens of an array up to and without item i. */
  function ItemsBefore(v: Value, i: nat): seq<string>
    requires v.Array? && i <= |v.items|
  {
    if i == 0 then ["["] else ItemsBefore(v, i - 1) + Comma(i - 1) + Toks(v.items[i - 1])
  }

  function MembersBefore(v: Value, i: nat): seq<string>
    requires v.Object? && i <= |v.members|
  {
    if i == 0 then ["{"]
    else MembersBefore(v, i - 1) + Comma(i - 1) + [Quoted(v.members[i - 1].name), ":"] + Toks(v.members[i - 1].value)
  }

  lemma {:induction false} ItemsSplit(v: Value, i: nat)
    requires v.Array? && i < |v.items|
    ensures ItemsBefore(v, i) + Comma(i) + ItemToks(v, i) == Toks(v)
  {
    if i == 0 {
      assert ["["] + [] + ItemToks(v, 0) == ["["] + ItemToks(v, 0);
    } else {
      ItemsSplit(v, i - 1);
      Regroup(ItemsBefore(v, i - 1) + Comma(i - 1), Toks(v.items[i - 1]), [","], ItemToks(v, i));
    }
  }

  lemma Regroup(a: seq<string>, b: seq<string>, c: seq<string>, d: seq<string>)
    ensures a + b + c + d == a + (b + (c + d))
  {
  }

  lemma ItemsAll(v: Value)
    requires v.Array?
    ensures ItemsBefore(v, |v.items|) + ["]"] == Toks(v)
  {
    if v.items != [] {
      var i := |v.items| - 1;
      ItemsSplit(v, i);
      assert ItemToks(v, i) == Toks(v.items[i]) + ["]"];
    }
  }

  lemma {:induction false} MembersSplit(v: Value, i: nat)
    requires v.Object? && i < |v.members|
    ensures MembersBefore(v, i) + Comma(i) + MemberToks(v, i) == Toks(v)
  {
    if i == 0 {
      assert ["{"] + [] + MemberToks(v, 0) == ["{"] + MemberToks(v, 0);
    } else {
      MembersSplit(v, i - 1);
      var m := v.members[i - 1];
      var head := [Quoted(m.name), ":"] + Toks(m.value);
      assert MemberToks(v, i - 1) == head + ([","] + MemberToks(v, i));
      Regroup(MembersBefore(v, i - 1) + Comma(i - 1), head, [","], MemberToks(v, i));
      MemberNext(v, i - 1);
    }
  }

  lemma MemberNext(v: Value, i: nat)
    requires v.Object? && i < |v.members|
    ensures MembersBefore(v, i + 1) ==
            MembersBefore(v, i) + Comma(i) + ([Quoted(v.members[i].name), ":"] + Toks(v.members[i].value))
  {
  }

  lemma MembersAll(v: Value)
    requires v.Object?
    ensures MembersBefore(v, |v.members|) + ["}"] == Toks(v)
  {
    if v.members != [] {
      var i := |v.members| - 1;
      MembersSplit(v, i);
      MemberNext(v, i);
    }
  }
}
