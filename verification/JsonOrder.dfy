/** Objects as maps: lookup laws, and every parsed object, on success and on
    failure, has each name once and in order. */
module JsonOrder {
  import opened JsonText
  import opened JsonGrammar

  predicate Sorted(ms: seq<Member>) {
    forall i, j :: 0 <= i < j < |ms| ==> Less(ms[i].name, ms[j].name)
  }

  predicate Ordered(v: Value) {
    match v
    case Array(items) => forall i :: 0 <= i < |items| ==> Ordered(items[i])
    case Object(members) => OrderedMembers(v)
    case _ => true
  }

  predicate OrderedMembers(v: Value)
    requires v.Object?
    decreases v, 0
  {
    Sorted(v.members) && forall i :: 0 <= i < |v.members| ==> Ordered(v.members[i].value)
  }

  lemma {:induction false} LessTotal(a: string, b: string)
    requires a != b && !Less(a, b)
    ensures Less(b, a)
  {
    if a != [] && b != [] && a[0] == b[0] {
      assert a == [a[0]] + a[1..] && b == [b[0]] + b[1..];
      LessTotal(a[1..], b[1..]);
    }
  }

  lemma {:induction false} BelowBound(ms: seq<Member>, name: string, i: nat, j: nat)
    requires i <= |ms| && i <= j < LowerBound(ms, name, i)
    ensures Less(ms[j].name, name)
    decreases |ms| - i
  {
    if i < j {
      BelowBound(ms, name, i + 1, j);
    }
  }

  /** The bound splits the members into those below the name and the rest. */
  lemma BoundIs(ms: seq<Member>, name: string, r: nat)
    requires Sorted(ms) && r <= |ms|
    requires forall j :: 0 <= j < r ==> Less(ms[j].name, name)
    requires r < |ms| ==> !Less(ms[r].name, name)
    ensures LowerBound(ms, name, 0) == r
  {
    var b := LowerBound(ms, name, 0);
    if r < b {
      BelowBound(ms, name, 0, r);
    }
  }

  /** Insertion keeps the order. */
  lemma PutSorted(ms: seq<Member>, name: string, v: Value)
    requires Sorted(ms)
    ensures Sorted(Put(ms, name, v))
  {
    var r, out := LowerBound(ms, name, 0), Put(ms, name, v);
    forall j | 0 <= j < r ensures Less(ms[j].name, name) {
      BelowBound(ms, name, 0, j);
    }
    if !(r < |ms| && ms[r].name == name) {
      forall j | r <= j < |ms| ensures Less(name, ms[j].name) {
        Above(ms, name, r, j);
      }
      InsertSorted(ms, Member(name, v), r);
    }
  }

  lemma Above(ms: seq<Member>, name: string, r: nat, j: nat)
    requires Sorted(ms) && r <= j < |ms| && !Less(ms[r].name, name) && ms[r].name != name
    ensures Less(name, ms[j].name)
  {
    LessTotal(ms[r].name, name);
    if r < j {
      LessTrans(name, ms[r].name, ms[j].name);
    }
  }

  lemma InsertSorted(ms: seq<Member>, m: Member, r: nat)
    requires Sorted(ms) && r <= |ms|
    requires forall j :: 0 <= j < r ==> Less(ms[j].name, m.name)
    requires forall j :: r <= j < |ms| ==> Less(m.name, ms[j].name)
    ensures Sorted(ms[..r] + [m] + ms[r..])
  {
    hide Less;
  }

  /** A lookup after an insertion finds the new value under the name, and under any
      other name what it found before. */
  lemma GetPut(ms: seq<Member>, name: string, v: Value, other: string)
    requires Sorted(ms)
    ensures Get(Put(ms, name, v), other) == if other == name then v else Get(ms, other)
  {
    var out := Put(ms, name, v);
    PutSorted(ms, name, v);
    var r := LowerBound(ms, name, 0);
    assert out[r] == Member(name, v);
    if other == name {
      FoundAt(out, r);
    } else if i :| 0 <= i < |ms| && ms[i].name == other {
      FoundAt(ms, i);
      FoundAt(out, if |out| == |ms| || i < r then i else i + 1);
    } else {
      NotFound(ms, other);
      NotFound(out, other);
    }
  }

  lemma FoundAt(ms: seq<Member>, i: nat)
    requires Sorted(ms) && i < |ms|
    ensures Get(ms, ms[i].name) == ms[i].value
  {
    LessIrreflexive(ms[i].name);
    BoundIs(ms, ms[i].name, i);
  }

  lemma NotFound(ms: seq<Member>, name: string)
    requires forall i :: 0 <= i < |ms| ==> ms[i].name != name
    ensures Get(ms, name) == Null
  {
  }

  // ----- every parsed value -----

  lemma PutOrdered(ms: seq<Member>, name: string, v: Value)
    requires Ordered(Object(ms)) && Ordered(v)
    ensures Ordered(Object(Put(ms, name, v)))
  {
    PutSorted(ms, name, v);
    var out := Put(ms, name, v);
    forall i | 0 <= i < |out| ensures Ordered(out[i].value) {
      assert out[i] == Member(name, v) || out[i] in ms;
    }
    assert OrderedMembers(Object(out));
  }

  lemma GetOrdered(ms: seq<Member>, name: string)
    requires Ordered(Object(ms))
    ensures Ordered(Get(ms, name))
  {
    assert OrderedMembers(Object(ms));
  }

  lemma {:induction false} ValueOrdered(t: string, scans: string -> Option<string>, pos: nat, was: Value)
    requires pos <= |t| && Ordered(was)
    ensures Ordered(ValueAt(t, scans, pos, was).value)
    decreases |t| - pos, 0
  {
    hide TokenAt, Skipped, DecodedNumber, DecodedString;
    var k := Skipped(t, pos);
    if k.kind.ObjectBegin? {
      assert OrderedMembers(Object([]));
      MembersOrdered(t, scans, k.end, [], "");
    } else if k.kind.ArrayBegin? {
      var p := SkipSpaces(t, k.end);
      if Peek(t, p) != ']' {
        ItemsOrdered(t, scans, p, []);
      }
    } else if k.kind.NumberToken? {
      NumberOrdered(t[k.start..k.end], scans);
    }
  }

  lemma NumberOrdered(s: string, scans: string -> Option<string>)
    ensures DecodedNumber(s, scans).Good? ==> Ordered(DecodedNumber(s, scans).value)
  {
  }

  lemma {:induction false} ItemsOrdered(t: string, scans: string -> Option<string>, pos: nat, items: seq<Value>)
    requires pos <= |t| && Ordered(Array(items))
    ensures Ordered(ItemsAt(t, scans, pos, items).value)
    decreases |t| - pos, 1
  {
    hide TokenAt, Skipped, ValueAt;
    ValueOrdered(t, scans, pos, Null);
    var r := ValueAt(t, scans, pos, Null);
    var with := items + [r.value];
    assert Ordered(Array(with));
    var k := Skipped(t, r.pos);
    if r.ok && k.kind.ArraySeparator? {
      ItemsOrdered(t, scans, k.end, with);
    }
  }

  lemma {:induction false} MembersOrdered(t: string, scans: string -> Option<string>, pos: nat, ms: seq<Member>, last: string)
    requires pos <= |t| && Ordered(Object(ms))
    ensures Ordered(MembersAt(t, scans, pos, ms, last).value)
    decreases |t| - pos, 1
  {
    hide TokenAt, Skipped, DecodedString, MemberAt, Ordered;
    var k := Skipped(t, pos);
    if k.kind.StringToken? {
      var d := DecodedString(t, k.start + 1, k.end - 1);
      if d.Good? {
        MemberOrdered(t, scans, k.end, ms, d.value);
      }
    }
  }

  lemma {:induction false} MemberOrdered(t: string, scans: string -> Option<string>, pos: nat, ms: seq<Member>, name: string)
    requires pos <= |t| && Ordered(Object(ms))
    ensures Ordered(MemberAt(t, scans, pos, ms, name).value)
    decreases |t| - pos, 2
  {
    hide TokenAt, Skipped, ValueAt, MembersAt, Ordered, Get, Put, CString;
    var colon := TokenAt(t, pos);
    if colon.kind.MemberSeparator? {
      var key := CString(name);
      GetOrdered(ms, key);
      ValueOrdered(t, scans, colon.end, Get(ms, key));
      var r := ValueAt(t, scans, colon.end, Get(ms, key));
      PutOrdered(ms, key, r.value);
      var k := Skipped(t, r.pos);
      if r.ok && AfterMember(TokenAt(t, r.pos).kind) && !k.kind.ObjectEnd? {
        MembersOrdered(t, scans, k.end, Put(ms, key, r.value), name);
      }
    }
  }

  /** Whatever the text, the parsed document is a tree of well-formed maps, if the
      value it is read into was one. */
  lemma ParsedOrdered(t: string, scans: string -> Option<string>, was: Value)
    requires Ordered(was)
    ensures Ordered(Parsed(t, scans, was).value)
  {
    hide ValueAt, Skipped;
    ValueOrdered(t, scans, 0, was);
  }
}
