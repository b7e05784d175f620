/** A text that spaces out the tokens of a value parses to that value. */
module JsonParse {
  import opened JsonText
  import opened JsonGrammar
  import opened JsonRoundTrip

  lemma {:induction false} PlainPrintable(v: Value, scans: string -> Option<string>)
    requires Plain(v, scans)
    ensures Printable(v)
  {
    match v
    case Array(items) =>
      forall i | 0 <= i < |items| ensures Printable(items[i]) {
        PlainPrintable(items[i], scans);
      }
    case Object(members) =>
      forall i | 0 <= i < |members| ensures PrintableMember(members[i]) {
        PlainPrintable(members[i].value, scans);
      }
    case _ =>
  }

  // ----- the tokens of a value -----

  /** How a value's tokens begin and end. */
  predicate Framed(toks: seq<string>) {
    toks != [] && toks[0] != "" && toks[0][0] != ']' && toks[0][0] != '}'
  }

  lemma ToksFramed(v: Value, scans: string -> Option<string>)
    requires Plain(v, scans)
    ensures Framed(Toks(v))
  {
    match v
    case Int(n) => IntegerIsNumber(n);
    case String(s) => assert Quoted(CString(s))[0] == '"';
    case _ =>
  }

  function ItemTail(v: Value, i: nat): seq<string>
    requires v.Array? && i < |v.items|
  {
    if i + 1 == |v.items| then ["]"] else [","] + ItemToks(v, i + 1)
  }

  function MemberTail(v: Value, i: nat): seq<string>
    requires v.Object? && i < |v.members|
  {
    if i + 1 == |v.members| then ["}"] else [","] + MemberToks(v, i + 1)
  }

  lemma ItemToksAre(v: Value, i: nat, rest: seq<string>)
    requires v.Array? && i < |v.items|
    ensures ItemToks(v, i) == Toks(v.items[i]) + ItemTail(v, i)
    ensures ItemToks(v, i) + rest == Toks(v.items[i]) + (ItemTail(v, i) + rest)
  {
  }

  lemma MemberToksAre(v: Value, i: nat, rest: seq<string>)
    requires v.Object? && i < |v.members|
    ensures MemberToks(v, i) + rest ==
            [Quoted(v.members[i].name)] + ([":"] + (Toks(v.members[i].value) + (MemberTail(v, i) + rest)))
  {
    var name, x, tail := Quoted(v.members[i].name), Toks(v.members[i].value), MemberTail(v, i);
    assert MemberToks(v, i) == [name, ":"] + x + tail;
    ColonShape(name, x, tail, rest);
  }

  lemma ColonShape(name: string, x: seq<string>, tail: seq<string>, rest: seq<string>)
    ensures [name, ":"] + x + tail + rest == [name] + ([":"] + (x + (tail + rest)))
  {
  }

  lemma CommaShape(toks: seq<string>, rest: seq<string>)
    ensures [","] + toks + rest == [","] + (toks + rest)
  {
  }

  lemma LexemesOne(w: string)
    requires IsLexeme(w)
    ensures Lexemes([w])
  {
    assert [w][1..] == [];
  }

  lemma ClosedBy(w: string, rest: seq<string>)
    requires rest != [] && IsPunctuation(rest[0])
    ensures Closed(w, rest)
  {
  }

  lemma PunctuationCloses(w: string, rest: seq<string>)
    requires IsPunctuation(w)
    ensures Closed(w, rest)
  {
    if NumberText(w) {
      NumberKind(w);
    }
  }

  lemma QuotedCloses(s: string, rest: seq<string>)
    ensures Closed(Quoted(s), rest)
  {
    var w := Quoted(s);
    if NumberText(w) {
      NumberKind(w);
      QuotedKind(s);
    }
  }

  lemma LexemesCons(w: string, rest: seq<string>)
    requires IsPunctuation(w) && Lexemes(rest)
    ensures Lexemes([w] + rest)
  {
    PunctuationCloses(w, rest);
    assert ([w] + rest)[1..] == rest;
  }

  /** The tokens of a value never run together. */
  lemma {:induction false} ToksLexemes(v: Value)
    requires Printable(v)
    ensures Lexemes(Toks(v))
    decreases v, 1, 0
  {
    match v
    case Null => LexemesOne("null");
    case Bool(b) => LexemesOne(if b then "true" else "false");
    case Int(n) =>
      IntegerIsNumber(n);
      LexemesOne(IntText(n));
    case Real(text) => LexemesOne(text);
    case String(s) => LexemesOne(Quoted(CString(s)));
    case Array(items) =>
      if items == [] {
        LexemesOne("]");
        LexemesCons("[", ["]"]);
      } else {
        ItemLexemes(v, 0);
        LexemesCons("[", ItemToks(v, 0));
      }
    case Object(members) =>
      if members == [] {
        LexemesOne("}");
        LexemesCons("{", ["}"]);
      } else {
        MemberLexemes(v, 0);
        LexemesCons("{", MemberToks(v, 0));
      }
  }

  lemma {:induction false} ItemLexemes(v: Value, i: nat)
    requires v.Array? && Printable(v) && i < |v.items|
    ensures Lexemes(ItemToks(v, i))
    decreases v, 0, |v.items| - i
  {
    var head := Toks(v.items[i]);
    ToksLexemes(v.items[i]);
    if i + 1 == |v.items| {
      LexemesOne("]");
      ClosedBy(head[|head| - 1], ["]"]);
      LexemesJoin(head, ["]"]);
    } else {
      ItemLexemes(v, i + 1);
      LexemesCons(",", ItemToks(v, i + 1));
      ClosedBy(head[|head| - 1], [","] + ItemToks(v, i + 1));
      LexemesJoin(head, [","] + ItemToks(v, i + 1));
    }
  }

  lemma {:induction false} MemberLexemes(v: Value, i: nat)
    requires v.Object? && Printable(v) && i < |v.members|
    ensures Lexemes(MemberToks(v, i))
    decreases v, 0, |v.members| - i
  {
    var m := v.members[i];
    assert PrintableMember(m);
    ToksLexemes(m.value);
    if i + 1 == |v.members| {
      LexemesOne("}");
    } else {
      MemberLexemes(v, i + 1);
      LexemesCons(",", MemberToks(v, i + 1));
    }
    MemberToksAre(v, i, []);
    assert MemberToks(v, i) + [] == MemberToks(v, i);
    assert MemberTail(v, i) + [] == MemberTail(v, i);
    MemberJoined(m.name, Toks(m.value), MemberTail(v, i));
  }

  lemma MemberJoined(name: string, head: seq<string>, tail: seq<string>)
    requires Lexemes(head) && Lexemes(tail) && head != [] && tail != [] && IsPunctuation(tail[0])
    ensures Lexemes([Quoted(name)] + ([":"] + (head + tail)))
  {
    ClosedBy(head[|head| - 1], tail);
    LexemesJoin(head, tail);
    LexemesCons(":", head + tail);
    NameCons(name, [":"] + (head + tail));
  }

  lemma NameCons(name: string, rest: seq<string>)
    requires Lexemes(rest)
    ensures Lexemes([Quoted(name)] + rest)
  {
    QuotedCloses(name, rest);
    assert ([Quoted(name)] + rest)[1..] == rest;
  }

  // ----- members in order -----

  lemma {:induction false} AboveAll(ms: seq<Member>, name: string, i: nat)
    requires i <= |ms| && forall j :: 0 <= j < |ms| ==> Less(ms[j].name, name)
    ensures LowerBound(ms, name, i) == |ms|
    decreases |ms| - i
  {
    if i < |ms| {
      AboveAll(ms, name, i + 1);
    }
  }

  /** A name above all others goes last. */
  lemma PutLast(ms: seq<Member>, name: string, v: Value)
    requires forall j :: 0 <= j < |ms| ==> Less(ms[j].name, name)
    ensures Put(ms, name, v) == ms + [Member(name, v)]
  {
    AboveAll(ms, name, 0);
    assert ms[..|ms|] == ms && ms[|ms|..] == [];
  }

  lemma {:induction false} CStringWhole(s: string)
    requires NulFree(s)
    ensures CString(s) == s
  {
    if s != [] {
      CStringWhole(s[1..]);
    }
  }

  // ----- reading -----

  /** This outcome is the value v, with the cursor before the tokens in rest. */
  ghost predicate Reads(t: string, r: Outcome, v: Value, rest: seq<string>) {
    r.ok && r.value == v && r.pos <= |t| && Spaced(t, r.pos, rest) && Lexemes(rest)
  }

  /** The text from pos on is these tokens. */
  ghost predicate Ahead(t: string, pos: nat, toks: seq<string>) {
    pos <= |t| && Spaced(t, pos, toks) && Lexemes(toks)
  }

  lemma Taken(t: string, pos: nat, w: string, rest: seq<string>)
    requires Ahead(t, pos, [w] + rest)
    ensures Lexed(t, pos, w) && Skipped(t, pos) == TokenAt(t, pos)
    ensures Has(t, SkipSpaces(t, pos), w)
    ensures Ahead(t, TokenAt(t, pos).end, rest)
  {
    HeadLexed(t, pos, [w] + rest);
    assert ([w] + rest)[1..] == rest;
  }

  /** The next token is of this kind, ends at q, and then come the tokens in rest. */
  ghost predicate Comes(t: string, pos: nat, kind: Kind, q: nat, rest: seq<string>) {
    && pos <= |t|
    && TokenAt(t, pos) == Skipped(t, pos)
    && TokenAt(t, pos).kind == kind
    && TokenAt(t, pos).end == q
    && Ahead(t, q, rest)
  }

  lemma TakenNext(t: string, pos: nat, w: string, rest: seq<string>) returns (q: nat)
    requires Ahead(t, pos, [w] + rest)
    ensures Comes(t, pos, KindOf(w), q, rest)
  {
    Taken(t, pos, w, rest);
    q := TokenAt(t, pos).end;
  }

  lemma IntegerTaken(t: string, scans: string -> Option<string>, pos: nat, was: Value, n: int, rest: seq<string>)
    requires -TWO_63 <= n < TWO_64 && Ahead(t, pos, [IntText(n)] + rest)
    ensures Reads(t, ValueAt(t, scans, pos, was), Int(n), rest)
  {
    var p, w := SkipSpaces(t, pos), IntText(n);
    IntegerIsNumber(n);
    Taken(t, pos, w, rest);
    NumberKind(w);
    IntegerRead(n, scans);
    assert t[p..p + |w|] == w;
  }

  /** A number's token is taken for the number it decodes to. */
  lemma RealTaken(t: string, scans: string -> Option<string>, pos: nat, was: Value, w: string, rest: seq<string>)
    requires NumberText(w) && Ahead(t, pos, [w] + rest)
    ensures DecodedNumber(w, scans).Good? ==> Reads(t, ValueAt(t, scans, pos, was), DecodedNumber(w, scans).value, rest)
    ensures DecodedNumber(w, scans).Bad? ==> !ValueAt(t, scans, pos, was).ok
  {
    hide DecodedNumber;
    var p := SkipSpaces(t, pos);
    Taken(t, pos, w, rest);
    NumberKind(w);
    assert t[p..p + |w|] == w;
  }

  lemma NameTaken(t: string, pos: nat, s: string, rest: seq<string>) returns (q: nat)
    requires Ahead(t, pos, [Quoted(s)] + rest)
    ensures Comes(t, pos, StringToken, q, rest)
    ensures DecodedString(t, Skipped(t, pos).start + 1, q - 1) == Good(s)
  {
    hide TokenAt, Skipped, DecodedString, Has, Escaped, Spaced, Lexemes;
    var p := SkipSpaces(t, pos);
    Taken(t, pos, Quoted(s), rest);
    QuotedKind(s);
    QuotedParts(t, p, s);
    StringRead(t, p + 1, s, p + 1 + |Escaped(s)|);
    q := TokenAt(t, pos).end;
  }

  lemma StringTaken(t: string, scans: string -> Option<string>, pos: nat, was: Value, s: string, rest: seq<string>)
    requires Ahead(t, pos, [Quoted(s)] + rest)
    ensures Reads(t, ValueAt(t, scans, pos, was), String(s), rest)
  {
    var q := NameTaken(t, pos, s, rest);
    StringStep(t, scans, pos, was, s, q, rest);
  }

  lemma StringStep(t: string, scans: string -> Option<string>, pos: nat, was: Value, s: string, q: nat, rest: seq<string>)
    requires Comes(t, pos, StringToken, q, rest)
    requires DecodedString(t, Skipped(t, pos).start + 1, q - 1) == Good(s)
    ensures ValueAt(t, scans, pos, was) == Outcome(true, q, String(s), [])
  {
    hide TokenAt, Skipped, DecodedString, Spaced, Lexemes;
  }

  function WordValue(k: Kind): Value {
    if k.TrueToken? then Bool(true) else if k.FalseToken? then Bool(false) else Null
  }

  lemma WordStep(t: string, scans: string -> Option<string>, pos: nat, was: Value, k: Kind, q: nat, rest: seq<string>)
    requires Comes(t, pos, k, q, rest) && (k.TrueToken? || k.FalseToken? || k.NullToken?)
    ensures ValueAt(t, scans, pos, was) == Outcome(true, q, WordValue(k), [])
  {
    hide TokenAt, Skipped, Spaced, Lexemes;
  }

  lemma WordTaken(t: string, scans: string -> Option<string>, pos: nat, was: Value, v: Value, rest: seq<string>)
    requires v.Null? || v.Bool?
    requires Ahead(t, pos, Toks(v) + rest)
    ensures Reads(t, ValueAt(t, scans, pos, was), v, rest)
  {
    hide ValueAt, TokenAt, Skipped, Spaced, Lexemes;
    var w := if v == Null then "null" else if v.b then "true" else "false";
    assert Toks(v) == [w];
    var q := TakenNext(t, pos, w, rest);
    WordStep(t, scans, pos, was, KindOf(w), q, rest);
  }

  lemma SkippedAhead(t: string, pos: nat, toks: seq<string>)
    requires Ahead(t, pos, toks)
    ensures Ahead(t, SkipSpaces(t, pos), toks) && SkipSpaces(t, SkipSpaces(t, pos)) == SkipSpaces(t, pos)
  {
    assert SkipSpaces(t, SkipSpaces(t, pos)) == SkipSpaces(t, pos);
  }

  lemma {:induction false} ValueRead(t: string, scans: string -> Option<string>, pos: nat, was: Value, v: Value, rest: seq<string>)
    requires Plain(v, scans) && Ahead(t, pos, Toks(v) + rest)
    ensures Reads(t, ValueAt(t, scans, pos, was), v, rest)
    decreases v, 1, 0
  {
    match v
    case Array(items) => ArrayRead(t, scans, pos, was, v, rest);
    case Object(members) => ObjectRead(t, scans, pos, was, v, rest);
    case Int(n) => IntegerTaken(t, scans, pos, was, n, rest);
    case Real(text) => RealTaken(t, scans, pos, was, text, rest);
    case String(s) =>
      CStringWhole(s);
      StringTaken(t, scans, pos, was, s, rest);
    case _ => WordTaken(t, scans, pos, was, v, rest);
  }

  lemma ArrayStep(t: string, scans: string -> Option<string>, pos: nat, was: Value, q: nat, rest: seq<string>)
    requires Comes(t, pos, ArrayBegin, q, rest)
    ensures ValueAt(t, scans, pos, was) == ArrayAt(t, scans, q)
  {
    hide TokenAt, Skipped, Spaced, Lexemes, ArrayAt;
  }

  lemma {:induction false} ArrayRead(t: string, scans: string -> Option<string>, pos: nat, was: Value, v: Value, rest: seq<string>)
    requires v.Array? && Plain(v, scans) && Ahead(t, pos, Toks(v) + rest)
    ensures Reads(t, ValueAt(t, scans, pos, was), v, rest)
    decreases v, 0, |v.items| + 1
  {
    hide ValueAt, ItemsAt, TokenAt, Skipped, Spaced, Lexemes, SkipSpaces;
    var inner := if v.items == [] then ["]"] else ItemToks(v, 0);
    assert Toks(v) + rest == ["["] + (inner + rest);
    var q := TakenNext(t, pos, "[", inner + rest);
    ArrayStep(t, scans, pos, was, q, inner + rest);
    SkippedAhead(t, q, inner + rest);
    var p := SkipSpaces(t, q);
    FirstChar(t, p, inner, rest);
    if v.items == [] {
      var e := TakenNext(t, p, "]", rest);
    } else {
      ToksFramed(v.items[0], scans);
      assert v.items[..0] == [];
      ItemsRead(t, scans, p, v, 0, rest);
    }
  }

  lemma FirstChar(t: string, p: nat, toks: seq<string>, rest: seq<string>)
    requires toks != [] && Ahead(t, p, toks + rest) && p == SkipSpaces(t, p)
    ensures toks[0] != "" && Peek(t, p) == toks[0][0]
  {
    assert (toks + rest)[0] == toks[0];
    assert t[p + 0] == toks[0][0];
  }

  /** After an item comes the end, or the next item. */
  lemma ItemsStep(t: string, scans: string -> Option<string>, pos: nat, items: seq<Value>, v: Value, rest: seq<string>, q: nat, kind: Kind)
    requires pos <= |t| && ValueAt(t, scans, pos, Null).ok && ValueAt(t, scans, pos, Null).value == v
    requires Comes(t, ValueAt(t, scans, pos, Null).pos, kind, q, rest)
    ensures kind == ArrayEnd ==> ItemsAt(t, scans, pos, items) == Outcome(true, q, Array(items + [v]), [])
    ensures kind == ArraySeparator ==> ItemsAt(t, scans, pos, items) == ItemsAt(t, scans, q, items + [v])
  {
    hide TokenAt, Skipped, ValueAt, Spaced, Lexemes;
  }

  lemma {:induction false} ItemsRead(t: string, scans: string -> Option<string>, pos: nat, v: Value, i: nat, rest: seq<string>)
    requires v.Array? && Plain(v, scans) && i < |v.items| && Ahead(t, pos, ItemToks(v, i) + rest)
    ensures Reads(t, ItemsAt(t, scans, pos, v.items[..i]), v, rest)
    decreases v, 0, |v.items| - i
  {
    hide TokenAt, Skipped, ValueAt, ItemsAt, Toks, Spaced, Lexemes;
    var more, next := ItemTail(v, i) + rest, i + 1;
    ItemToksAre(v, i, rest);
    ValueRead(t, scans, pos, Null, v.items[i], more);
    var e := ValueAt(t, scans, pos, Null).pos;
    assert v.items[..i] + [v.items[i]] == v.items[..next];
    if next == |v.items| {
      var q := TakenNext(t, e, "]", rest);
      ItemsStep(t, scans, pos, v.items[..i], v.items[i], rest, q, ArrayEnd);
      assert v.items[..next] == v.items;
    } else {
      CommaShape(ItemToks(v, next), rest);
      var q := TakenNext(t, e, ",", ItemToks(v, next) + rest);
      ItemsStep(t, scans, pos, v.items[..i], v.items[i], ItemToks(v, next) + rest, q, ArraySeparator);
      ItemsRead(t, scans, q, v, next, rest);
    }
  }

  lemma ObjectStep(t: string, scans: string -> Option<string>, pos: nat, was: Value, q: nat, rest: seq<string>)
    requires Comes(t, pos, ObjectBegin, q, rest)
    ensures ValueAt(t, scans, pos, was) == MembersAt(t, scans, q, [], "")
  {
    hide TokenAt, Skipped, Spaced, Lexemes, MembersAt;
  }

  lemma ObjectEmpty(t: string, scans: string -> Option<string>, pos: nat, q: nat, rest: seq<string>)
    requires Comes(t, pos, ObjectEnd, q, rest)
    ensures MembersAt(t, scans, pos, [], "") == Outcome(true, q, Object([]), [])
  {
    hide TokenAt, Skipped, Spaced, Lexemes, MemberAt;
  }

  lemma {:induction false} ObjectRead(t: string, scans: string -> Option<string>, pos: nat, was: Value, v: Value, rest: seq<string>)
    requires v.Object? && Plain(v, scans) && Ahead(t, pos, Toks(v) + rest)
    ensures Reads(t, ValueAt(t, scans, pos, was), v, rest)
    decreases v, 0, |v.members| + 1
  {
    hide ValueAt, MembersAt, TokenAt, Skipped, Spaced, Lexemes;
    var inner := if v.members == [] then ["}"] else MemberToks(v, 0);
    assert Toks(v) + rest == ["{"] + (inner + rest);
    var q := TakenNext(t, pos, "{", inner + rest);
    ObjectStep(t, scans, pos, was, q, inner + rest);
    if v.members == [] {
      var e := TakenNext(t, q, "}", rest);
      ObjectEmpty(t, scans, q, e, rest);
    } else {
      assert v.members[..0] == [];
      MembersRead(t, scans, q, v, 0, "", rest);
    }
  }

  lemma NameStep(t: string, scans: string -> Option<string>, pos: nat, ms: seq<Member>, last: string, name: string, q: nat, rest: seq<string>)
    requires Comes(t, pos, StringToken, q, rest)
    requires DecodedString(t, Skipped(t, pos).start + 1, q - 1) == Good(name)
    ensures MembersAt(t, scans, pos, ms, last) == MemberAt(t, scans, q, ms, name)
  {
    hide TokenAt, Skipped, DecodedString, MemberAt, Spaced, Lexemes;
  }

  lemma {:induction false} MembersRead(t: string, scans: string -> Option<string>, pos: nat, v: Value, i: nat, last: string, rest: seq<string>)
    requires v.Object? && Plain(v, scans) && i < |v.members| && Ahead(t, pos, MemberToks(v, i) + rest)
    ensures Reads(t, MembersAt(t, scans, pos, v.members[..i], last), v, rest)
    decreases v, 0, |v.members| - i, 2
  {
    var m := v.members[i];
    MemberToksAre(v, i, rest);
    var after := [":"] + (Toks(m.value) + (MemberTail(v, i) + rest));
    var q := NameTaken(t, pos, m.name, after);
    NameStep(t, scans, pos, v.members[..i], last, m.name, q, after);
    MemberRead(t, scans, q, v, i, rest);
  }

  /** After a member comes the end, or the next member. */
  lemma MemberStep(t: string, scans: string -> Option<string>, pos: nat, ms: seq<Member>, m: Member, c: nat, r: Outcome,
                   more: seq<string>, rest: seq<string>, q: nat, kind: Kind)
    requires Comes(t, pos, MemberSeparator, c, more)
    requires r == ValueAt(t, scans, c, Get(ms, CString(m.name))) && r.ok && r.value == m.value
    requires Put(ms, CString(m.name), m.value) == ms + [m]
    requires Comes(t, r.pos, kind, q, rest)
    ensures kind == ObjectEnd ==>
              MemberAt(t, scans, pos, ms, m.name) == Outcome(true, q, Object(ms + [m]), [])
    ensures kind == ArraySeparator ==>
              MemberAt(t, scans, pos, ms, m.name) == MembersAt(t, scans, q, ms + [m], m.name)
  {
    hide TokenAt, ValueAt, MembersAt, Spaced, Lexemes, Get, Put, CString;
  }

  lemma MembersOrdered(v: Value, scans: string -> Option<string>, i: nat)
    requires v.Object? && Plain(v, scans) && i < |v.members|
    ensures CString(v.members[i].name) == v.members[i].name
    ensures Put(v.members[..i], v.members[i].name, v.members[i].value) == v.members[..i] + [v.members[i]]
  {
    var m, ms := v.members[i], v.members[..i];
    CStringWhole(m.name);
    forall j | 0 <= j < |ms| ensures Less(ms[j].name, m.name) {
      assert ms[j] == v.members[j];
    }
    PutLast(ms, m.name, m.value);
    assert Member(m.name, m.value) == m;
  }

  /** The colon, and then the member's value. */
  lemma {:induction false} MemberValueRead(t: string, scans: string -> Option<string>, pos: nat, v: Value, i: nat, more: seq<string>)
    returns (c: nat)
    requires v.Object? && Plain(v, scans) && i < |v.members|
    requires Ahead(t, pos, [":"] + (Toks(v.members[i].value) + more))
    ensures Comes(t, pos, MemberSeparator, c, Toks(v.members[i].value) + more)
    ensures Reads(t, ValueAt(t, scans, c, Get(v.members[..i], CString(v.members[i].name))), v.members[i].value, more)
    decreases v, 0, |v.members| - i, 0
  {
    var m, ms := v.members[i], v.members[..i];
    c := TakenNext(t, pos, ":", Toks(m.value) + more);
    ValueRead(t, scans, c, Get(ms, CString(m.name)), m.value, more);
  }

  lemma {:induction false} MemberRead(t: string, scans: string -> Option<string>, pos: nat, v: Value, i: nat, rest: seq<string>)
    requires v.Object? && Plain(v, scans) && i < |v.members|
    requires Ahead(t, pos, [":"] + (Toks(v.members[i].value) + (MemberTail(v, i) + rest)))
    ensures Reads(t, MemberAt(t, scans, pos, v.members[..i], v.members[i].name), v, rest)
    decreases v, 0, |v.members| - i, 1
  {
    hide TokenAt, Skipped, ValueAt, MemberAt, MembersAt, Toks, Spaced, Lexemes, Get, Put, CString;
    var m, ms, more, next := v.members[i], v.members[..i], MemberTail(v, i) + rest, i + 1;
    var c := MemberValueRead(t, scans, pos, v, i, more);
    var r := ValueAt(t, scans, c, Get(ms, CString(m.name)));
    MembersOrdered(v, scans, i);
    assert ms + [m] == v.members[..next];
    if next == |v.members| {
      var q := TakenNext(t, r.pos, "}", rest);
      MemberStep(t, scans, pos, ms, m, c, r, Toks(m.value) + more, rest, q, ObjectEnd);
      assert v.members[..next] == v.members;
    } else {
      CommaShape(MemberToks(v, next), rest);
      var q := TakenNext(t, r.pos, ",", MemberToks(v, next) + rest);
      MemberStep(t, scans, pos, ms, m, c, r, Toks(m.value) + more, MemberToks(v, next) + rest, q, ArraySeparator);
      MembersRead(t, scans, q, v, next, m.name, rest);
    }
  }

  lemma EndLexed(t: string, pos: nat)
    requires Ahead(t, pos, [])
    ensures Skipped(t, pos) == Token(EndOfStream, |t|, |t|)
  {
    assert SkipSpaces(t, pos) == |t|;
    assert TokenAt(t, pos) == Token(EndOfStream, |t|, |t|);
  }

  /** Whatever the white space, parsing gives back the value, without an error,
      and uses up the whole text. */
  lemma ParsedBack(t: string, scans: string -> Option<string>, was: Value, v: Value)
    requires Plain(v, scans) && Spaced(t, 0, Toks(v))
    ensures Parsed(t, scans, was) == Outcome(true, |t|, v, [])
  {
    PlainPrintable(v, scans);
    ToksLexemes(v);
    assert Toks(v) + [] == Toks(v);
    ValueRead(t, scans, 0, was, v, []);
    EndLexed(t, ValueAt(t, scans, 0, was).pos);
  }

  /** What a floating-point number prints as is read as that number exactly when it scans
      back; an integer that fits is read as an integer. */
  lemma RealBack(t: string, scans: string -> Option<string>, was: Value, w: string)
    requires NumberText(w) && Spaced(t, 0, Toks(Real(w)))
    ensures Parsed(t, scans, was) == Outcome(true, |t|, Real(w), []) <==> ScansBack(w, scans)
    ensures FitsInteger(w) ==> Parsed(t, scans, was) == Outcome(true, |t|, Int(Written(w)), [])
  {
    hide ValueAt, Skipped, Spaced, Lexemes, NumberText, FitsInteger;
    ToksLexemes(Real(w));
    assert [w] + [] == [w];
    RealTaken(t, scans, 0, was, w, []);
    if ValueAt(t, scans, 0, was).ok {
      EndLexed(t, ValueAt(t, scans, 0, was).pos);
    }
  }

  // ----- the token sequence -----

  /** The texts of all tokens up to the end of the stream. */
  function Tokens(t: string, pos: nat): seq<string>
    requires pos <= |t|
    decreases |t| - pos
  {
    var k := TokenAt(t, pos);
    if k.kind.EndOfStream? then [] else [t[k.start..k.end]] + Tokens(t, k.end)
  }

  lemma HasSlice(t: string, p: nat, w: string)
    requires Has(t, p, w)
    ensures t[p..p + |w|] == w
  {
  }

  lemma NoTokens(t: string, pos: nat)
    requires Ahead(t, pos, [])
    ensures Tokens(t, pos) == []
  {
    assert SkipSpaces(t, pos) == |t|;
    assert TokenAt(t, pos) == Token(EndOfStream, |t|, |t|);
  }

  lemma LexemeKind(t: string, pos: nat, w: string)
    requires pos <= |t| && Lexed(t, pos, w)
    ensures !TokenAt(t, pos).kind.EndOfStream?
  {
  }

  /** The tokens the reader finds are those the text was made from. */
  lemma {:induction false} TokensFound(t: string, pos: nat, toks: seq<string>)
    requires Ahead(t, pos, toks)
    ensures Tokens(t, pos) == toks
    decreases |toks|
  {
    hide TokenAt, Skipped, Spaced, Lexemes, Has, KindOf, SkipSpaces;
    if toks == [] {
      NoTokens(t, pos);
    } else {
      var w, rest := toks[0], toks[1..];
      assert toks == [w] + rest;
      Taken(t, pos, w, rest);
      HasSlice(t, SkipSpaces(t, pos), w);
      LexemeKind(t, pos, w);
      TokensFound(t, TokenAt(t, pos).end, rest);
    }
  }
}
