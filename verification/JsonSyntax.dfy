/** The documents the reader accepts, as a grammar over token kinds, and the reader
    against it: a text parses exactly when its tokens begin with such a document. */
module JsonSyntax {
  import opened JsonText
  import opened JsonGrammar

  // ----- the grammar -----

  /** A token as the grammar sees it: its kind, and the value it stands for if it stands
      for one. */
  datatype Symbol = Symbol(kind: Kind, value: Option<Value>)

  /** A value, after comments. */
  datatype Tree =
    | Word(comments: nat, symbol: Symbol)
    | List(comments: nat, items: Items)
    | Dict(comments: nat, fields: Fields)

  /** What follows an opening bracket, or a comma in an array. */
  datatype Items =
    | NoItems
    | LastItem(value: Tree, comments: nat)
    | MoreItems(value: Tree, comments: nat, rest: Items)

  /** What follows an opening brace, or a comma in an object. */
  datatype Fields =
    | NoFields(comments: nat)
    | Field(comments: nat, name: Symbol, value: Tree, after: After)

  datatype After =
    | Closed(comments: nat)
    | Again(comments: nat, separator: Symbol, fields: Fields)

  function Plainly(k: Kind): Symbol { Symbol(k, None) }

  /** The text of a name. */
  function Text(s: Symbol): string {
    if s.value.Some? && s.value.value.String? then s.value.value.s else ""
  }

  function Comments(n: nat): seq<Symbol> {
    if n == 0 then [] else [Plainly(Comment)] + Comments(n - 1)
  }

  function TreeTokens(v: Tree): seq<Symbol> {
    match v
    case Word(c, symbol) => Comments(c) + [symbol]
    case List(c, items) => Comments(c) + ([Plainly(ArrayBegin)] + ItemsTokens(items))
    case Dict(c, fields) => Comments(c) + ([Plainly(ObjectBegin)] + FieldsTokens(fields))
  }

  function ItemsTokens(s: Items): seq<Symbol> {
    match s
    case NoItems => [Plainly(ArrayEnd)]
    case LastItem(v, c) => TreeTokens(v) + (Comments(c) + [Plainly(ArrayEnd)])
    case MoreItems(v, c, rest) => TreeTokens(v) + (Comments(c) + ([Plainly(ArraySeparator)] + ItemsTokens(rest)))
  }

  function FieldsTokens(f: Fields): seq<Symbol> {
    match f
    case NoFields(c) => Comments(c) + [Plainly(ObjectEnd)]
    case Field(c, name, v, after) =>
      Comments(c) + ([name] + ([Plainly(MemberSeparator)] + (TreeTokens(v) + AfterTokens(after))))
  }

  function AfterTokens(a: After): seq<Symbol> {
    match a
    case Closed(c) => Comments(c) + [Plainly(ObjectEnd)]
    case Again(c, separator, fields) => Comments(c) + ([separator] + FieldsTokens(fields))
  }

  predicate IsScalar(k: Kind) {
    k.NumberToken? || k.StringToken? || k.TrueToken? || k.FalseToken? || k.NullToken?
  }

  predicate TreeOk(v: Tree) {
    match v
    case Word(_, symbol) => IsScalar(symbol.kind) && symbol.value.Some?
    case List(_, items) => ItemsOk(items)
    case Dict(_, fields) => FieldsOk(fields, true)
  }

  /** No closing bracket right after a comma. */
  predicate ItemsOk(s: Items) {
    match s
    case NoItems => true
    case LastItem(v, _) => TreeOk(v)
    case MoreItems(v, _, rest) => TreeOk(v) && !rest.NoItems? && ItemsOk(rest)
  }

  /** A closing brace comes first, or after a comma that follows an empty name. */
  predicate FieldsOk(f: Fields, blank: bool) {
    match f
    case NoFields(_) => blank
    case Field(_, name, v, after) => name.kind.StringToken? && name.value.Some? && TreeOk(v) && AfterOk(after, Text(name) == "")
  }

  /** Members are separated by a comma; after a comment the reader takes any token but a
      closing brace for one. */
  predicate AfterOk(a: After, blank: bool) {
    match a
    case Closed(_) => true
    case Again(c, separator, fields) =>
      && !separator.kind.Comment?
      && (if c == 0 then separator.kind.ArraySeparator? else !separator.kind.ObjectEnd?)
      && FieldsOk(fields, blank)
  }

  // ----- what a document means -----

  function TreeValue(v: Tree): Value {
    match v
    case Word(_, symbol) => if symbol.value.Some? then symbol.value.value else Null
    case List(_, items) => Array(ItemsValues(items))
    case Dict(_, fields) => Object(FieldsMembers(fields, []))
  }

  function ItemsValues(s: Items): seq<Value> {
    match s
    case NoItems => []
    case LastItem(v, _) => [TreeValue(v)]
    case MoreItems(v, _, rest) => [TreeValue(v)] + ItemsValues(rest)
  }

  /** The members before, with these put in one after the other. */
  function FieldsMembers(f: Fields, ms: seq<Member>): seq<Member> {
    match f
    case NoFields(_) => ms
    case Field(_, name, v, after) => AfterMembers(after, Put(ms, CString(Text(name)), TreeValue(v)))
  }

  function AfterMembers(a: After, ms: seq<Member>): seq<Member> {
    match a
    case Closed(_) => ms
    case Again(_, _, fields) => FieldsMembers(fields, ms)
  }

  // ----- the tokens of a text -----

  function SymbolAt(t: string, scans: string -> Option<string>, pos: nat): Symbol
    requires pos <= |t|
  {
    var k := TokenAt(t, pos);
    match k.kind
    case NumberToken =>
      var d := DecodedNumber(t[k.start..k.end], scans);
      Symbol(NumberToken, if d.Good? then Some(d.value) else None)
    case StringToken =>
      var d := DecodedString(t, k.start + 1, k.end - 1);
      Symbol(StringToken, if d.Good? then Some(String(d.value)) else None)
    case TrueToken => Symbol(TrueToken, Some(Bool(true)))
    case FalseToken => Symbol(FalseToken, Some(Bool(false)))
    case NullToken => Symbol(NullToken, Some(Null))
    case _ => Plainly(k.kind)
  }

  /** The tokens from pos on are these, and the last of them ends at q. */
  predicate Spells(t: string, scans: string -> Option<string>, pos: nat, ss: seq<Symbol>, q: nat)
    decreases |ss|
  {
    pos <= |t| &&
    if ss == [] then pos == q
    else SymbolAt(t, scans, pos) == ss[0] && Spells(t, scans, TokenAt(t, pos).end, ss[1..], q)
  }

  lemma {:induction false} SpellsJoin(t: string, scans: string -> Option<string>, pos: nat, a: seq<Symbol>, m: nat, b: seq<Symbol>, q: nat)
    requires Spells(t, scans, pos, a, m) && Spells(t, scans, m, b, q)
    ensures Spells(t, scans, pos, a + b, q)
    decreases |a|
  {
    hide SymbolAt, TokenAt;
    if a == [] {
      assert a + b == b;
    } else {
      SpellsJoin(t, scans, TokenAt(t, pos).end, a[1..], m, b, q);
      assert (a + b)[1..] == a[1..] + b && (a + b)[0] == a[0];
    }
  }

  lemma {:induction false} SpellsSplit(t: string, scans: string -> Option<string>, pos: nat, a: seq<Symbol>, b: seq<Symbol>, q: nat)
    returns (m: nat)
    requires Spells(t, scans, pos, a + b, q)
    ensures Spells(t, scans, pos, a, m) && Spells(t, scans, m, b, q)
    decreases |a|
  {
    hide SymbolAt, TokenAt;
    if a == [] {
      assert a + b == b;
      m := pos;
    } else {
      assert (a + b)[1..] == a[1..] + b && (a + b)[0] == a[0];
      m := SpellsSplit(t, scans, TokenAt(t, pos).end, a[1..], b, q);
    }
  }

  /** One token. */
  lemma SpellsOne(t: string, scans: string -> Option<string>, pos: nat)
    requires pos <= |t|
    ensures Spells(t, scans, pos, [SymbolAt(t, scans, pos)], TokenAt(t, pos).end)
  {
    hide SymbolAt, TokenAt;
    var s := SymbolAt(t, scans, pos);
    assert [s][1..] == [];
    assert Spells(t, scans, TokenAt(t, pos).end, [], TokenAt(t, pos).end);
  }

  lemma SpelledOne(t: string, scans: string -> Option<string>, pos: nat, s: Symbol, q: nat)
    requires Spells(t, scans, pos, [s], q)
    ensures pos <= |t| && SymbolAt(t, scans, pos) == s && TokenAt(t, pos).end == q
  {
    hide SymbolAt, TokenAt;
    assert [s][1..] == [];
  }

  /** A token and what follows it. */
  lemma SpelledFirst(t: string, scans: string -> Option<string>, pos: nat, s: Symbol, rest: seq<Symbol>, q: nat)
    requires Spells(t, scans, pos, [s] + rest, q)
    ensures pos <= |t| && SymbolAt(t, scans, pos) == s && Spells(t, scans, TokenAt(t, pos).end, rest, q)
  {
    hide SymbolAt, TokenAt;
    assert ([s] + rest)[1..] == rest;
  }

  /** Only words stand for values. */
  lemma KindKept(t: string, scans: string -> Option<string>, pos: nat)
    requires pos <= |t|
    ensures SymbolAt(t, scans, pos).kind == TokenAt(t, pos).kind
    ensures !IsScalar(TokenAt(t, pos).kind) ==> SymbolAt(t, scans, pos) == Plainly(TokenAt(t, pos).kind)
  {
    hide TokenAt, DecodedNumber, DecodedString;
  }

  /** The comments that skipping skips. */
  lemma {:induction false} SkippedComments(t: string, scans: string -> Option<string>, pos: nat) returns (c: nat, m: nat)
    requires pos <= |t|
    ensures Spells(t, scans, pos, Comments(c), m) && m <= |t| && TokenAt(t, m) == Skipped(t, pos)
    ensures c == 0 <==> !TokenAt(t, pos).kind.Comment?
    ensures c == 0 ==> m == pos
    decreases |t| - pos
  {
    hide TokenAt, SymbolAt;
    KindKept(t, scans, pos);
    if TokenAt(t, pos).kind.Comment? {
      c, m := SkippedComments(t, scans, TokenAt(t, pos).end);
      SpellsOne(t, scans, pos);
      SpellsJoin(t, scans, pos, [Plainly(Comment)], TokenAt(t, pos).end, Comments(c), m);
      c := c + 1;
    } else {
      c, m := 0, pos;
    }
  }

  lemma {:induction false} CommentsSkipped(t: string, scans: string -> Option<string>, pos: nat, c: nat, m: nat)
    requires Spells(t, scans, pos, Comments(c), m) && m <= |t| && !TokenAt(t, m).kind.Comment?
    ensures pos <= |t| && Skipped(t, pos) == TokenAt(t, m)
    ensures c > 0 <==> TokenAt(t, pos).kind.Comment?
    decreases c
  {
    hide TokenAt, SymbolAt;
    if c > 0 {
      SpelledFirst(t, scans, pos, Plainly(Comment), Comments(c - 1), m);
      KindKept(t, scans, pos);
      CommentsSkipped(t, scans, TokenAt(t, pos).end, c - 1, m);
    }
  }

  /** White space before a token does not matter. */
  lemma SpaceBefore(t: string, scans: string -> Option<string>, pos: nat)
    requires pos <= |t|
    ensures TokenAt(t, SkipSpaces(t, pos)) == TokenAt(t, pos) && SymbolAt(t, scans, SkipSpaces(t, pos)) == SymbolAt(t, scans, pos)
  {
    assert SkipSpaces(t, SkipSpaces(t, pos)) == SkipSpaces(t, pos);
  }

  lemma SpellsSpace(t: string, scans: string -> Option<string>, pos: nat, ss: seq<Symbol>, q: nat)
    requires pos <= |t| && ss != []
    ensures Spells(t, scans, pos, ss, q) <==> Spells(t, scans, SkipSpaces(t, pos), ss, q)
  {
    SpaceBefore(t, scans, pos);
    hide TokenAt, SymbolAt, SkipSpaces;
  }

  lemma BracketNext(t: string, pos: nat)
    requires pos <= |t|
    ensures Peek(t, SkipSpaces(t, pos)) == ']' <==> TokenAt(t, pos).kind.ArrayEnd?
  {
  }

  // ----- values -----

  /** The outcome of a success. */
  predicate Reads(r: Outcome, q: nat, v: Value) { r == Outcome(true, q, v, []) }

  /** A word is read when, and only when, its token stands for a value. */
  lemma WordReads(t: string, scans: string -> Option<string>, pos: nat, m: nat, was: Value)
    requires pos <= |t| && m <= |t| && Skipped(t, pos) == TokenAt(t, m)
    requires !TokenAt(t, m).kind.ObjectBegin? && !TokenAt(t, m).kind.ArrayBegin?
    ensures var s := SymbolAt(t, scans, m);
            if s.value.Some? then Reads(ValueAt(t, scans, pos, was), TokenAt(t, m).end, s.value.value)
            else !ValueAt(t, scans, pos, was).ok
  {
    hide TokenAt, Skipped, DecodedNumber, DecodedString, MembersAt, ArrayAt;
  }

  lemma BeginReads(t: string, scans: string -> Option<string>, pos: nat, was: Value)
    requires pos <= |t|
    ensures Skipped(t, pos).kind.ObjectBegin? ==> ValueAt(t, scans, pos, was) == MembersAt(t, scans, Skipped(t, pos).end, [], "")
    ensures Skipped(t, pos).kind.ArrayBegin? ==> ValueAt(t, scans, pos, was) == ArrayAt(t, scans, Skipped(t, pos).end)
  {
    hide TokenAt, Skipped, DecodedNumber, DecodedString, MembersAt, ArrayAt;
  }

  lemma NameReads(t: string, scans: string -> Option<string>, pos: nat, m: nat, ms: seq<Member>, last: string)
    requires pos <= |t| && m <= |t| && Skipped(t, pos) == TokenAt(t, m)
    ensures var k, s := TokenAt(t, m), SymbolAt(t, scans, m);
            && s.kind == k.kind
            && if k.kind.ObjectEnd? && last == "" then Reads(MembersAt(t, scans, pos, ms, last), k.end, Object(ms))
               else if k.kind.StringToken? && s.value.Some? then MembersAt(t, scans, pos, ms, last) == MemberAt(t, scans, k.end, ms, Text(s))
               else !MembersAt(t, scans, pos, ms, last).ok
  {
    hide TokenAt, Skipped, DecodedNumber, DecodedString, MemberAt, Recovered;
  }

  /** Comments, a token and the rest. */
  lemma Led(t: string, scans: string -> Option<string>, pos: nat, c: nat, m: nat, rest: seq<Symbol>, q: nat)
    requires Spells(t, scans, pos, Comments(c), m) && m <= |t| && Spells(t, scans, TokenAt(t, m).end, rest, q)
    ensures Spells(t, scans, pos, Comments(c) + ([SymbolAt(t, scans, m)] + rest), q)
  {
    hide Spells, SymbolAt, TokenAt, Comments;
    SpellsOne(t, scans, m);
    SpellsJoin(t, scans, m, [SymbolAt(t, scans, m)], TokenAt(t, m).end, rest, q);
    SpellsJoin(t, scans, pos, Comments(c), m, [SymbolAt(t, scans, m)] + rest, q);
  }

  lemma LedEnd(t: string, scans: string -> Option<string>, pos: nat, c: nat, m: nat)
    requires Spells(t, scans, pos, Comments(c), m) && m <= |t|
    ensures Spells(t, scans, pos, Comments(c) + [SymbolAt(t, scans, m)], TokenAt(t, m).end)
  {
    hide Spells, SymbolAt, TokenAt, Comments;
    SpellsOne(t, scans, m);
    SpellsJoin(t, scans, pos, Comments(c), m, [SymbolAt(t, scans, m)], TokenAt(t, m).end);
  }

  lemma Unled(t: string, scans: string -> Option<string>, pos: nat, c: nat, s: Symbol, rest: seq<Symbol>, q: nat)
    returns (m: nat)
    requires Spells(t, scans, pos, Comments(c) + ([s] + rest), q) && !s.kind.Comment?
    ensures pos <= |t| && m <= |t| && Skipped(t, pos) == TokenAt(t, m) && SymbolAt(t, scans, m) == s
    ensures TokenAt(t, m).kind == s.kind && Spells(t, scans, TokenAt(t, m).end, rest, q)
    ensures c > 0 <==> TokenAt(t, pos).kind.Comment?
    ensures c == 0 ==> TokenAt(t, pos) == TokenAt(t, m)
  {
    hide Spells, SymbolAt, TokenAt, Comments, Skipped;
    m := SpellsSplit(t, scans, pos, Comments(c), [s] + rest, q);
    SpelledFirst(t, scans, m, s, rest, q);
    KindKept(t, scans, m);
    CommentsSkipped(t, scans, pos, c, m);
    if c == 0 {
      NoComments(t, pos);
    }
  }

  lemma NoComments(t: string, pos: nat)
    requires pos <= |t| && !TokenAt(t, pos).kind.Comment?
    ensures Skipped(t, pos) == TokenAt(t, pos)
  {
    hide TokenAt;
  }

  // ----- every accepted text is a document -----

  lemma {:induction false} ValueSound(t: string, scans: string -> Option<string>, pos: nat, was: Value) returns (v: Tree)
    requires pos <= |t| && ValueAt(t, scans, pos, was).ok
    ensures TreeOk(v) && Spells(t, scans, pos, TreeTokens(v), ValueAt(t, scans, pos, was).pos)
    decreases |t| - pos, 0
  {
    hide ValueAt, MembersAt, ArrayAt, Spells, SymbolAt, TokenAt, Comments, Skipped;
    var c, m := SkippedComments(t, scans, pos);
    var k := TokenAt(t, m);
    KindKept(t, scans, m);
    BeginReads(t, scans, pos, was);
    if k.kind.ObjectBegin? {
      var f := FieldsSound(t, scans, k.end, [], "");
      Led(t, scans, pos, c, m, FieldsTokens(f), ValueAt(t, scans, pos, was).pos);
      v := Dict(c, f);
    } else if k.kind.ArrayBegin? {
      var s := ArraySound(t, scans, k.end);
      Led(t, scans, pos, c, m, ItemsTokens(s), ValueAt(t, scans, pos, was).pos);
      v := List(c, s);
    } else {
      WordReads(t, scans, pos, m, was);
      LedEnd(t, scans, pos, c, m);
      v := Word(c, SymbolAt(t, scans, m));
    }
  }

  lemma {:induction false} ArraySound(t: string, scans: string -> Option<string>, pos: nat) returns (s: Items)
    requires pos <= |t| && ArrayAt(t, scans, pos).ok
    ensures ItemsOk(s) && Spells(t, scans, pos, ItemsTokens(s), ArrayAt(t, scans, pos).pos)
    decreases |t| - pos, 2
  {
    hide ItemsAt, Spells, SymbolAt, TokenAt, Comments, Skipped, SkipSpaces, Peek;
    var p := SkipSpaces(t, pos);
    BracketNext(t, pos);
    SpaceBefore(t, scans, pos);
    if Peek(t, p) == ']' {
      KindKept(t, scans, pos);
      SpellsOne(t, scans, pos);
      s := NoItems;
    } else {
      s := ItemsSound(t, scans, p, []);
      TokensSome(s);
      SpellsSpace(t, scans, pos, ItemsTokens(s), ArrayAt(t, scans, pos).pos);
    }
  }

  lemma TokensSome(s: Items)
    ensures ItemsTokens(s) != []
  {
    hide TreeTokens, Comments;
  }

  lemma {:induction false} ItemsSound(t: string, scans: string -> Option<string>, pos: nat, items: seq<Value>) returns (s: Items)
    requires pos <= |t| && ItemsAt(t, scans, pos, items).ok
    ensures ItemsOk(s) && !s.NoItems? && Spells(t, scans, pos, ItemsTokens(s), ItemsAt(t, scans, pos, items).pos)
    decreases |t| - pos, 1
  {
    hide ValueAt, Spells, SymbolAt, TokenAt, Comments, Skipped, TreeTokens, TreeOk;
    var end := ItemsAt(t, scans, pos, items).pos;
    var r := ValueAt(t, scans, pos, Null);
    var v := ValueSound(t, scans, pos, Null);
    var c, m := SkippedComments(t, scans, r.pos);
    var k := TokenAt(t, m);
    KindKept(t, scans, m);
    if k.kind.ArrayEnd? {
      LedEnd(t, scans, r.pos, c, m);
      SpellsJoin(t, scans, pos, TreeTokens(v), r.pos, Comments(c) + [Plainly(ArrayEnd)], end);
      s := LastItem(v, c);
    } else {
      var rest := ItemsSound(t, scans, k.end, items + [r.value]);
      Led(t, scans, r.pos, c, m, ItemsTokens(rest), end);
      SpellsJoin(t, scans, pos, TreeTokens(v), r.pos, Comments(c) + ([Plainly(ArraySeparator)] + ItemsTokens(rest)), end);
      s := MoreItems(v, c, rest);
    }
  }

  lemma {:induction false} FieldsSound(t: string, scans: string -> Option<string>, pos: nat, ms: seq<Member>, last: string)
    returns (f: Fields)
    requires pos <= |t| && MembersAt(t, scans, pos, ms, last).ok
    ensures FieldsOk(f, last == "") && Spells(t, scans, pos, FieldsTokens(f), MembersAt(t, scans, pos, ms, last).pos)
    decreases |t| - pos, 1
  {
    hide MembersAt, MemberAt, Spells, SymbolAt, TokenAt, Comments, Skipped, TreeTokens, AfterTokens, TreeOk, AfterOk;
    var c, m := SkippedComments(t, scans, pos);
    var k, name := TokenAt(t, m), SymbolAt(t, scans, m);
    KindKept(t, scans, m);
    NameReads(t, scans, pos, m, ms, last);
    if k.kind.ObjectEnd? {
      LedEnd(t, scans, pos, c, m);
      f := NoFields(c);
    } else {
      var v, after := MemberSound(t, scans, k.end, ms, Text(name));
      Led(t, scans, pos, c, m, [Plainly(MemberSeparator)] + (TreeTokens(v) + AfterTokens(after)),
          MembersAt(t, scans, pos, ms, last).pos);
      f := Field(c, name, v, after);
    }
  }

  lemma {:induction false} MemberSound(t: string, scans: string -> Option<string>, pos: nat, ms: seq<Member>, name: string)
    returns (v: Tree, after: After)
    requires pos <= |t| && MemberAt(t, scans, pos, ms, name).ok
    ensures TreeOk(v) && AfterOk(after, name == "")
    ensures Spells(t, scans, pos, [Plainly(MemberSeparator)] + (TreeTokens(v) + AfterTokens(after)),
                   MemberAt(t, scans, pos, ms, name).pos)
    decreases |t| - pos, 2
  {
    hide ValueAt, MembersAt, Spells, SymbolAt, TokenAt, Comments, Skipped, TreeTokens, TreeOk, Get, Put, FieldsTokens, FieldsOk;
    var end := MemberAt(t, scans, pos, ms, name).pos;
    var colon := TokenAt(t, pos);
    KindKept(t, scans, pos);
    SpellsOne(t, scans, pos);
    var was := Get(ms, CString(name));
    v := ValueSound(t, scans, colon.end, was);
    var r := ValueAt(t, scans, colon.end, was);
    var c, m := SkippedComments(t, scans, r.pos);
    var k := TokenAt(t, m);
    KindKept(t, scans, m);
    if k.kind.ObjectEnd? {
      LedEnd(t, scans, r.pos, c, m);
      after := Closed(c);
    } else {
      var f := FieldsSound(t, scans, k.end, Put(ms, CString(name), r.value), name);
      Led(t, scans, r.pos, c, m, FieldsTokens(f), end);
      after := Again(c, SymbolAt(t, scans, m), f);
    }
    SpellsJoin(t, scans, colon.end, TreeTokens(v), r.pos, AfterTokens(after), end);
    SpellsJoin(t, scans, pos, [Plainly(MemberSeparator)], colon.end, TreeTokens(v) + AfterTokens(after), end);
  }

  // ----- every document is accepted, and read as what it means -----

  lemma {:induction false} ValueComplete(t: string, scans: string -> Option<string>, pos: nat, was: Value, v: Tree, q: nat)
    requires TreeOk(v) && Spells(t, scans, pos, TreeTokens(v), q)
    ensures pos <= |t| && Reads(ValueAt(t, scans, pos, was), q, TreeValue(v))
    decreases v
  {
    hide ValueAt, MembersAt, ArrayAt, Spells, SymbolAt, TokenAt, Comments, Skipped,
         ItemsTokens, FieldsTokens, ItemsOk, FieldsOk, ItemsValues, FieldsMembers;
    match v
    case Word(c, symbol) =>
      assert [symbol] + [] == [symbol];
      var m := Unled(t, scans, pos, c, symbol, [], q);
      SpelledNone(t, scans, TokenAt(t, m).end, q);
      WordReads(t, scans, pos, m, was);
    case List(c, items) =>
      var m := Unled(t, scans, pos, c, Plainly(ArrayBegin), ItemsTokens(items), q);
      BeginReads(t, scans, pos, was);
      ArrayComplete(t, scans, TokenAt(t, m).end, items, q);
    case Dict(c, fields) =>
      var m := Unled(t, scans, pos, c, Plainly(ObjectBegin), FieldsTokens(fields), q);
      BeginReads(t, scans, pos, was);
      FieldsComplete(t, scans, TokenAt(t, m).end, [], "", fields, q);
  }

  lemma SpelledNone(t: string, scans: string -> Option<string>, pos: nat, q: nat)
    ensures Spells(t, scans, pos, [], q) <==> pos == q <= |t|
  {
  }

  lemma {:induction false} ArrayComplete(t: string, scans: string -> Option<string>, pos: nat, s: Items, q: nat)
    requires ItemsOk(s) && Spells(t, scans, pos, ItemsTokens(s), q)
    ensures pos <= |t| && Reads(ArrayAt(t, scans, pos), q, Array(ItemsValues(s)))
    decreases s, 1
  {
    hide ItemsAt, Spells, SymbolAt, TokenAt, Comments, Skipped, SkipSpaces, Peek, TreeTokens, TreeOk, TreeValue;
    SpellsWithin(t, scans, pos, ItemsTokens(s), q);
    var p := SkipSpaces(t, pos);
    BracketNext(t, pos);
    SpaceBefore(t, scans, pos);
    if s.NoItems? {
      SpelledOne(t, scans, pos, Plainly(ArrayEnd), q);
      KindKept(t, scans, pos);
    } else {
      TokensSome(s);
      SpellsSpace(t, scans, pos, ItemsTokens(s), q);
      FirstItem(t, scans, pos, s, q);
      ItemsComplete(t, scans, p, [], s, q);
      assert [] + ItemsValues(s) == ItemsValues(s);
    }
  }

  lemma SpellsWithin(t: string, scans: string -> Option<string>, pos: nat, ss: seq<Symbol>, q: nat)
    requires Spells(t, scans, pos, ss, q)
    ensures pos <= |t|
  {
    hide TokenAt, SymbolAt;
  }

  /** An item does not begin with a closing bracket. */
  lemma FirstItem(t: string, scans: string -> Option<string>, pos: nat, s: Items, q: nat)
    requires ItemsOk(s) && !s.NoItems? && Spells(t, scans, pos, ItemsTokens(s), q)
    ensures pos <= |t| && !TokenAt(t, pos).kind.ArrayEnd?
  {
    hide SymbolAt, TokenAt, Skipped, ItemsTokens, FieldsTokens, FieldsOk;
    TreeBegins(s.value);
    ItemsBegin(s);
    KindKept(t, scans, pos);
  }

  lemma TreeBegins(v: Tree)
    requires TreeOk(v)
    ensures TreeTokens(v) != [] && !TreeTokens(v)[0].kind.ArrayEnd?
  {
    hide ItemsTokens, FieldsTokens, ItemsOk, FieldsOk;
  }

  lemma ItemsBegin(s: Items)
    requires !s.NoItems? && TreeTokens(s.value) != []
    ensures ItemsTokens(s) != [] && ItemsTokens(s)[0] == TreeTokens(s.value)[0]
  {
    hide TreeTokens, Comments;
  }

  lemma {:induction false} ItemsComplete(t: string, scans: string -> Option<string>, pos: nat, items: seq<Value>, s: Items, q: nat)
    requires ItemsOk(s) && !s.NoItems? && Spells(t, scans, pos, ItemsTokens(s), q)
    ensures pos <= |t| && Reads(ItemsAt(t, scans, pos, items), q, Array(items + ItemsValues(s)))
    decreases s, 0
  {
    hide ValueAt, Spells, SymbolAt, TokenAt, Comments, Skipped, TreeTokens, TreeOk, TreeValue;
    SpellsWithin(t, scans, pos, ItemsTokens(s), q);
    match s
    case LastItem(v, c) =>
      var end := SpellsSplit(t, scans, pos, TreeTokens(v), Comments(c) + [Plainly(ArrayEnd)], q);
      ValueComplete(t, scans, pos, Null, v, end);
      assert [Plainly(ArrayEnd)] + [] == [Plainly(ArrayEnd)];
      var m := Unled(t, scans, end, c, Plainly(ArrayEnd), [], q);
      SpelledNone(t, scans, TokenAt(t, m).end, q);
    case MoreItems(v, c, rest) =>
      var end := SpellsSplit(t, scans, pos, TreeTokens(v), Comments(c) + ([Plainly(ArraySeparator)] + ItemsTokens(rest)), q);
      ValueComplete(t, scans, pos, Null, v, end);
      var m := Unled(t, scans, end, c, Plainly(ArraySeparator), ItemsTokens(rest), q);
      ItemsComplete(t, scans, TokenAt(t, m).end, items + [TreeValue(v)], rest, q);
      assert items + [TreeValue(v)] + ItemsValues(rest) == items + ItemsValues(s);
  }

  lemma {:induction false} FieldsComplete(t: string, scans: string -> Option<string>, pos: nat, ms: seq<Member>, last: string, f: Fields, q: nat)
    requires FieldsOk(f, last == "") && Spells(t, scans, pos, FieldsTokens(f), q)
    ensures pos <= |t| && Reads(MembersAt(t, scans, pos, ms, last), q, Object(FieldsMembers(f, ms)))
    decreases f, 1
  {
    hide MembersAt, MemberAt, Spells, SymbolAt, TokenAt, Comments, Skipped, TreeTokens, AfterTokens,
         TreeOk, AfterOk, TreeValue, AfterMembers, Put;
    match f
    case NoFields(c) =>
      assert [Plainly(ObjectEnd)] + [] == [Plainly(ObjectEnd)];
      var m := Unled(t, scans, pos, c, Plainly(ObjectEnd), [], q);
      SpelledNone(t, scans, TokenAt(t, m).end, q);
      NameReads(t, scans, pos, m, ms, last);
    case Field(c, name, v, after) =>
      var m := Unled(t, scans, pos, c, name, [Plainly(MemberSeparator)] + (TreeTokens(v) + AfterTokens(after)), q);
      NameReads(t, scans, pos, m, ms, last);
      MemberComplete(t, scans, TokenAt(t, m).end, ms, f, q);
  }

  lemma {:induction false} MemberComplete(t: string, scans: string -> Option<string>, pos: nat, ms: seq<Member>, f: Fields, q: nat)
    requires f.Field? && TreeOk(f.value) && AfterOk(f.after, Text(f.name) == "")
    requires Spells(t, scans, pos, [Plainly(MemberSeparator)] + (TreeTokens(f.value) + AfterTokens(f.after)), q)
    ensures pos <= |t|
    ensures Reads(MemberAt(t, scans, pos, ms, Text(f.name)), q,
                  Object(AfterMembers(f.after, Put(ms, CString(Text(f.name)), TreeValue(f.value)))))
    decreases f, 0
  {
    hide ValueAt, MembersAt, Spells, SymbolAt, TokenAt, Comments, Skipped, TreeTokens, TreeOk, TreeValue, Get, Put,
         FieldsTokens, FieldsOk, FieldsMembers, Text;
    var name, v, after := Text(f.name), f.value, f.after;
    SpelledFirst(t, scans, pos, Plainly(MemberSeparator), TreeTokens(v) + AfterTokens(after), q);
    KindKept(t, scans, pos);
    var colon := TokenAt(t, pos);
    var end := SpellsSplit(t, scans, colon.end, TreeTokens(v), AfterTokens(after), q);
    ValueComplete(t, scans, colon.end, Get(ms, CString(name)), v, end);
    match after
    case Closed(c) =>
      assert [Plainly(ObjectEnd)] + [] == [Plainly(ObjectEnd)];
      var m := Unled(t, scans, end, c, Plainly(ObjectEnd), [], q);
      SpelledNone(t, scans, TokenAt(t, m).end, q);
    case Again(c, separator, fields) =>
      var m := Unled(t, scans, end, c, separator, FieldsTokens(fields), q);
      FieldsComplete(t, scans, TokenAt(t, m).end, Put(ms, CString(name), TreeValue(v)), name, fields, q);
  }

  // ----- the reader and the grammar -----

  /** The tokens from pos to q are a document that means v. */
  ghost predicate Document(t: string, scans: string -> Option<string>, pos: nat, q: nat, v: Value) {
    exists d :: TreeOk(d) && Spells(t, scans, pos, TreeTokens(d), q) && TreeValue(d) == v
  }

  /** Reading a value succeeds, stops at q and gives v exactly when the tokens up to q are a
      document that means v; in every other case it fails. */
  lemma ReadsDocuments(t: string, scans: string -> Option<string>, pos: nat, was: Value, q: nat, v: Value)
    requires pos <= |t|
    ensures Reads(ValueAt(t, scans, pos, was), q, v) <==> Document(t, scans, pos, q, v)
  {
    hide ValueAt, Spells, TreeTokens, TreeOk, TreeValue;
    if ValueAt(t, scans, pos, was).ok {
      var d := ValueSound(t, scans, pos, was);
      ValueComplete(t, scans, pos, was, d, ValueAt(t, scans, pos, was).pos);
    }
    if Document(t, scans, pos, q, v) {
      var d :| TreeOk(d) && Spells(t, scans, pos, TreeTokens(d), q) && TreeValue(d) == v;
      ValueComplete(t, scans, pos, was, d, q);
    }
  }

  /** A text parses exactly when it begins with a document. */
  lemma ParsesDocuments(t: string, scans: string -> Option<string>, was: Value)
    ensures Parsed(t, scans, was).ok <==> exists q: nat, v :: Document(t, scans, 0, q, v)
    ensures forall q: nat, v :: Document(t, scans, 0, q, v) ==>
              Parsed(t, scans, was).value == v && q <= |t| && Parsed(t, scans, was).pos == Skipped(t, q).end
  {
    hide ValueAt, Document, Skipped;
    var r := ValueAt(t, scans, 0, was);
    ReadsDocuments(t, scans, 0, was, r.pos, r.value);
    forall q: nat, v | Document(t, scans, 0, q, v)
      ensures Reads(r, q, v)
    {
      ReadsDocuments(t, scans, 0, was, q, v);
    }
  }
}
