/** JSON values and the text of each as a sequence of tokens. */
module JsonText {

  datatype Option<T> = None | Some(value: T)

  /** A document tree.  Integers are kept by numeric value; a floating-point
      number by the text it prints as.  Members are in key order, as
      the source's std::map keeps them. */
  datatype Value =
    | Null
    | Bool(b: bool)
    | Int(n: int)
    | Real(text: string)
    | String(s: string)
    | Array(items: seq<Value>)
    | Object(members: seq<Member>)

  datatype Member = Member(name: string, value: Value)

  const TWO_63: int := 0x8000_0000_0000_0000
  const TWO_64: int := 0x1_0000_0000_0000_0000

  // ----- keys -----

  /** strcmp(a, b) < 0 */
  predicate Less(a: string, b: string) {
    b != [] && (a == [] || a[0] < b[0] || (a[0] == b[0] && Less(a[1..], b[1..])))
  }

  lemma {:induction false} LessTrans(a: string, b: string, c: string)
    requires Less(a, b) && Less(b, c)
    ensures Less(a, c)
  {
    if a != [] && a[0] == b[0] && b[0] == c[0] {
      LessTrans(a[1..], b[1..], c[1..]);
    }
  }

  lemma {:induction false} LessIrreflexive(a: string)
    ensures !Less(a, a)
  {
    if a != [] {
      LessIrreflexive(a[1..]);
    }
  }

  predicate NulFree(s: string) { forall i :: 0 <= i < |s| ==> s[i] != '\0' }

  predicate IsNumberChar(c: char) {
    IsDigit(c) || c == '.' || c == 'e' || c == 'E' || c == '+' || c == '-'
  }

  /** The text of a number. */
  predicate NumberText(s: string) {
    s != [] && (IsDigit(s[0]) || s[0] == '-') && forall i :: 0 <= i < |s| ==> IsNumberChar(s[i])
  }

  /** What a floating-point number prints as; one that is none prints as null. */
  predicate DoubleText(s: string) { NumberText(s) || s == "null" }

  /** Values a program can build: integers of 64 bits, member names that are C strings. */
  predicate Printable(v: Value) {
    match v
    case Int(n) => -TWO_63 <= n < TWO_64
    case Real(text) => DoubleText(text)
    case Array(items) => forall i :: 0 <= i < |items| ==> Printable(items[i])
    case Object(members) => forall i :: 0 <= i < |members| ==> PrintableMember(members[i])
    case _ => true
  }

  predicate PrintableMember(m: Member) { NulFree(m.name) && Printable(m.value) }

  // ----- numbers -----

  function DigitChar(d: nat): char
    requires d < 10
  {
    ('0' as int + d) as char
  }

  predicate IsDigit(c: char) { '0' <= c <= '9' }

  function DigitOf(c: char): nat
    requires IsDigit(c)
  {
    c as int - '0' as int
  }

  /** Decimal digits of n, most significant first. */
  function Digits(n: nat): (r: string)
    ensures r != [] && forall i :: 0 <= i < |r| ==> IsDigit(r[i])
  {
    if n < 10 then [DigitChar(n)] else Digits(n / 10) + [DigitChar(n % 10)]
  }

  function IntText(n: int): string {
    if n < 0 then "-" + Digits(-n) else Digits(n)
  }

  // ----- strings -----

  function HexChar(d: nat): char
    requires d < 16
  {
    if d < 10 then DigitChar(d) else ('A' as int + d - 10) as char
  }

  predicate IsControl(c: char) { '\0' < c <= 0x1F as char }

  function Escape(c: char): (r: string)
    ensures r != []
  {
    if c == '"' then "\\\""
    else if c == '\\' then "\\\\"
    else if c == 8 as char then "\\b"
    else if c == 12 as char then "\\f"
    else if c == '\n' then "\\n"
    else if c == '\r' then "\\r"
    else if c == '\t' then "\\t"
    else if IsControl(c) then "\\u00" + [HexChar(c as int / 16), HexChar(c as int % 16)]
    else [c]
  }

  function Escaped(s: string): string {
    if s == [] then [] else Escape(s[0]) + Escaped(s[1..])
  }

  function Quoted(s: string): string { "\"" + Escaped(s) + "\"" }

  /** The bytes up to the first NUL: what a C string keeps. */
  function CString(s: string): string {
    if s == [] || s[0] == '\0' then [] else [s[0]] + CString(s[1..])
  }

  // ----- tokens -----

  function Toks(v: Value): (r: seq<string>)
    ensures r != []
    decreases v, 1, 0
  {
    match v
    case Null => ["null"]
    case Bool(b) => [if b then "true" else "false"]
    case Int(n) => [IntText(n)]
    case Real(text) => [text]
    case String(s) => [Quoted(CString(s))]
    case Array(items) => ["["] + (if items == [] then ["]"] else ItemToks(v, 0))
    case Object(members) => ["{"] + (if members == [] then ["}"] else MemberToks(v, 0))
  }

  /** From item i to the closing bracket. */
  function ItemToks(v: Value, i: nat): (r: seq<string>)
    requires v.Array? && i < |v.items|
    decreases v, 0, |v.items| - i
  {
    Toks(v.items[i]) + if i + 1 == |v.items| then ["]"] else [","] + ItemToks(v, i + 1)
  }

  /** From member i to the closing brace. */
  function MemberToks(v: Value, i: nat): (r: seq<string>)
    requires v.Object? && i < |v.members|
    decreases v, 0, |v.members| - i
  {
    [Quoted(v.members[i].name), ":"] + Toks(v.members[i].value) +
    if i + 1 == |v.members| then ["}"] else [","] + MemberToks(v, i + 1)
  }

  // ----- tokens in a text -----

  predicate IsSpace(c: char) { c == ' ' || c == '\t' || c == '\r' || c == '\n' }

  function SkipSpaces(t: string, pos: nat): (r: nat)
    requires pos <= |t|
    ensures pos <= r <= |t|
    ensures r < |t| ==> !IsSpace(t[r])
    ensures pos < r ==> IsSpace(t[pos])
    decreases |t| - pos
  {
    if pos < |t| && IsSpace(t[pos]) then SkipSpaces(t, pos + 1) else pos
  }

  /** The word w stands in t at p. */
  predicate Has(t: string, p: nat, w: string) {
    p + |w| <= |t| && forall i :: 0 <= i < |w| ==> t[p + i] == w[i]
  }

  lemma HasSplit(t: string, p: nat, a: string, b: string)
    requires Has(t, p, a + b)
    ensures Has(t, p, a) && Has(t, p + |a|, b)
  {
    forall i | 0 <= i < |a| ensures t[p + i] == a[i] {
      assert (a + b)[i] == a[i];
    }
    forall i | 0 <= i < |b| ensures t[p + |a| + i] == b[i] {
      assert (a + b)[|a| + i] == b[i];
    }
  }

  /** The rest of the text from pos is these tokens with white space around them. */
  predicate Spaced(t: string, pos: nat, toks: seq<string>)
    requires pos <= |t|
    decreases |toks|
  {
    var p := SkipSpaces(t, pos);
    if toks == [] then p == |t|
    else Has(t, p, toks[0]) && toks[0] != [] && Spaced(t, p + |toks[0]|, toks[1..])
  }

  lemma {:induction false} SkipInside(a: string, pos: nat, b: string)
    requires pos <= |a|
    ensures SkipSpaces(a + b, pos) ==
            if SkipSpaces(a, pos) < |a| then SkipSpaces(a, pos) else SkipSpaces(a + b, |a|)
    decreases |a| - pos
  {
    if pos < |a| && IsSpace(a[pos]) {
      SkipInside(a, pos + 1, b);
    }
  }

  lemma {:induction false} SkipShift(a: string, b: string, pos: nat)
    requires pos <= |b|
    ensures SkipSpaces(a + b, |a| + pos) == |a| + SkipSpaces(b, pos)
    decreases |b| - pos
  {
    if pos < |b| && IsSpace(b[pos]) {
      SkipShift(a, b, pos + 1);
    }
  }

  lemma {:induction false} SpacedShift(a: string, b: string, pos: nat, toks: seq<string>)
    requires pos <= |b| && Spaced(b, pos, toks)
    ensures Spaced(a + b, |a| + pos, toks)
    decreases |toks|
  {
    SkipShift(a, b, pos);
    if toks != [] {
      SpacedShift(a, b, SkipSpaces(b, pos) + |toks[0]|, toks[1..]);
    }
  }

  /** Texts of tokens can be put end to end. */
  lemma {:induction false} SpacedJoin(a: string, pos: nat, b: string, x: seq<string>, y: seq<string>)
    requires pos <= |a| && Spaced(a, pos, x) && Spaced(b, 0, y)
    ensures Spaced(a + b, pos, x + y)
    decreases |x|
  {
    SkipInside(a, pos, b);
    if x == [] {
      assert x + y == y;
      SpacedShift(a, b, 0, y);
      SkipShift(a, b, 0);
    } else {
      var p := SkipSpaces(a, pos);
      SpacedJoin(a, p + |x[0]|, b, x[1..], y);
      assert (x + y)[1..] == x[1..] + y;
    }
  }
}
