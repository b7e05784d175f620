/** What the reader does to every text, on success and on failure: the token
    at a position, the value at a position, the position it stops at and the
    errors it reports. */
module JsonGrammar {
  import opened JsonText

  // ----- characters -----

  /** *current_, which is NUL at the end of the text. */
  function Peek(t: string, pos: nat): char {
    if pos < |t| then t[pos] else '\0'
  }

  /** The cursor after getNextChar. */
  function Next(t: string, pos: nat): (r: nat)
    requires pos <= |t|
    ensures pos <= r <= |t|
  {
    if pos < |t| then pos + 1 else pos
  }

  // ----- tokens -----

  datatype Kind =
    | ObjectBegin | ObjectEnd | ArrayBegin | ArrayEnd | StringToken | NumberToken
    | TrueToken | FalseToken | NullToken | ArraySeparator | MemberSeparator
    | Comment | EndOfStream | ErrorToken

  datatype Token = Token(kind: Kind, start: nat, end: nat)

  /** Whether a scan succeeded, and where it left the cursor. */
  datatype Scan = Scan(ok: bool, pos: nat)

  function ScanMatch(t: string, pos: nat, w: string): (r: Scan)
    requires pos <= |t|
    ensures pos <= r.pos <= |t|
  {
    if Has(t, pos, w) then Scan(true, pos + |w|) else Scan(false, pos)
  }

  function ScanNumber(t: string, pos: nat): (r: nat)
    requires pos <= |t|
    ensures pos <= r <= |t|
    decreases |t| - pos
  {
    if pos < |t| && IsNumberChar(t[pos]) then ScanNumber(t, pos + 1) else pos
  }

  function ScanString(t: string, pos: nat): (r: Scan)
    requires pos <= |t|
    ensures pos <= r.pos <= |t|
    ensures r.ok ==> pos < r.pos
    decreases |t| - pos
  {
    if pos == |t| then Scan(false, pos)
    else if t[pos] == '\\' then ScanString(t, Next(t, pos + 1))
    else if t[pos] == '"' then Scan(true, pos + 1)
    else ScanString(t, pos + 1)
  }

  function ScanCComment(t: string, pos: nat): (r: Scan)
    requires pos <= |t|
    ensures pos <= r.pos <= |t|
    decreases |t| - pos
  {
    if pos == |t| then Scan(false, pos)
    else if t[pos] == '*' && Peek(t, pos + 1) == '/' then Scan(true, pos + 2)
    else ScanCComment(t, pos + 1)
  }

  function ScanCppComment(t: string, pos: nat): (r: nat)
    requires pos <= |t|
    ensures pos <= r <= |t|
    decreases |t| - pos
  {
    if pos == |t| then pos
    else if t[pos] == '\r' || t[pos] == '\n' then pos + 1
    else ScanCppComment(t, pos + 1)
  }

  function ScanComment(t: string, pos: nat): (r: Scan)
    requires pos <= |t|
    ensures pos <= r.pos <= |t|
  {
    var c, p := Peek(t, pos), Next(t, pos);
    if c == '*' then ScanCComment(t, p)
    else if c == '/' then Scan(true, ScanCppComment(t, p))
    else Scan(false, p)
  }

  /** readToken: a token lies in the text, and only the end of the text (or a
      NUL) gives no character. */
  function TokenAt(t: string, pos: nat): (r: Token)
    requires pos <= |t|
    ensures pos <= r.start <= r.end <= |t|
    ensures !r.kind.EndOfStream? ==> r.start < r.end
    ensures r.kind.StringToken? ==> r.start + 2 <= r.end
    ensures r.kind.NumberToken? ==> r.end == ScanNumber(t, r.start + 1) && (IsDigit(t[r.start]) || t[r.start] == '-')
  {
    var p := SkipSpaces(t, pos);
    var c, q := Peek(t, p), Next(t, p);
    if c == '{' then Token(ObjectBegin, p, q)
    else if c == '}' then Token(ObjectEnd, p, q)
    else if c == '[' then Token(ArrayBegin, p, q)
    else if c == ']' then Token(ArrayEnd, p, q)
    else if c == '"' then Scanned(StringToken, p, ScanString(t, q))
    else if c == '/' then Scanned(Comment, p, ScanComment(t, q))
    else if IsDigit(c) || c == '-' then Token(NumberToken, p, ScanNumber(t, q))
    else if c == 't' then Scanned(TrueToken, p, ScanMatch(t, q, "rue"))
    else if c == 'f' then Scanned(FalseToken, p, ScanMatch(t, q, "alse"))
    else if c == 'n' then Scanned(NullToken, p, ScanMatch(t, q, "ull"))
    else if c == ',' then Token(ArraySeparator, p, q)
    else if c == ':' then Token(MemberSeparator, p, q)
    else if c == '\0' then Token(EndOfStream, p, q)
    else Token(ErrorToken, p, q)
  }

  function Scanned(kind: Kind, start: nat, s: Scan): Token {
    Token(if s.ok then kind else ErrorToken, start, s.pos)
  }

  /** The next token that is not a comment. */
  function Skipped(t: string, pos: nat): (r: Token)
    requires pos <= |t|
    ensures pos <= r.start <= r.end <= |t|
    ensures !r.kind.EndOfStream? ==> r.start < r.end
    ensures r.kind.StringToken? ==> r.start + 2 <= r.end
    ensures r.kind.NumberToken? ==> r.end == ScanNumber(t, r.start + 1) && (IsDigit(t[r.start]) || t[r.start] == '-')
    ensures !r.kind.Comment?
    decreases |t| - pos
  {
    var k := TokenAt(t, pos);
    if k.kind.Comment? then Skipped(t, k.end) else k
  }

  /** recoverFromError: to the end of the next token of this kind, or of the text. */
  function Recovered(t: string, pos: nat, until: Kind): (r: nat)
    requires pos <= |t|
    ensures pos <= r <= |t|
    decreases |t| - pos
  {
    var k := TokenAt(t, pos);
    if k.kind == until || k.kind.EndOfStream? then k.end else Recovered(t, k.end, until)
  }

  // ----- errors -----

  datatype Problem =
    | ValueExpected | MissingColon | MissingObjectComma | MissingName | MissingArrayComma
    | NotANumber | EmptyEscape | BadEscape | MissingSurrogate | BadSurrogate
    | MissingHexDigits | BadHexDigit

  datatype Error = Error(problem: Problem, token: Token)

  // ----- numbers -----

  /** Does the text have to be read as floating point? */
  predicate LooksDouble(s: string) {
    exists i :: 0 <= i < |s| && DoubleChar(s, i)
  }

  predicate DoubleChar(s: string, i: nat)
    requires i < |s|
  {
    s[i] == '.' || s[i] == 'e' || s[i] == 'E' || s[i] == '+' || (s[i] == '-' && i != 0)
  }

  predicate AllDigits(s: string) { forall i :: 0 <= i < |s| ==> IsDigit(s[i]) }

  /** The number that the first n decimal digits write. */
  function DecimalTo(s: string, n: nat): nat
    requires n <= |s| && AllDigits(s)
  {
    if n == 0 then 0 else DecimalTo(s, n - 1) * 10 + DigitOf(s[n - 1])
  }

  function Decimal(s: string): nat
    requires AllDigits(s)
  {
    DecimalTo(s, |s|)
  }

  /** An optional minus and digits. */
  predicate IntegerText(s: string) {
    s != [] && (s[0] == '-' || IsDigit(s[0])) && AllDigits(s[1..])
  }

  /** The integer that the text writes; a bare minus counts as zero. */
  function Written(s: string): int
    requires IntegerText(s)
  {
    if s[0] == '-' then 0 - Decimal(s[1..]) as int else Decimal(s)
  }

  predicate Fits(n: int, negative: bool) {
    if negative then -TWO_63 <= n else n < TWO_64
  }

  datatype Decoded<T> = Good(value: T) | Bad(problem: Problem)

  function DecodedDouble(s: string, scans: string -> Option<string>): Decoded<Value> {
    match scans(s)
    case Some(text) => Good(Real(text))
    case None => Bad(NotANumber)
  }

  predicate FitsInteger(s: string) { !LooksDouble(s) && IntegerText(s) && Fits(Written(s), s[0] == '-') }

  /** An integer that fits 64 bits is that integer; anything else is left to the
      floating-point scanner. */
  function DecodedNumber(s: string, scans: string -> Option<string>): Decoded<Value> {
    if FitsInteger(s) then Good(Int(Written(s))) else DecodedDouble(s, scans)
  }

  /** A floating-point number that is read from what it prints as. */
  predicate ScansBack(s: string, scans: string -> Option<string>) {
    NumberText(s) && !FitsInteger(s) && scans(s) == Some(s)
  }

  /** Values the writer and the reader agree on: integers of 64 bits, floating point that
      scans back, strings without NUL, members in strict key order. */
  predicate Plain(v: Value, scans: string -> Option<string>) {
    match v
    case Null => true
    case Bool(_) => true
    case Int(n) => -TWO_63 <= n < TWO_64
    case Real(text) => ScansBack(text, scans)
    case String(s) => NulFree(s)
    case Array(items) => forall i :: 0 <= i < |items| ==> Plain(items[i], scans)
    case Object(members) =>
      && (forall i :: 0 <= i < |members| ==> NulFree(members[i].name) && Plain(members[i].value, scans))
      && (forall i, j :: 0 <= i < j < |members| ==> Less(members[i].name, members[j].name))
  }

  // ----- strings -----

  function HexDigit(c: char): (r: int)
    ensures -1 <= r < 16
  {
    if IsDigit(c) then DigitOf(c)
    else if 'a' <= c <= 'f' then c as int - 'a' as int + 10
    else if 'A' <= c <= 'F' then c as int - 'A' as int + 10
    else -1
  }

  /** The four hexadecimal digits from pos. */
  function Hex4(t: string, pos: nat, end: nat): (r: Decoded<nat>)
    requires end <= |t|
    ensures r.Good? ==> pos + 4 <= end && r.value < 0x10000
  {
    if end < pos + 4 then Bad(MissingHexDigits)
    else
      var a, b, c, d := HexDigit(t[pos]), HexDigit(t[pos + 1]), HexDigit(t[pos + 2]), HexDigit(t[pos + 3]);
      if a < 0 || b < 0 || c < 0 || d < 0 then Bad(BadHexDigit)
      else Good(a * 0x1000 + b * 0x100 + c * 0x10 + d)
  }

  /** What one character or one escape sequence stands for, and where it ends. */
  datatype Piece = Piece(text: string, next: nat)

  /** After "\u". */
  function CodePoint(t: string, pos: nat, end: nat): (r: Decoded<Piece>)
    requires end <= |t|
    ensures r.Good? ==> pos < r.value.next <= end
  {
    var h := Hex4(t, pos, end);
    if h.Bad? then Bad(h.problem)
    else if h.value < 0xD800 || 0xDBFF < h.value then Good(Piece(Utf8(h.value), pos + 4))
    else if end < pos + 10 then Bad(MissingSurrogate)
    else if t[pos + 4] != '\\' || t[pos + 5] != 'u' then Bad(BadSurrogate)
    else
      var l := Hex4(t, pos + 6, end);
      if l.Bad? then Bad(l.problem)
      else Good(Piece(Utf8(0x10000 + h.value % 0x400 * 0x400 + l.value % 0x400), pos + 10))
  }

  function Byte(n: nat): char
    requires n < 0x100
  {
    n as char
  }

  function Utf8(cp: nat): string {
    if cp <= 0x7F then [Byte(cp)]
    else if cp <= 0x7FF then [Byte(0xC0 + cp / 0x40), Byte(0x80 + cp % 0x40)]
    else if cp <= 0xFFFF then [Byte(0xE0 + cp / 0x1000), Byte(0x80 + cp / 0x40 % 0x40), Byte(0x80 + cp % 0x40)]
    else if cp <= 0x10FFFF then
      [Byte(0xF0 + cp / 0x40000), Byte(0x80 + cp / 0x1000 % 0x40), Byte(0x80 + cp / 0x40 % 0x40), Byte(0x80 + cp % 0x40)]
    else []
  }

  /** After a backslash. */
  function EscapeAt(t: string, pos: nat, end: nat): (r: Decoded<Piece>)
    requires end <= |t|
    ensures r.Good? ==> pos < r.value.next <= end
  {
    if end <= pos then Bad(EmptyEscape)
    else
      var c := t[pos];
      if c == '"' || c == '/' || c == '\\' then Good(Piece([c], pos + 1))
      else if c == 'b' then Good(Piece([8 as char], pos + 1))
      else if c == 'f' then Good(Piece([12 as char], pos + 1))
      else if c == 'n' then Good(Piece("\n", pos + 1))
      else if c == 'r' then Good(Piece("\r", pos + 1))
      else if c == 't' then Good(Piece("\t", pos + 1))
      else if c == 'u' then CodePoint(t, pos + 1, end)
      else Bad(BadEscape)
  }

  function PieceAt(t: string, pos: nat, end: nat): (r: Decoded<Piece>)
    requires pos < end <= |t|
    ensures r.Good? ==> pos < r.value.next <= end
  {
    if t[pos] == '\\' then EscapeAt(t, pos + 1, end) else Good(Piece([t[pos]], pos + 1))
  }

  function Prepend(s: string, d: Decoded<string>): Decoded<string> {
    if d.Good? then Good(s + d.value) else d
  }

  /** The characters between the quotes. */
  function DecodedString(t: string, pos: nat, end: nat): (r: Decoded<string>)
    requires pos <= end <= |t|
    decreases end - pos
  {
    if pos == end || t[pos] == '"' then Good("")
    else
      var u := PieceAt(t, pos, end);
      if u.Bad? then Bad(u.problem)
      else Prepend(u.value.text, DecodedString(t, u.value.next, end))
  }

  // ----- objects -----

  /** lower_bound: the first member, from i on, whose name is not below. */
  function LowerBound(ms: seq<Member>, name: string, i: nat): (r: nat)
    requires i <= |ms|
    ensures i <= r <= |ms|
    ensures r < |ms| ==> !Less(ms[r].name, name)
    decreases |ms| - i
  {
    if i < |ms| && Less(ms[i].name, name) then LowerBound(ms, name, i + 1) else i
  }

  /** The value that operator[] refers to; a missing member starts as null. */
  function Get(ms: seq<Member>, name: string): Value {
    var i := LowerBound(ms, name, 0);
    if i < |ms| && ms[i].name == name then ms[i].value else Null
  }

  function Put(ms: seq<Member>, name: string, v: Value): seq<Member> {
    var i := LowerBound(ms, name, 0);
    if i < |ms| && ms[i].name == name then ms[i := Member(name, v)]
    else ms[..i] + [Member(name, v)] + ms[i..]
  }

  // ----- values -----

  datatype Outcome = Outcome(ok: bool, pos: nat, value: Value, errors: seq<Error>)

  /** An outcome that starts from pos: the cursor moves forward within the text,
      and exactly the failures report an error, one each. */
  predicate Sane(t: string, pos: nat, r: Outcome) {
    pos <= r.pos <= |t| && (r.ok <==> r.errors == []) && |r.errors| <= 1
  }

  function Failed(pos: nat, v: Value, problem: Problem, token: Token): Outcome {
    Outcome(false, pos, v, [Error(problem, token)])
  }

  function ValueAt(t: string, scans: string -> Option<string>, pos: nat, was: Value): (r: Outcome)
    requires pos <= |t|
    ensures Sane(t, pos, r)
    decreases |t| - pos, 0
  {
    var k := Skipped(t, pos);
    match k.kind
    case ObjectBegin => MembersAt(t, scans, k.end, [], "")
    case ArrayBegin => ArrayAt(t, scans, k.end)
    case NumberToken =>
      var d := DecodedNumber(t[k.start..k.end], scans);
      if d.Good? then Outcome(true, k.end, d.value, []) else Failed(k.end, was, d.problem, k)
    case StringToken =>
      var d := DecodedString(t, k.start + 1, k.end - 1);
      if d.Good? then Outcome(true, k.end, String(d.value), []) else Failed(k.end, was, d.problem, k)
    case TrueToken => Outcome(true, k.end, Bool(true), [])
    case FalseToken => Outcome(true, k.end, Bool(false), [])
    case NullToken => Outcome(true, k.end, Null, [])
    case _ => Failed(k.end, was, ValueExpected, k)
  }

  /** One turn of readObject's loop, and the rest; last is the name before. */
  function MembersAt(t: string, scans: string -> Option<string>, pos: nat, ms: seq<Member>, last: string): (r: Outcome)
    requires pos <= |t|
    ensures Sane(t, pos, r)
    decreases |t| - pos, 1
  {
    var k := Skipped(t, pos);
    if k.kind.ObjectEnd? && last == "" then Outcome(true, k.end, Object(ms), [])
    else if !k.kind.StringToken? then Failed(Recovered(t, k.end, ObjectEnd), Object(ms), MissingName, k)
    else
      var d := DecodedString(t, k.start + 1, k.end - 1);
      if d.Bad? then Failed(Recovered(t, k.end, ObjectEnd), Object(ms), d.problem, k)
      else MemberAt(t, scans, k.end, ms, d.value)
  }

  /** From the colon on. */
  function MemberAt(t: string, scans: string -> Option<string>, pos: nat, ms: seq<Member>, name: string): (r: Outcome)
    requires pos <= |t|
    ensures Sane(t, pos, r)
    decreases |t| - pos, 2
  {
    var colon := TokenAt(t, pos);
    if !colon.kind.MemberSeparator? then Failed(Recovered(t, colon.end, ObjectEnd), Object(ms), MissingColon, colon)
    else
      var r := ValueAt(t, scans, colon.end, Get(ms, CString(name)));
      var with := Put(ms, CString(name), r.value);
      if !r.ok then Outcome(false, Recovered(t, r.pos, ObjectEnd), Object(with), r.errors)
      else
        var comma := TokenAt(t, r.pos);
        if !AfterMember(comma.kind) then
          Failed(Recovered(t, comma.end, ObjectEnd), Object(with), MissingObjectComma, comma)
        else
          var k := Skipped(t, r.pos);
          if k.kind.ObjectEnd? then Outcome(true, k.end, Object(with), [])
          else MembersAt(t, scans, k.end, with, name)
  }

  predicate AfterMember(k: Kind) { k.ObjectEnd? || k.ArraySeparator? || k.Comment? }

  function ArrayAt(t: string, scans: string -> Option<string>, pos: nat): (r: Outcome)
    requires pos <= |t|
    ensures Sane(t, pos, r)
    decreases |t| - pos, 2
  {
    var p := SkipSpaces(t, pos);
    if Peek(t, p) == ']' then Outcome(true, TokenAt(t, p).end, Array([]), []) else ItemsAt(t, scans, p, [])
  }

  /** One turn of readArray's loop, and the rest. */
  function ItemsAt(t: string, scans: string -> Option<string>, pos: nat, items: seq<Value>): (r: Outcome)
    requires pos <= |t|
    ensures Sane(t, pos, r)
    decreases |t| - pos, 1
  {
    var r := ValueAt(t, scans, pos, Null);
    var with := items + [r.value];
    if !r.ok then Outcome(false, Recovered(t, r.pos, ArrayEnd), Array(with), r.errors)
    else
      var k := Skipped(t, r.pos);
      if k.kind.ArrayEnd? then Outcome(true, k.end, Array(with), [])
      else if k.kind.ArraySeparator? then ItemsAt(t, scans, k.end, with)
      else Failed(Recovered(t, k.end, ArrayEnd), Array(with), MissingArrayComma, k)
  }

  /** parse: one value, then comments; the rest of the text is not looked at. */
  function Parsed(t: string, scans: string -> Option<string>, was: Value): (r: Outcome)
    ensures Sane(t, 0, r)
  {
    var r := ValueAt(t, scans, 0, was);
    Outcome(r.ok, Skipped(t, r.pos).end, r.value, r.errors)
  }
}
