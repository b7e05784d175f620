/** Reading back what was written: any text that spaces out the tokens of a
    value parses to that value. */
module JsonRoundTrip {
  import opened JsonText
  import opened JsonGrammar

  // ----- integers -----

  lemma {:induction false} DecimalPrefix(a: string, b: string, n: nat)
    requires n <= |a| && AllDigits(a) && AllDigits(a + b)
    ensures DecimalTo(a + b, n) == DecimalTo(a, n)
  {
    if n > 0 {
      DecimalPrefix(a, b, n - 1);
    }
  }

  lemma {:induction false} DigitsDecimal(n: nat)
    ensures Decimal(Digits(n)) == n
  {
    var s := Digits(n);
    if n < 10 {
      assert DecimalTo(s, 0) == 0;
    } else {
      DecimalPrefix(Digits(n / 10), [DigitChar(n % 10)], |s| - 1);
      DigitsDecimal(n / 10);
    }
  }

  /** Printed integers of 64 bits read back exactly. */
  lemma IntegerRead(n: int, scans: string -> Option<string>)
    requires -TWO_63 <= n < TWO_64
    ensures DecodedNumber(IntText(n), scans) == Good(Int(n))
  {
    var s := IntText(n);
    if n < 0 {
      assert s[1..] == Digits(-n);
      DigitsDecimal(-n);
    } else {
      DigitsDecimal(n);
    }
    assert IntegerText(s);
    assert Written(s) == n;
    forall i | 0 <= i < |s| ensures !DoubleChar(s, i) {
      assert i > 0 ==> s[i] == s[1..][i - 1];
    }
  }

  // ----- strings -----

  lemma ControlHex(t: string, p: nat, end: nat, c: char)
    requires IsControl(c) && p + 4 <= end <= |t|
    requires t[p] == '0' && t[p + 1] == '0'
    requires t[p + 2] == HexChar(c as int / 16) && t[p + 3] == HexChar(c as int % 16)
    ensures CodePoint(t, p, end) == Good(Piece([c], p + 4))
  {
    var n := c as int;
    assert HexDigit(t[p + 2]) == n / 16 && HexDigit(t[p + 3]) == n % 16;
    assert Hex4(t, p, end) == Good(n);
  }

  lemma EscapeRead(t: string, p: nat, end: nat, c: char)
    requires Has(t, p, Escape(c)) && p + |Escape(c)| <= end <= |t|
    ensures t[p] != '"' && PieceAt(t, p, end) == Good(Piece([c], p + |Escape(c)|))
  {
    var w := Escape(c);
    assert t[p + 0] == w[0];
    if |w| == 2 {
      assert t[p + 1] == w[1];
    } else if |w| == 6 {
      assert t[p + 1] == w[1] && t[p + 2] == w[2] && t[p + 3] == w[3] && t[p + 4] == w[4] && t[p + 5] == w[5];
      ControlHex(t, p + 2, end, c);
    }
  }

  lemma PieceJoined(t: string, p: nat, end: nat, x: string, next: nat)
    requires p < end <= |t| && t[p] != '"' && next <= end
    requires PieceAt(t, p, end) == Good(Piece(x, next))
    ensures DecodedString(t, p, end) == Prepend(x, DecodedString(t, next, end))
  {
  }

  /** Between its quotes, an escaped string decodes to itself. */
  lemma {:induction false} StringRead(t: string, p: nat, s: string, end: nat)
    requires Has(t, p, Escaped(s)) && end == p + |Escaped(s)|
    ensures DecodedString(t, p, end) == Good(s)
    decreases |s|
  {
    hide DecodedString, PieceAt, Has, Escape;
    if s == [] {
      NothingRead(t, p, s);
    } else {
      var next := p + |Escape(s[0])|;
      HasSplit(t, p, Escape(s[0]), Escaped(s[1..]));
      EscapeRead(t, p, end, s[0]);
      StringRead(t, next, s[1..], end);
      PieceJoined(t, p, end, [s[0]], next);
      assert [s[0]] + s[1..] == s;
    }
  }

  lemma NothingRead(t: string, p: nat, s: string)
    requires s == [] && Has(t, p, Escaped(s))
    ensures DecodedString(t, p, p) == Good("")
  {
  }

  lemma EscapeScanned(t: string, p: nat, c: char)
    requires Has(t, p, Escape(c))
    ensures ScanString(t, p) == ScanString(t, p + |Escape(c)|)
  {
    var w := Escape(c);
    assert t[p + 0] == w[0];
    if |w| == 6 {
      assert t[p + 1] == w[1] && t[p + 2] == w[2] && t[p + 3] == w[3] && t[p + 4] == w[4] && t[p + 5] == w[5];
      assert ScanString(t, p) == ScanString(t, p + 2);
      assert ScanString(t, p + 2) == ScanString(t, p + 3);
      assert ScanString(t, p + 3) == ScanString(t, p + 4);
      assert ScanString(t, p + 4) == ScanString(t, p + 5);
    }
  }

  lemma EscapedSplit(t: string, p: nat, s: string)
    requires s != [] && Has(t, p, Escaped(s) + "\"")
    ensures Has(t, p, Escape(s[0])) && Has(t, p + |Escape(s[0])|, Escaped(s[1..]) + "\"")
  {
    hide Has, Escape;
    var rest := Escaped(s[1..]) + "\"";
    assert Escaped(s) + "\"" == Escape(s[0]) + rest;
    HasSplit(t, p, Escape(s[0]), rest);
  }

  lemma {:induction false} StringScanned(t: string, p: nat, s: string)
    requires Has(t, p, Escaped(s) + "\"")
    ensures ScanString(t, p) == Scan(true, p + |Escaped(s)| + 1)
    decreases |s|
  {
    if s == [] {
      assert t[p + 0] == (Escaped(s) + "\"")[0];
    } else {
      EscapedSplit(t, p, s);
      EscapeScanned(t, p, s[0]);
      StringScanned(t, p + |Escape(s[0])|, s[1..]);
    }
  }

  lemma {:induction false} NumberScanned(t: string, p: nat, end: nat)
    requires p <= end <= |t|
    requires forall i :: p <= i < end ==> IsNumberChar(t[i])
    requires end < |t| ==> !IsNumberChar(t[end])
    ensures ScanNumber(t, p) == end
    decreases end - p
  {
    if p < end {
      NumberScanned(t, p + 1, end);
    }
  }

  // ----- tokens -----

  predicate IsPunctuation(w: string) {
    w == "{" || w == "}" || w == "[" || w == "]" || w == "," || w == ":"
  }

  predicate IsWord(w: string) { w == "true" || w == "false" || w == "null" }

  ghost predicate IsQuoted(w: string) { exists s :: w == Quoted(s) }

  ghost predicate IsLexeme(w: string) { IsPunctuation(w) || IsWord(w) || NumberText(w) || IsQuoted(w) }

  /** Tokens of which no number runs into the next. */
  ghost predicate Lexemes(toks: seq<string>) {
    toks != [] ==> IsLexeme(toks[0]) && Closed(toks[0], toks[1..]) && Lexemes(toks[1..])
  }

  ghost predicate Closed(w: string, rest: seq<string>) {
    NumberText(w) && rest != [] ==> IsPunctuation(rest[0])
  }

  function KindOf(w: string): Kind {
    if w == "{" then ObjectBegin
    else if w == "}" then ObjectEnd
    else if w == "[" then ArrayBegin
    else if w == "]" then ArrayEnd
    else if w == "," then ArraySeparator
    else if w == ":" then MemberSeparator
    else if w == "true" then TrueToken
    else if w == "false" then FalseToken
    else if w == "null" then NullToken
    else if w != "" && w[0] == '"' then StringToken
    else NumberToken
  }

  /** The token at pos is the lexeme w. */
  predicate Lexed(t: string, pos: nat, w: string)
    requires pos <= |t|
  {
    TokenAt(t, pos) == Token(KindOf(w), SkipSpaces(t, pos), SkipSpaces(t, pos) + |w|)
  }

  lemma PunctuationLexed(t: string, pos: nat, w: string)
    requires pos <= |t| && Has(t, SkipSpaces(t, pos), w) && IsPunctuation(w)
    ensures Lexed(t, pos, w)
  {
    assert t[SkipSpaces(t, pos) + 0] == w[0];
  }

  lemma WordLexed(t: string, pos: nat, w: string)
    requires pos <= |t| && Has(t, SkipSpaces(t, pos), w) && IsWord(w)
    ensures Lexed(t, pos, w)
  {
    assert t[SkipSpaces(t, pos) + 0] == w[0];
    assert w == w[..1] + w[1..];
    HasSplit(t, SkipSpaces(t, pos), w[..1], w[1..]);
  }

  lemma QuotedParts(t: string, p: nat, s: string)
    requires Has(t, p, Quoted(s))
    ensures t[p] == '"' && Has(t, p + 1, Escaped(s)) && Has(t, p + 1, Escaped(s) + "\"")
  {
    var inner := Escaped(s) + "\"";
    assert Quoted(s) == "\"" + inner;
    HasSplit(t, p, "\"", inner);
    assert t[p + 0] == "\""[0];
    HasSplit(t, p + 1, Escaped(s), "\"");
  }

  lemma QuotedLexed(t: string, pos: nat, s: string)
    requires pos <= |t| && Has(t, SkipSpaces(t, pos), Quoted(s))
    ensures Lexed(t, pos, Quoted(s))
  {
    var p := SkipSpaces(t, pos);
    QuotedParts(t, p, s);
    StringScanned(t, p + 1, s);
    QuotedKind(s);
  }

  lemma NumberLexed(t: string, pos: nat, w: string, rest: seq<string>)
    requires pos <= |t| && NumberText(w) && Has(t, SkipSpaces(t, pos), w)
    requires Spaced(t, SkipSpaces(t, pos) + |w|, rest)
    requires rest != [] ==> IsPunctuation(rest[0])
    ensures Lexed(t, pos, w)
  {
    var p := SkipSpaces(t, pos);
    var end := p + |w|;
    assert t[p + 0] == w[0];
    forall i | p <= i < end ensures IsNumberChar(t[i]) {
      assert t[p + (i - p)] == w[i - p];
    }
    var q := SkipSpaces(t, end);
    if end < |t| && q == end {
      assert t[q + 0] == rest[0][0];
    }
    NumberScanned(t, p + 1, end);
    NumberKind(w);
  }

  lemma QuotedKind(s: string)
    ensures KindOf(Quoted(s)) == StringToken
  {
    assert Quoted(s)[0] == '"';
  }

  lemma NumberKind(w: string)
    requires NumberText(w)
    ensures KindOf(w) == NumberToken
  {
    assert w[0] == '-' || IsDigit(w[0]);
  }

  lemma IntegerIsNumber(n: int)
    ensures NumberText(IntText(n))
  {
  }

  lemma LexemeLexed(t: string, pos: nat, w: string, rest: seq<string>)
    requires pos <= |t| && IsLexeme(w) && Has(t, SkipSpaces(t, pos), w)
    requires Spaced(t, SkipSpaces(t, pos) + |w|, rest)
    requires Closed(w, rest)
    ensures Lexed(t, pos, w)
  {
    if IsPunctuation(w) {
      PunctuationLexed(t, pos, w);
    } else if IsWord(w) {
      WordLexed(t, pos, w);
    } else if NumberText(w) {
      NumberLexed(t, pos, w, rest);
    } else {
      var s :| w == Quoted(s);
      QuotedLexed(t, pos, s);
    }
  }

  lemma KindsSeen(t: string, pos: nat, w: string)
    requires pos <= |t| && Lexed(t, pos, w)
    ensures Skipped(t, pos) == TokenAt(t, pos)
  {
  }

  /** The reader's next token is the next lexeme, whatever the spacing. */
  lemma HeadLexed(t: string, pos: nat, toks: seq<string>)
    requires pos <= |t| && toks != [] && Spaced(t, pos, toks) && Lexemes(toks)
    ensures Lexed(t, pos, toks[0]) && Skipped(t, pos) == TokenAt(t, pos)
    ensures Spaced(t, TokenAt(t, pos).end, toks[1..]) && Lexemes(toks[1..])
  {
    LexemeLexed(t, pos, toks[0], toks[1..]);
    KindsSeen(t, pos, toks[0]);
  }

  lemma {:induction false} LexemesJoin(a: seq<string>, b: seq<string>)
    requires Lexemes(a) && Lexemes(b)
    requires a != [] ==> Closed(a[|a| - 1], b)
    ensures Lexemes(a + b)
  {
    if a == [] {
      assert a + b == b;
    } else {
      LexemesJoin(a[1..], b);
      assert (a + b)[1..] == a[1..] + b;
      assert (a + b)[0] == a[0];
      if |a| > 1 {
        assert (a[1..] + b)[0] == a[1..][0];
        assert Closed(a[0], a[1..] + b);
      } else {
        assert a[1..] + b == b;
      }
    }
  }
}
