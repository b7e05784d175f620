/** Both writers against the reader. */
module JsonDocument {
  import opened JsonText
  import opened JsonGrammar
  import opened JsonRoundTrip
  import opened JsonParse
  import opened JsonPrint
  import opened JsonReader
  import opened JsonWriter

  /** Tokens with nothing between them are still a text of those tokens. */
  lemma {:induction false} ConcatSpaced(toks: seq<string>)
    requires Lexemes(toks)
    ensures Spaced(Concat(toks), 0, toks)
  {
    if toks == [] {
      SpacesSpaced("");
    } else {
      hide Spaced;
      LexemeStarts(toks[0]);
      WordSpaced(toks[0]);
      ConcatSpaced(toks[1..]);
      SpacedJoin(toks[0], 0, Concat(toks[1..]), [toks[0]], toks[1..]);
      assert [toks[0]] + toks[1..] == toks;
    }
  }

  lemma LineSpaced(toks: seq<string>)
    requires Lexemes(toks)
    ensures Spaced(Concat(toks) + "\n", 0, toks)
  {
    hide Spaced;
    ConcatSpaced(toks);
    SpacesSpaced("\n");
    SpacedJoin(Concat(toks), 0, "\n", toks, []);
    assert toks + [] == toks;
  }

  /** Both writers print the same tokens, those of the value. */
  method WriteBoth(v: Value) returns (fast: string, styled: string)
    requires Printable(v)
    ensures Spaced(fast, 0, Toks(v)) && Spaced(styled, 0, Toks(v))
    ensures Tokens(fast, 0) == Tokens(styled, 0) == Toks(v)
  {
    hide Spaced, Lexemes, Tokens, Toks;
    ToksLexemes(v);
    var fastWriter := new FastWriter();
    fast := fastWriter.Write(v);
    LineSpaced(Toks(v));
    var styledWriter := new StyledWriter();
    styled := styledWriter.Write(v);
    TokensFound(fast, 0, Toks(v));
    TokensFound(styled, 0, Toks(v));
  }

  /** And the reader makes the value from either text again. */
  method WriteAndRead(v: Value, scans: string -> Option<string>) returns (fast: string, styled: string, v1: Value, v2: Value)
    requires Plain(v, scans)
    ensures v1 == v && v2 == v
    ensures Tokens(fast, 0) == Tokens(styled, 0)
    ensures Parsed(fast, scans, Null).errors == [] && Parsed(styled, scans, Null).errors == []
  {
    hide Spaced, Lexemes, Tokens, Parsed, Toks;
    PlainPrintable(v, scans);
    fast, styled := WriteBoth(v);
    ParsedBack(fast, scans, Null, v);
    ParsedBack(styled, scans, Null, v);
    var reader := new Reader(scans);
    var ok;
    ok, v1 := reader.Parse(fast, Null);
    ok, v2 := reader.Parse(styled, Null);
  }
}
