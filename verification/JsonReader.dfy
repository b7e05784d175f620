/** Json::Reader: the cursor, the stack of open values and the error list. */
module JsonReader {
  import opened JsonText
  import opened JsonGrammar
  import opened JsonSyntax
  import opened JsonDecode

  /** The reader ended a value as the outcome says: the top of the stack holds the
      value, and the stack below it is as it was. */
  predicate Ended(r: Outcome, ok: bool, current: nat, nodes: seq<Value>, errors: seq<Error>,
                  below: seq<Value>, errors0: seq<Error>) {
    ok == r.ok && current == r.pos && nodes == below + [r.value] && errors == errors0 + r.errors
  }

  class Reader {
    const scans: string -> Option<string>
    var text: string
    var current: nat
    var nodes: seq<Value>
    var errors: seq<Error>

    constructor (scans: string -> Option<string>)
      ensures this.scans == scans && current <= |text|
    {
      this.scans := scans;
      text, current, nodes, errors := "", 0, [], [];
    }

    // ----- characters and tokens -----

    method GetNextChar() returns (c: char)
      requires current <= |text|
      modifies `current
      ensures c == Peek(text, old(current)) && current == Next(text, old(current))
    {
      if current == |text| {
        return '\0';
      }
      c := text[current];
      current := current + 1;
    }

    method SkipSpaces()
      requires current <= |text|
      modifies `current
      ensures current == JsonText.SkipSpaces(text, old(current))
    {
      while current != |text|
        invariant current <= |text|
        invariant JsonText.SkipSpaces(text, current) == JsonText.SkipSpaces(text, old(current))
        decreases |text| - current
      {
        var c := text[current];
        if c == ' ' || c == '\t' || c == '\r' || c == '\n' {
          current := current + 1;
        } else {
          break;
        }
      }
    }

    method Match(pattern: string) returns (ok: bool)
      requires current <= |text|
      modifies `current
      ensures Scan(ok, current) == ScanMatch(text, old(current), pattern)
    {
      if |text| - current < |pattern| {
        return false;
      }
      var index := |pattern|;
      while index > 0
        invariant 0 <= index <= |pattern|
        invariant forall i :: index <= i < |pattern| ==> text[current + i] == pattern[i]
      {
        index := index - 1;
        if text[current + index] != pattern[index] {
          return false;
        }
      }
      current := current + |pattern|;
      return true;
    }

    method ReadCStyleComment() returns (ok: bool)
      requires current <= |text|
      modifies `current
      ensures Scan(ok, current) == ScanCComment(text, old(current))
    {
      while current != |text|
        invariant current <= |text|
        invariant ScanCComment(text, current) == ScanCComment(text, old(current))
        decreases |text| - current
      {
        var c := GetNextChar();
        if c == '*' && Peek(text, current) == '/' {
          c := GetNextChar();
          return c == '/';
        }
      }
      var c := GetNextChar();
      return c == '/';
    }

    method ReadCppStyleComment() returns (ok: bool)
      requires current <= |text|
      modifies `current
      ensures ok && current == ScanCppComment(text, old(current))
    {
      while current != |text|
        invariant current <= |text|
        invariant ScanCppComment(text, current) == ScanCppComment(text, old(current))
        decreases |text| - current
      {
        var c := GetNextChar();
        if c == '\r' || c == '\n' {
          return true;
        }
      }
      return true;
    }

    method ReadComment() returns (ok: bool)
      requires current <= |text|
      modifies `current
      ensures Scan(ok, current) == ScanComment(text, old(current))
    {
      var c := GetNextChar();
      ok := false;
      if c == '*' {
        ok := ReadCStyleComment();
      } else if c == '/' {
        ok := ReadCppStyleComment();
      }
    }

    method ReadNumber()
      requires current <= |text|
      modifies `current
      ensures current == ScanNumber(text, old(current))
    {
      while current != |text|
        invariant current <= |text|
        invariant ScanNumber(text, current) == ScanNumber(text, old(current))
        decreases |text| - current
      {
        if !IsNumberChar(text[current]) {
          break;
        }
        current := current + 1;
      }
    }

    method ReadString() returns (ok: bool)
      requires current <= |text|
      modifies `current
      ensures Scan(ok, current) == ScanString(text, old(current))
    {
      var c := '\0';
      while current != |text|
        invariant current <= |text| && c != '"'
        invariant ScanString(text, current) == ScanString(text, old(current))
        decreases |text| - current
      {
        c := GetNextChar();
        if c == '\\' {
          var escaped := GetNextChar();
        } else if c == '"' {
          return true;
        }
      }
      return c == '"';
    }

    method ReadToken() returns (token: Token)
      requires current <= |text|
      modifies `current
      ensures token == TokenAt(text, old(current)) && current == token.end
    {
      SkipSpaces();
      var start := current;
      var c := GetNextChar();
      var ok, kind := true, ErrorToken;
      if c == '{' {
        kind := ObjectBegin;
      } else if c == '}' {
        kind := ObjectEnd;
      } else if c == '[' {
        kind := ArrayBegin;
      } else if c == ']' {
        kind := ArrayEnd;
      } else if c == '"' {
        kind := StringToken;
        ok := ReadString();
      } else if c == '/' {
        kind := Comment;
        ok := ReadComment();
      } else if IsDigit(c) || c == '-' {
        kind := NumberToken;
        ReadNumber();
      } else if c == 't' {
        kind := TrueToken;
        ok := Match("rue");
      } else if c == 'f' {
        kind := FalseToken;
        ok := Match("alse");
      } else if c == 'n' {
        kind := NullToken;
        ok := Match("ull");
      } else if c == ',' {
        kind := ArraySeparator;
      } else if c == ':' {
        kind := MemberSeparator;
      } else if c == '\0' {
        kind := EndOfStream;
      } else {
        ok := false;
      }
      if !ok {
        kind := ErrorToken;
      }
      token := Token(kind, start, current);
    }

    method SkipCommentTokens() returns (token: Token)
      requires current <= |text|
      modifies `current
      ensures token == Skipped(text, old(current)) && current == token.end
    {
      token := ReadToken();
      while token.kind.Comment?
        invariant current <= |text| && current == token.end
        invariant token.kind.Comment? ==> Skipped(text, current) == Skipped(text, old(current))
        invariant !token.kind.Comment? ==> token == Skipped(text, old(current))
        decreases |text| - current, if token.kind.Comment? then 1 else 0
      {
        token := ReadToken();
      }
    }

    method AddError(problem: Problem, token: Token) returns (ok: bool)
      modifies `errors
      ensures !ok && errors == old(errors) + [Error(problem, token)]
    {
      errors := errors + [Error(problem, token)];
      return false;
    }

    /** Skips ahead to a token of this kind; no error is added. */
    method RecoverFromError(until: Kind) returns (ok: bool)
      requires current <= |text|
      modifies `current
      ensures !ok && current == Recovered(text, old(current), until)
    {
      var skip := ReadToken();
      while skip.kind != until && !skip.kind.EndOfStream?
        invariant current <= |text| && current == skip.end
        invariant Recovered(text, old(current), until) ==
                  if skip.kind != until && !skip.kind.EndOfStream? then Recovered(text, current, until) else current
        decreases |text| - current, if skip.kind.EndOfStream? then 0 else 1
      {
        skip := ReadToken();
      }
      return false;
    }

    method AddErrorAndRecover(problem: Problem, token: Token, until: Kind) returns (ok: bool)
      requires current <= |text|
      modifies `current, `errors
      ensures !ok && current == Recovered(text, old(current), until)
      ensures errors == old(errors) + [Error(problem, token)]
    {
      ok := AddError(problem, token);
      ok := RecoverFromError(until);
    }

    // ----- values -----

    /** currentValue() = v */
    method SetCurrentValue(v: Value)
      requires nodes != []
      modifies `nodes
      ensures nodes == old(nodes)[..|old(nodes)| - 1] + [v]
    {
      nodes := nodes[..|nodes| - 1] + [v];
    }

    /** Reads one value into the top of the stack. */
    method ReadValue() returns (ok: bool)
      requires current <= |text| && nodes != []
      modifies `current, `nodes, `errors
      ensures current <= |text|
      ensures Ended(ValueAt(text, scans, old(current), old(nodes)[|old(nodes)| - 1]), ok, current, nodes, errors,
                    old(nodes)[..|old(nodes)| - 1], old(errors))
      decreases |text| - current, 0
    {
      hide Skipped, TokenAt, DecodedString, DecodedNumber, MembersAt, ArrayAt;
      var token := SkipCommentTokens();
      if token.kind.ObjectBegin? {
        ok := ReadObject();
      } else if token.kind.ArrayBegin? {
        ok := ReadArray();
      } else if token.kind.NumberToken? {
        NumberTokenText(text, old(current));
        var d := DecodeNumber(text[token.start..token.end], scans);
        ok := Store(token, d);
      } else if token.kind.StringToken? {
        var d := DecodeString(text, token.start + 1, token.end - 1);
        ok := Store(token, if d.Good? then Good(String(d.value)) else Bad(d.problem));
      } else if token.kind.TrueToken? {
        SetCurrentValue(Bool(true));
        ok := true;
      } else if token.kind.FalseToken? {
        SetCurrentValue(Bool(false));
        ok := true;
      } else if token.kind.NullToken? {
        SetCurrentValue(Null);
        ok := true;
      } else {
        ok := AddError(ValueExpected, token);
      }
    }

    /** A decoded value becomes the current one; a problem becomes an error. */
    method Store(token: Token, d: Decoded<Value>) returns (ok: bool)
      requires nodes != []
      modifies `nodes, `errors
      ensures ok == d.Good?
      ensures d.Good? ==> nodes == old(nodes)[..|old(nodes)| - 1] + [d.value] && errors == old(errors)
      ensures d.Bad? ==> nodes == old(nodes) && errors == old(errors) + [Error(d.problem, token)]
    {
      ok := d.Good?;
      if d.Good? {
        SetCurrentValue(d.value);
      } else {
        ok := AddError(d.problem, token);
      }
    }

    method ReadArray() returns (ok: bool)
      requires current <= |text| && nodes != []
      modifies `current, `nodes, `errors
      ensures current <= |text|
      ensures Ended(ArrayAt(text, scans, old(current)), ok, current, nodes, errors,
                    old(nodes)[..|old(nodes)| - 1], old(errors))
      decreases |text| - current, 2
    {
      hide Skipped, ValueAt;
      ghost var below := nodes[..|nodes| - 1];
      SetCurrentValue(Array([]));
      SkipSpaces();
      if Peek(text, current) == ']' {
        var endArray := ReadToken();
        return true;
      }
      ghost var goal := ItemsAt(text, scans, current, []);
      var items: seq<Value> := [];
      while true
        invariant current <= |text| && nodes == below + [Array(items)] && errors == old(errors)
        invariant ItemsAt(text, scans, current, items) == goal && old(current) <= current
        decreases |text| - current
      {
        var go;
        go, ok, items := ReadItem(items, below);
        if !go {
          return;
        }
      }
    }

    /** One turn of the array loop. */
    method ReadItem(items: seq<Value>, ghost below: seq<Value>) returns (go: bool, ok: bool, with: seq<Value>)
      requires current <= |text| && nodes == below + [Array(items)]
      modifies `current, `nodes, `errors
      ensures current <= |text|
      ensures go ==> nodes == below + [Array(with)] && errors == old(errors) && current > old(current)
      ensures go ==> ItemsAt(text, scans, current, with) == ItemsAt(text, scans, old(current), items)
      ensures !go ==> Ended(ItemsAt(text, scans, old(current), items), ok, current, nodes, errors, below, old(errors))
      decreases |text| - current, 1
    {
      hide Skipped, ValueAt;
      nodes := nodes + [Null];
      ok := ReadValue();
      with := items + [nodes[|nodes| - 1]];
      nodes := nodes[..|nodes| - 1];
      SetCurrentValue(Array(with));
      if !ok {
        ok := RecoverFromError(ArrayEnd);
        return false, ok, with;
      }
      var token := SkipCommentTokens();
      if !token.kind.ArraySeparator? && !token.kind.ArrayEnd? {
        ok := AddErrorAndRecover(MissingArrayComma, token, ArrayEnd);
        return false, ok, with;
      }
      go := token.kind.ArraySeparator?;
    }

    method ReadObject() returns (ok: bool)
      requires current <= |text| && nodes != []
      modifies `current, `nodes, `errors
      ensures current <= |text|
      ensures Ended(MembersAt(text, scans, old(current), [], ""), ok, current, nodes, errors,
                    old(nodes)[..|old(nodes)| - 1], old(errors))
      decreases |text| - current, 2
    {
      hide Skipped, TokenAt, ValueAt, MemberAt, DecodedString, Recovered;
      ghost var below := nodes[..|nodes| - 1];
      ghost var goal := MembersAt(text, scans, current, [], "");
      var members: seq<Member> := [];
      var name := "";
      SetCurrentValue(Object([]));
      while true
        invariant current <= |text| && nodes == below + [Object(members)] && errors == old(errors)
        invariant MembersAt(text, scans, current, members, name) == goal && old(current) <= current
        decreases |text| - current
      {
        var token := SkipCommentTokens();
        if token.kind.ObjectEnd? && name == "" {
          return true;
        }
        if !token.kind.StringToken? {
          ok := AddErrorAndRecover(MissingName, token, ObjectEnd);
          return;
        }
        var d := DecodeString(text, token.start + 1, token.end - 1);
        if d.Bad? {
          ok := AddError(d.problem, token);
          ok := RecoverFromError(ObjectEnd);
          return;
        }
        name := d.value;
        var go;
        go, ok, members := ReadMember(members, name, below);
        if !go {
          return;
        }
      }
    }

    /** The rest of a turn of the object loop, from the colon on. */
    method ReadMember(ms: seq<Member>, name: string, ghost below: seq<Value>)
      returns (go: bool, ok: bool, with: seq<Member>)
      requires current <= |text| && nodes == below + [Object(ms)]
      modifies `current, `nodes, `errors
      ensures current <= |text|
      ensures go ==> nodes == below + [Object(with)] && errors == old(errors) && current > old(current)
      ensures go ==> MembersAt(text, scans, current, with, name) == MemberAt(text, scans, old(current), ms, name)
      ensures !go ==> Ended(MemberAt(text, scans, old(current), ms, name), ok, current, nodes, errors, below, old(errors))
      decreases |text| - current, 1
    {
      hide ValueAt, MembersAt, TokenAt, Get, Put, CString;
      with := ms;
      var colon := ReadToken();
      if !colon.kind.MemberSeparator? {
        ok := AddErrorAndRecover(MissingColon, colon, ObjectEnd);
        return false, ok, with;
      }
      var key := CString(name);
      nodes := nodes + [Get(ms, key)];
      ok := ReadValue();
      with := Put(ms, key, nodes[|nodes| - 1]);
      nodes := nodes[..|nodes| - 1];
      SetCurrentValue(Object(with));
      if !ok {
        ok := RecoverFromError(ObjectEnd);
        return false, ok, with;
      }
      ghost var after := current;
      var comma := ReadToken();
      if !AfterMember(comma.kind) {
        ok := AddErrorAndRecover(MissingObjectComma, comma, ObjectEnd);
        return false, ok, with;
      }
      if comma.kind.Comment? {
        comma := SkipCommentTokens();
      }
      assert comma == Skipped(text, after);
      go := !comma.kind.ObjectEnd?;
    }

    /** Parses any text: the outcome is that of the grammar, and the stack is back
        to the one root. */
    method Parse(document: string, root: Value) returns (ok: bool, value: Value)
      modifies this
      ensures current <= |text| && text == document
      ensures ok == Parsed(document, scans, root).ok
      ensures value == Parsed(document, scans, root).value && nodes == [value]
      ensures current == Parsed(document, scans, root).pos
      ensures errors == Parsed(document, scans, root).errors
      ensures ok <==> errors == []
      ensures ok <==> exists q: nat :: Document(document, scans, 0, q, value)
    {
      hide ValueAt, Skipped, Document;
      ParsesDocuments(document, scans, root);
      text, current, errors, nodes := document, 0, [], [root];
      ok := ReadValue();
      var token := SkipCommentTokens();
      value := nodes[|nodes| - 1];
    }
  }
}
