/** Json::FastWriter and Json::StyledWriter. */
module JsonWriter {
  import opened JsonText
  import opened JsonGrammar
  import opened JsonRoundTrip
  import opened JsonPrint

  // ----- texts without white space -----

  function Concat(toks: seq<string>): string {
    if toks == [] then "" else toks[0] + Concat(toks[1..])
  }

  lemma {:induction false} ConcatJoin(a: seq<string>, b: seq<string>)
    ensures Concat(a + b) == Concat(a) + Concat(b)
  {
    if a == [] {
      assert a + b == b;
    } else {
      ConcatJoin(a[1..], b);
      assert (a + b)[1..] == a[1..] + b && (a + b)[0] == a[0];
      assert a[0] + (Concat(a[1..]) + Concat(b)) == a[0] + Concat(a[1..]) + Concat(b);
    }
  }

  lemma ConcatOne(w: string)
    ensures Concat([w]) == w
  {
    assert [w][1..] == [];
  }

  /** A scalar's text. */
  method ScalarText(v: Value) returns (s: string)
    requires Printable(v) && !v.Array? && !v.Object?
    ensures Toks(v) == [s]
  {
    match v
    case Null => s := "null";
    case Bool(b) => s := if b then "true" else "false";
    case Int(n) => s := ValueToString(n);
    case Real(text) => s := text;
    case String(x) => s := ValueToQuotedString(CString(x));
  }

  class FastWriter {
    var document: string

    constructor () {
      document := "";
    }

    method Append(w: string, ghost was: string, ghost toks: seq<string>)
      requires document == was + Concat(toks)
      modifies this
      ensures document == was + Concat(toks + [w])
    {
      ConcatJoin(toks, [w]);
      ConcatOne(w);
      document := document + w;
    }

    /** Appends the value's tokens with nothing between them. */
    method WriteValue(v: Value)
      requires Printable(v)
      modifies this
      ensures document == old(document) + Concat(Toks(v))
      decreases v
    {
      hide Concat;
      ghost var was := document;
      if v.Array? {
        ConcatOne("[");
        document := document + "[";
        for index := 0 to |v.items|
          invariant document == was + Concat(ItemsBefore(v, index))
        {
          ghost var done := ItemsBefore(v, index);
          if index > 0 {
            Append(",", was, done);
          } else {
            assert done + Comma(0) == done;
          }
          WriteValue(v.items[index]);
          ConcatJoin(done + Comma(index), Toks(v.items[index]));
        }
        ItemsAll(v);
        Append("]", was, ItemsBefore(v, |v.items|));
      } else if v.Object? {
        ConcatOne("{");
        document := document + "{";
        for index := 0 to |v.members|
          invariant document == was + Concat(MembersBefore(v, index))
        {
          WriteMember(v, index, was);
        }
        MembersAll(v);
        Append("}", was, MembersBefore(v, |v.members|));
      } else {
        var s := ScalarText(v);
        ConcatOne(s);
        document := document + s;
      }
    }

    method WriteMember(v: Value, index: nat, ghost was: string)
      requires v.Object? && Printable(v) && index < |v.members|
      requires document == was + Concat(MembersBefore(v, index))
      modifies this
      ensures document == was + Concat(MembersBefore(v, index + 1))
      decreases v, 0
    {
      hide Concat;
      var m := v.members[index];
      assert PrintableMember(m);
      ghost var done := MembersBefore(v, index);
      if index > 0 {
        Append(",", was, done);
      } else {
        assert done + Comma(0) == done;
      }
      done := done + Comma(index);
      var name := ValueToQuotedString(m.name);
      Append(name, was, done);
      Append(":", was, done + [name]);
      WriteValue(m.value);
      ConcatJoin(done + [name] + [":"], Toks(m.value));
      assert done + [name] + [":"] == done + [name, ":"];
    }

    method Write(root: Value) returns (text: string)
      requires Printable(root)
      modifies this
      ensures text == Concat(Toks(root)) + "\n"
    {
      document := "";
      WriteValue(root);
      document := document + "\n";
      text := document;
    }
  }

  // ----- texts with white space -----

  predicate Scalar(v: Value) {
    match v
    case Array(items) => items == []
    case Object(members) => members == []
    case _ => true
  }

  /** The collected texts are those of the first n items. */
  predicate Collected(v: Value, texts: seq<string>, n: nat)
    requires v.Array? && n <= |v.items|
  {
    |texts| == n && forall i :: 0 <= i < n ==> Spaced(texts[i], 0, Toks(v.items[i]))
  }

  lemma LexemeStarts(w: string)
    requires IsLexeme(w)
    ensures w != "" && !IsSpace(w[0])
  {
    if IsQuoted(w) {
      var s :| w == Quoted(s);
      QuotedKind(s);
    }
  }

  lemma ScalarSpaced(v: Value, s: string)
    requires Printable(v) && !v.Array? && !v.Object? && Toks(v) == [s]
    ensures Spaced(s, 0, Toks(v))
  {
    if v.Int? {
      IntegerIsNumber(v.n);
    }
    assert IsLexeme(s);
    LexemeStarts(s);
    WordSpaced(s);
  }

  lemma EmptySpaced(a: string, b: string)
    requires IsPunctuation(a) && IsPunctuation(b)
    ensures Spaced(a + b, 0, [a, b])
  {
    WordSpaced(a);
    WordSpaced(b);
    SpacedJoin(a, 0, b, [a], [b]);
    assert [a] + [b] == [a, b];
  }

  class StyledWriter {
    const rightMargin: nat := 74
    const indentSize: nat := 3
    var document: string
    var childValues: seq<string>
    var addChildValues: bool
    var indentString: string

    constructor ()
      ensures AllSpaces(indentString)
    {
      document, childValues, addChildValues, indentString := "", [], false, "";
    }

    method PushValue(value: string, ghost toks: seq<string>)
      requires Spaced(value, 0, toks)
      modifies `document, `childValues
      ensures addChildValues ==> document == old(document) && childValues == old(childValues) + [value]
      ensures !addChildValues ==> Grown(old(document), document, toks) && childValues == old(childValues)
    {
      if addChildValues {
        childValues := childValues + [value];
      } else {
        GrownBy(document, value, toks);
        document := document + value;
      }
    }

    /** Adds white space only. */
    method WriteIndent()
      requires AllSpaces(indentString)
      modifies `document
      ensures Grown(old(document), document, [])
    {
      var added := "";
      if document != "" {
        var last := document[|document| - 1];
        if last == ' ' {
          SpacesSpaced("");
          GrownBy(document, "", []);
          assert document + "" == document;
          return;
        }
        if last != '\n' {
          added := "\n";
        }
      }
      added := added + indentString;
      SpacesSpaced(added);
      GrownBy(document, added, []);
      document := document + added;
    }

    method WriteWithIndent(value: string, ghost toks: seq<string>)
      requires AllSpaces(indentString) && Spaced(value, 0, toks)
      modifies `document
      ensures Grown(old(document), document, toks)
    {
      ghost var was := document;
      WriteIndent();
      GrownBy(document, value, toks);
      GrownTwice(was, document, document + value, [], toks);
      assert [] + toks == toks;
      document := document + value;
    }

    /** One more token, with white space around it, after those written since was. */
    method AddToken(a: string, w: string, b: string, ghost was: string, ghost toks: seq<string>)
      requires AllSpaces(a) && AllSpaces(b) && w != "" && !IsSpace(w[0]) && Grown(was, document, toks)
      modifies `document
      ensures Grown(was, document, toks + [w])
    {
      hide Grown, Spaced;
      PaddedSpaced(a, w, b);
      GrownBy(document, a + w + b, [w]);
      GrownTwice(was, document, document + (a + w + b), toks, [w]);
      document := document + (a + w + b);
    }

    method AddTokenWithIndent(w: string, ghost was: string, ghost toks: seq<string>)
      requires AllSpaces(indentString) && w != "" && !IsSpace(w[0]) && Grown(was, document, toks)
      modifies `document
      ensures Grown(was, document, toks + [w])
    {
      hide Grown, Spaced;
      ghost var before := document;
      WordSpaced(w);
      WriteWithIndent(w, [w]);
      GrownTwice(was, before, document, toks, [w]);
    }

    method Indent()
      modifies `indentString
      ensures indentString == old(indentString) + "   "
    {
      indentString := indentString + "   ";
    }

    method Unindent()
      requires |indentString| >= indentSize
      modifies `indentString
      ensures indentString == old(indentString)[..|old(indentString)| - indentSize]
    {
      indentString := indentString[..|indentString| - indentSize];
    }

    /** Writes a value's tokens into the document, or, while texts are being
        collected, adds one text.  The indentation is the same afterwards. */
    method WriteValue(v: Value)
      requires Printable(v) && AllSpaces(indentString)
      requires addChildValues ==> Scalar(v)
      modifies this
      ensures indentString == old(indentString) && addChildValues == old(addChildValues)
      ensures !addChildValues ==> Grown(old(document), document, Toks(v))
      ensures addChildValues ==> document == old(document) && |childValues| == |old(childValues)| + 1
      ensures addChildValues ==> childValues[..|old(childValues)|] == old(childValues)
      ensures addChildValues ==> Spaced(childValues[|old(childValues)|], 0, Toks(v))
      decreases v, 3
    {
      hide Grown, Spaced;
      if v.Array? {
        WriteArrayValue(v);
      } else if v.Object? {
        if v.members == [] {
          EmptySpaced("{", "}");
          assert "{" + "}" == "{}" && Toks(v) == ["{", "}"];
          PushValue("{}", ["{", "}"]);
        } else {
          WriteMembers(v);
        }
      } else {
        var s := ScalarText(v);
        ScalarSpaced(v, s);
        PushValue(s, Toks(v));
      }
    }

    method WriteMembers(v: Value)
      requires v.Object? && v.members != [] && Printable(v) && AllSpaces(indentString) && !addChildValues
      modifies this
      ensures indentString == old(indentString) && !addChildValues
      ensures Grown(old(document), document, Toks(v))
      decreases v, 2
    {
      hide Grown, Spaced;
      ghost var was := document;
      WordSpaced("{");
      WriteWithIndent("{", ["{"]);
      Indent();
      var index := 0;
      assert MembersBefore(v, 0) + Comma(0) == ["{"];
      while true
        invariant 0 <= index < |v.members| && !addChildValues
        invariant indentString == old(indentString) + "   "
        invariant Grown(was, document, MembersBefore(v, index) + Comma(index))
        decreases |v.members| - index
      {
        WriteMember(v, index, was);
        index := index + 1;
        if index == |v.members| {
          break;
        }
        AddToken("", ",", "", was, MembersBefore(v, index));
      }
      Unindent();
      AddTokenWithIndent("}", was, MembersBefore(v, |v.members|));
      MembersAll(v);
    }

    method WriteMember(v: Value, index: nat, ghost was: string)
      requires v.Object? && index < |v.members| && Printable(v) && AllSpaces(indentString) && !addChildValues
      requires Grown(was, document, MembersBefore(v, index) + Comma(index))
      modifies this
      ensures indentString == old(indentString) && !addChildValues
      ensures Grown(was, document, MembersBefore(v, index + 1))
      decreases v, 1
    {
      hide Grown, Spaced;
      var m := v.members[index];
      assert PrintableMember(m);
      ghost var done := MembersBefore(v, index) + Comma(index);
      var name := ValueToQuotedString(m.name);
      AddTokenWithIndent(name, was, done);
      AddToken(" ", ":", " ", was, done + [name]);
      ghost var before := document;
      WriteValue(m.value);
      GrownTwice(was, before, document, done + [name] + [":"], Toks(m.value));
      assert done + [name] + [":"] == done + [name, ":"];
    }

    method WriteArrayValue(v: Value)
      requires v.Array? && Printable(v) && AllSpaces(indentString)
      requires addChildValues ==> v.items == []
      modifies this
      ensures indentString == old(indentString) && addChildValues == old(addChildValues)
      ensures !addChildValues ==> Grown(old(document), document, Toks(v))
      ensures addChildValues ==> document == old(document) && |childValues| == |old(childValues)| + 1
      ensures addChildValues ==> childValues[..|old(childValues)|] == old(childValues)
      ensures addChildValues ==> Spaced(childValues[|old(childValues)|], 0, Toks(v))
      decreases v, 2
    {
      hide Grown, Spaced;
      if v.items == [] {
        EmptySpaced("[", "]");
        assert "[" + "]" == "[]" && Toks(v) == ["[", "]"];
        PushValue("[]", ["[", "]"]);
      } else {
        var isArrayMultiLine := IsMultilineArray(v);
        if isArrayMultiLine {
          WriteMultiLine(v);
        } else {
          WriteSingleLine(v);
        }
      }
    }

    method WriteMultiLine(v: Value)
      requires v.Array? && v.items != [] && Printable(v) && AllSpaces(indentString) && !addChildValues
      requires childValues == [] || Collected(v, childValues, |v.items|)
      modifies this
      ensures indentString == old(indentString) && !addChildValues
      ensures Grown(old(document), document, Toks(v))
      decreases v, 1
    {
      hide Grown, Spaced;
      ghost var was := document;
      WordSpaced("[");
      WriteWithIndent("[", ["["]);
      Indent();
      var hasChildValue := childValues != [];
      var index := 0;
      assert ItemsBefore(v, 0) + Comma(0) == ["["];
      while true
        invariant 0 <= index < |v.items| && !addChildValues
        invariant indentString == old(indentString) + "   "
        invariant hasChildValue ==> Collected(v, childValues, |v.items|)
        invariant Grown(was, document, ItemsBefore(v, index) + Comma(index))
        decreases |v.items| - index
      {
        ghost var before := document;
        if hasChildValue {
          WriteWithIndent(childValues[index], Toks(v.items[index]));
        } else {
          WriteIndent();
          ghost var indented := document;
          WriteValue(v.items[index]);
          GrownTwice(before, indented, document, [], Toks(v.items[index]));
          assert [] + Toks(v.items[index]) == Toks(v.items[index]);
        }
        GrownTwice(was, before, document, ItemsBefore(v, index) + Comma(index), Toks(v.items[index]));
        index := index + 1;
        if index == |v.items| {
          break;
        }
        AddToken("", ",", "", was, ItemsBefore(v, index));
      }
      Unindent();
      AddTokenWithIndent("]", was, ItemsBefore(v, |v.items|));
      ItemsAll(v);
    }

    method WriteSingleLine(v: Value)
      requires v.Array? && v.items != [] && Printable(v) && Collected(v, childValues, |v.items|)
      modifies `document
      ensures Grown(old(document), document, Toks(v))
    {
      hide Grown, Spaced;
      ghost var was := document;
      PaddedSpaced("", "[", " ");
      assert "" + "[" + " " == "[ ";
      GrownBy(document, "[ ", ["["]);
      document := document + "[ ";
      for index := 0 to |v.items|
        invariant Grown(was, document, ItemsBefore(v, index))
      {
        ghost var done := ItemsBefore(v, index) + Comma(index);
        if index > 0 {
          AddToken("", ",", " ", was, ItemsBefore(v, index));
        } else {
          assert done == ItemsBefore(v, 0);
        }
        GrownBy(document, childValues[index], Toks(v.items[index]));
        GrownTwice(was, document, document + childValues[index], done, Toks(v.items[index]));
        document := document + childValues[index];
      }
      AddToken(" ", "]", "", was, ItemsBefore(v, |v.items|));
      ItemsAll(v);
    }

    /** Whether to break the line; when the items' texts were collected, they are
        the texts of all items. */
    method IsMultilineArray(v: Value) returns (isMultiLine: bool)
      requires v.Array? && v.items != [] && Printable(v) && AllSpaces(indentString) && !addChildValues
      modifies this
      ensures document == old(document) && indentString == old(indentString) && !addChildValues
      ensures childValues == [] || Collected(v, childValues, |v.items|)
      ensures !isMultiLine ==> Collected(v, childValues, |v.items|)
      decreases v, 1
    {
      hide Grown, Spaced;
      var size := |v.items|;
      isMultiLine := size * 3 >= rightMargin;
      childValues := [];
      var index := 0;
      while index < size && !isMultiLine
        invariant 0 <= index <= size
        invariant !isMultiLine ==> forall i :: 0 <= i < index ==> Scalar(v.items[i])
      {
        isMultiLine := !Scalar(v.items[index]);
        index := index + 1;
      }
      if !isMultiLine {
        addChildValues := true;
        var lineLength := 4 + (size - 1) * 2;
        for i := 0 to size
          invariant addChildValues && document == old(document) && indentString == old(indentString)
          invariant Collected(v, childValues, i)
        {
          WriteValue(v.items[i]);
          lineLength := lineLength + |childValues[i]|;
        }
        addChildValues := false;
        isMultiLine := lineLength >= rightMargin;
      }
    }

    method Write(root: Value) returns (text: string)
      requires Printable(root)
      modifies this
      ensures Spaced(text, 0, Toks(root)) && indentString == ""
    {
      document, addChildValues, indentString := "", false, "";
      WriteValue(root);
      ghost var toks := Toks(root);
      assert document[0..] == document;
      SpacesSpaced("\n");
      SpacedJoin(document, 0, "\n", toks, []);
      assert toks + [] == toks;
      document := document + "\n";
      text := document;
    }
  }
}
