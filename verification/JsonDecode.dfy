/** Reader::decodeNumber and Reader::decodeString: loops over the text of a token. */
module JsonDecode {
  import opened JsonText
  import opened JsonGrammar

  newtype uint64 = x: int | 0 <= x < 0x1_0000_0000_0000_0000

  lemma {:induction false} NumberChars(t: string, pos: nat, i: nat)
    requires pos <= |t| && pos <= i < ScanNumber(t, pos)
    ensures IsNumberChar(t[i])
    decreases i - pos
  {
    if pos < i {
      NumberChars(t, pos + 1, i);
    }
  }

  lemma NumberTokenText(t: string, pos: nat)
    requires pos <= |t| && Skipped(t, pos).kind.NumberToken?
    ensures NumberText(t[Skipped(t, pos).start..Skipped(t, pos).end])
  {
    var k := Skipped(t, pos);
    var s := t[k.start..k.end];
    forall i | 0 <= i < |s| ensures IsNumberChar(s[i]) {
      if i > 0 {
        NumberChars(t, k.start + 1, k.start + i);
      }
    }
  }

  lemma {:induction false} DecimalGrows(d: string, i: nat, j: nat)
    requires i <= j <= |d| && AllDigits(d)
    ensures DecimalTo(d, i) <= DecimalTo(d, j)
    ensures i < j ==> 10 * DecimalTo(d, i) <= DecimalTo(d, j)
  {
    if i < j {
      DecimalGrows(d, i, j - 1);
    }
  }

  method LooksLikeDouble(s: string) returns (r: bool)
    ensures r == LooksDouble(s)
  {
    r := false;
    for i := 0 to |s|
      invariant r <==> exists j :: 0 <= j < i && DoubleChar(s, j)
    {
      assert r ==> exists j :: 0 <= j < i + 1 && DoubleChar(s, j);
      r := r || s[i] == '.' || s[i] == 'e' || s[i] == 'E' || s[i] == '+' || (s[i] == '-' && i != 0);
      assert DoubleChar(s, i) ==> r;
    }
  }

  /** Accumulates the digits in 64 bits; gives up exactly when they do not fit. */
  method Accumulate(d: string, maxIntegerValue: uint64) returns (fits: bool, value: uint64)
    requires AllDigits(d) && maxIntegerValue >= 100
    ensures fits <==> Decimal(d) <= maxIntegerValue as int
    ensures fits ==> value as int == Decimal(d)
  {
    var threshold := maxIntegerValue / 10;
    var current := 0;
    value := 0;
    while current < |d|
      invariant 0 <= current <= |d|
      invariant value as int == DecimalTo(d, current) && value <= maxIntegerValue
    {
      var digit := DigitOf(d[current]) as uint64;
      current := current + 1;
      if value >= threshold {
        if value > threshold || current != |d| || digit > maxIntegerValue % 10 {
          DecimalGrows(d, current, |d|);
          return false, 0;
        }
      }
      value := value * 10 + digit;
    }
    return true, value;
  }

  /** The integer path is taken exactly for the texts of integers that fit. */
  method DecodeNumber(s: string, scans: string -> Option<string>) returns (r: Decoded<Value>)
    requires NumberText(s)
    ensures r == DecodedNumber(s, scans)
  {
    var isDouble := LooksLikeDouble(s);
    if isDouble {
      return DecodedDouble(s, scans);
    }
    DigitsOnly(s);
    var isNegative := s[0] == '-';
    var d := if isNegative then s[1..] else s;
    var maxIntegerValue: uint64 := if isNegative then 0x8000_0000_0000_0000 else 0xFFFF_FFFF_FFFF_FFFF;
    var fits, value := Accumulate(d, maxIntegerValue);
    if !fits {
      return DecodedDouble(s, scans);
    }
    return Good(Int(if isNegative then -(value as int) else value as int));
  }

  lemma DigitsOnly(s: string)
    requires NumberText(s) && !LooksDouble(s)
    ensures IntegerText(s) && (s[0] != '-' ==> AllDigits(s))
  {
    forall i | 0 < i < |s| ensures IsDigit(s[i]) {
      assert IsNumberChar(s[i]) && !DoubleChar(s, i);
    }
  }

  // ----- strings -----

  function HexTo(t: string, pos: nat, n: nat): int
    requires pos + n <= |t|
  {
    if n == 0 then 0 else HexTo(t, pos, n - 1) * 16 + HexDigit(t[pos + n - 1])
  }

  lemma HexFour(t: string, pos: nat)
    requires pos + 4 <= |t|
    ensures HexTo(t, pos, 4) == HexDigit(t[pos]) * 0x1000 + HexDigit(t[pos + 1]) * 0x100 +
                                HexDigit(t[pos + 2]) * 0x10 + HexDigit(t[pos + 3])
  {
    assert HexTo(t, pos, 1) == HexDigit(t[pos]);
    assert HexTo(t, pos, 2) == HexTo(t, pos, 1) * 16 + HexDigit(t[pos + 1]);
    assert HexTo(t, pos, 3) == HexTo(t, pos, 2) * 16 + HexDigit(t[pos + 2]);
  }

  method DecodeUnicodeEscapeSequence(t: string, pos: nat, end: nat) returns (r: Decoded<nat>)
    requires pos <= end <= |t|
    ensures r == Hex4(t, pos, end)
  {
    if end - pos < 4 {
      return Bad(MissingHexDigits);
    }
    var unicode: nat := 0;
    for index := 0 to 4
      invariant unicode == HexTo(t, pos, index)
      invariant forall i :: pos <= i < pos + index ==> HexDigit(t[i]) >= 0
    {
      var c := t[pos + index];
      unicode := unicode * 16;
      if '0' <= c <= '9' {
        unicode := unicode + (c as int - '0' as int);
      } else if 'a' <= c <= 'f' {
        unicode := unicode + (c as int - 'a' as int + 10);
      } else if 'A' <= c <= 'F' {
        unicode := unicode + (c as int - 'A' as int + 10);
      } else {
        return Bad(BadHexDigit);
      }
    }
    HexFour(t, pos);
    return Good(unicode);
  }

  method DecodeUnicodeCodePoint(t: string, pos: nat, end: nat) returns (r: Decoded<Piece>)
    requires pos <= end <= |t|
    ensures r == CodePoint(t, pos, end)
  {
    var h := DecodeUnicodeEscapeSequence(t, pos, end);
    if h.Bad? {
      return Bad(h.problem);
    }
    var current := pos + 4;
    if 0xD800 <= h.value <= 0xDBFF {
      if end - current < 6 {
        return Bad(MissingSurrogate);
      }
      if t[current] != '\\' || t[current + 1] != 'u' {
        return Bad(BadSurrogate);
      }
      var l := DecodeUnicodeEscapeSequence(t, current + 2, end);
      if l.Bad? {
        return Bad(l.problem);
      }
      return Good(Piece(Utf8(0x10000 + h.value % 0x400 * 0x400 + l.value % 0x400), current + 6));
    }
    return Good(Piece(Utf8(h.value), current));
  }

  method DecodeEscape(t: string, pos: nat, end: nat) returns (r: Decoded<Piece>)
    requires pos <= end <= |t|
    ensures r == EscapeAt(t, pos, end)
  {
    if pos == end {
      return Bad(EmptyEscape);
    }
    var escape := t[pos];
    match escape
    case '"' => return Good(Piece("\"", pos + 1));
    case '/' => return Good(Piece("/", pos + 1));
    case '\\' => return Good(Piece("\\", pos + 1));
    case 'b' => return Good(Piece([8 as char], pos + 1));
    case 'f' => return Good(Piece([12 as char], pos + 1));
    case 'n' => return Good(Piece("\n", pos + 1));
    case 'r' => return Good(Piece("\r", pos + 1));
    case 't' => return Good(Piece("\t", pos + 1));
    case 'u' => r := DecodeUnicodeCodePoint(t, pos + 1, end);
    case _ => return Bad(BadEscape);
  }

  /** The characters between start and end. */
  method DecodeString(t: string, start: nat, end: nat) returns (r: Decoded<string>)
    requires start <= end <= |t|
    ensures r == DecodedString(t, start, end)
  {
    hide EscapeAt, CodePoint;
    var current, decoded := start, "";
    PrependNothing(DecodedString(t, start, end));
    while current != end
      invariant start <= current <= end
      invariant Prepend(decoded, DecodedString(t, current, end)) == DecodedString(t, start, end)
      decreases end - current
    {
      var c := t[current];
      if c == '"' {
        break;
      } else if c == '\\' {
        var u := DecodeEscape(t, current + 1, end);
        if u.Bad? {
          return Bad(u.problem);
        }
        PrependTwice(decoded, u.value.text, DecodedString(t, u.value.next, end));
        current, decoded := u.value.next, decoded + u.value.text;
      } else {
        PrependTwice(decoded, [c], DecodedString(t, current + 1, end));
        current, decoded := current + 1, decoded + [c];
      }
    }
    assert decoded + "" == decoded;
    return Good(decoded);
  }

  lemma PrependNothing(d: Decoded<string>)
    ensures Prepend("", d) == d
  {
    if d.Good? {
      assert "" + d.value == d.value;
    }
  }

  lemma PrependTwice(a: string, b: string, d: Decoded<string>)
    ensures Prepend(a, Prepend(b, d)) == Prepend(a + b, d)
  {
    if d.Good? {
      assert a + (b + d.value) == a + b + d.value;
    }
  }
}
