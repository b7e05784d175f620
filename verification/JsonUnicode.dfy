/** Unicode escapes against UTF-8 (RFC 3629) and UTF-16 (RFC 2781). */
module JsonUnicode {
  import opened JsonText
  import opened JsonGrammar

  // ----- reading UTF-8 -----

  predicate IsContinuation(c: char) { 0x80 <= c as int <= 0xBF }

  function Low6(c: char): nat
    requires IsContinuation(c)
  {
    c as int - 0x80
  }

  /** The character that these bytes write, in the shortest form only.  Code points of
      UTF-16 surrogates are let through. */
  function FromUtf8(s: string): Option<nat> {
    if |s| == 1 && s[0] as int <= 0x7F then Some(s[0] as int)
    else if |s| == 2 && 0xC2 <= s[0] as int <= 0xDF && IsContinuation(s[1]) then
      Some((s[0] as int - 0xC0) * 0x40 + Low6(s[1]))
    else if |s| == 3 && 0xE0 <= s[0] as int <= 0xEF && IsContinuation(s[1]) && IsContinuation(s[2]) &&
            (s[0] as int == 0xE0 ==> s[1] as int >= 0xA0) then
      Some((s[0] as int - 0xE0) * 0x1000 + Low6(s[1]) * 0x40 + Low6(s[2]))
    else if |s| == 4 && 0xF0 <= s[0] as int <= 0xF4 && IsContinuation(s[1]) && IsContinuation(s[2]) && IsContinuation(s[3]) &&
            (s[0] as int == 0xF0 ==> s[1] as int >= 0x90) && (s[0] as int == 0xF4 ==> s[1] as int <= 0x8F) then
      Some((s[0] as int - 0xF0) * 0x40000 + Low6(s[1]) * 0x1000 + Low6(s[2]) * 0x40 + Low6(s[3]))
    else None
  }

  lemma TwoRead(a: nat, b: nat)
    requires 2 <= a < 0x20 && b < 0x40
    ensures FromUtf8([Byte(0xC0 + a), Byte(0x80 + b)]) == Some(a * 0x40 + b)
  {
  }

  lemma ThreeRead(a: nat, b: nat, c: nat)
    requires a < 0x10 && b < 0x40 && c < 0x40 && (a == 0 ==> b >= 0x20)
    ensures FromUtf8([Byte(0xE0 + a), Byte(0x80 + b), Byte(0x80 + c)]) == Some(a * 0x1000 + b * 0x40 + c)
  {
  }

  lemma FourRead(a: nat, b: nat, c: nat, d: nat)
    requires a <= 4 && b < 0x40 && c < 0x40 && d < 0x40 && (a == 0 ==> b >= 0x10) && (a == 4 ==> b < 0x10)
    ensures FromUtf8([Byte(0xF0 + a), Byte(0x80 + b), Byte(0x80 + c), Byte(0x80 + d)]) ==
            Some(a * 0x40000 + b * 0x1000 + c * 0x40 + d)
  {
  }

  /** Six bits at a time. */
  lemma SixBits(n: nat)
    ensures n / 0x1000 == n / 0x40 / 0x40 && n / 0x40000 == n / 0x40 / 0x40 / 0x40
    ensures n == n / 0x40 * 0x40 + n % 0x40
  {
  }

  /** The bytes printed for a code point are its UTF-8 form. */
  lemma Utf8Decodes(cp: nat)
    requires cp <= 0x10FFFF
    ensures FromUtf8(Utf8(cp)) == Some(cp)
  {
    SixBits(cp);
    var p, d := cp / 0x40, cp % 0x40;
    SixBits(p);
    var q, c := p / 0x40, p % 0x40;
    SixBits(q);
    var a, b := q / 0x40, q % 0x40;
    if cp <= 0x7F {
      assert Byte(cp) as int == cp;
    } else {
      hide FromUtf8, Byte;
      if cp <= 0x7FF {
        TwoRead(p, d);
      } else if cp <= 0xFFFF {
        ThreeRead(q, c, d);
      } else {
        FourRead(a, b, c, d);
      }
    }
  }

  // ----- hexadecimal digits -----

  /** The character is this hexadecimal digit, in either case. */
  predicate IsNibble(c: char, d: nat) {
    d < 16 && (c == "0123456789ABCDEF"[d] || c == "0123456789abcdef"[d])
  }

  /** Four hexadecimal digits at pos write n. */
  predicate Writes(t: string, pos: nat, n: nat) {
    && n < 0x10000 && pos + 4 <= |t|
    && IsNibble(t[pos], n / 0x1000) && IsNibble(t[pos + 1], n / 0x100 % 0x10)
    && IsNibble(t[pos + 2], n / 0x10 % 0x10) && IsNibble(t[pos + 3], n % 0x10)
  }

  lemma NibbleRead(c: char, d: nat)
    requires IsNibble(c, d)
    ensures HexDigit(c) == d
  {
  }

  lemma NibblesRead(t: string, pos: nat, end: nat, a: nat, b: nat, c: nat, d: nat)
    requires pos + 4 <= end <= |t|
    requires IsNibble(t[pos], a) && IsNibble(t[pos + 1], b) && IsNibble(t[pos + 2], c) && IsNibble(t[pos + 3], d)
    ensures Hex4(t, pos, end) == Good(a * 0x1000 + b * 0x100 + c * 0x10 + d)
  {
    NibbleRead(t[pos], a);
    NibbleRead(t[pos + 1], b);
    NibbleRead(t[pos + 2], c);
    NibbleRead(t[pos + 3], d);
    hide HexDigit, IsNibble;
  }

  /** Four bits at a time. */
  lemma FourBits(n: nat)
    ensures n / 0x100 == n / 0x10 / 0x10 && n / 0x1000 == n / 0x10 / 0x10 / 0x10
    ensures n == n / 0x10 * 0x10 + n % 0x10
  {
  }

  lemma HexRead(t: string, pos: nat, end: nat, n: nat)
    requires Writes(t, pos, n) && pos + 4 <= end <= |t|
    ensures Hex4(t, pos, end) == Good(n)
  {
    hide IsNibble, Hex4;
    NibblesRead(t, pos, end, n / 0x1000, n / 0x100 % 0x10, n / 0x10 % 0x10, n % 0x10);
    FourBits(n);
    FourBits(n / 0x10);
    FourBits(n / 0x10 / 0x10);
  }

  // ----- escapes -----

  /** The piece writes the character cp in UTF-8 and ends at next. */
  predicate Decodes(d: Decoded<Piece>, cp: nat, next: nat) {
    d.Good? && FromUtf8(d.value.text) == Some(cp) && d.value.next == next
  }

  /** One escape is the character of its four digits. */
  lemma UnitDecodes(t: string, pos: nat, end: nat, cp: nat)
    requires Writes(t, pos, cp) && pos + 4 <= end <= |t| && !(0xD800 <= cp <= 0xDBFF)
    ensures Decodes(CodePoint(t, pos, end), cp, pos + 4)
  {
    HexRead(t, pos, end, cp);
    Utf8Decodes(cp);
    hide Utf8, FromUtf8, Hex4;
  }

  /** Two escapes that write the UTF-16 pair of a character are that character. */
  lemma PairDecodes(t: string, pos: nat, end: nat, cp: nat)
    requires 0x10000 <= cp <= 0x10FFFF && pos + 10 <= end <= |t|
    requires Writes(t, pos, 0xD800 + (cp - 0x10000) / 0x400)
    requires t[pos + 4] == '\\' && t[pos + 5] == 'u' && Writes(t, pos + 6, 0xDC00 + (cp - 0x10000) % 0x400)
    ensures Decodes(CodePoint(t, pos, end), cp, pos + 10)
  {
    hide Utf8, FromUtf8, Hex4, Writes;
    var x := cp - 0x10000;
    HexRead(t, pos, end, 0xD800 + x / 0x400);
    HexRead(t, pos + 6, end, 0xDC00 + x % 0x400);
    PairBits(x);
    Utf8Decodes(cp);
  }

  lemma PairBits(x: nat)
    requires x < 0x100000
    ensures x / 0x400 < 0x400 && (0xD800 + x / 0x400) % 0x400 == x / 0x400 && (0xDC00 + x % 0x400) % 0x400 == x % 0x400
    ensures x / 0x400 * 0x400 + x % 0x400 == x
  {
  }

  /** A whole string token with one such escape, or one such pair. */
  lemma StringDecodes(t: string, pos: nat, end: nat, cp: nat)
    requires pos + 2 <= end <= |t| && t[pos] == '\\' && t[pos + 1] == 'u' && Decodes(CodePoint(t, pos + 2, end), cp, end)
    ensures DecodedString(t, pos, end).Good? && FromUtf8(DecodedString(t, pos, end).value) == Some(cp)
  {
    hide CodePoint, FromUtf8;
    var x := CodePoint(t, pos + 2, end).value.text;
    assert PieceAt(t, pos, end) == CodePoint(t, pos + 2, end);
    assert DecodedString(t, end, end) == Good("");
    assert x + "" == x;
  }

  /** The other escapes of RFC 8259, section 7. */
  lemma ShortEscapes(t: string, pos: nat, end: nat)
    requires pos < end <= |t|
    ensures t[pos] == '"' ==> EscapeAt(t, pos, end) == Good(Piece([0x22 as char], pos + 1))
    ensures t[pos] == '\\' ==> EscapeAt(t, pos, end) == Good(Piece([0x5C as char], pos + 1))
    ensures t[pos] == '/' ==> EscapeAt(t, pos, end) == Good(Piece([0x2F as char], pos + 1))
    ensures t[pos] == 'b' ==> EscapeAt(t, pos, end) == Good(Piece([0x08 as char], pos + 1))
    ensures t[pos] == 'f' ==> EscapeAt(t, pos, end) == Good(Piece([0x0C as char], pos + 1))
    ensures t[pos] == 'n' ==> EscapeAt(t, pos, end) == Good(Piece([0x0A as char], pos + 1))
    ensures t[pos] == 'r' ==> EscapeAt(t, pos, end) == Good(Piece([0x0D as char], pos + 1))
    ensures t[pos] == 't' ==> EscapeAt(t, pos, end) == Good(Piece([0x09 as char], pos + 1))
  {
  }
}
