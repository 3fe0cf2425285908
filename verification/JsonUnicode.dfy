/** Unicode escapes: every sequence of Unicode scalar values, written as \uXXXX escapes and surrogate
    pairs (section 7 of RFC 8259), decodes to its UTF-8 form (section 3 of RFC 3629), which
    determines it. */
module JsonUnicode {
  import opened JsonText

  predicate IsScalar(cp: nat) { cp <= 0x10FFFF && !(0xD800 <= cp <= 0xDFFF) }

  /** A continuation byte, 10xxxxxx. */
  predicate IsTail(c: char) { 0x80 <= c as int <= 0xBF }

  /** s is the UTF-8 form of cp: the row of RFC 3629's table that cp belongs to, with the payload
      bits, first byte first, spelling cp. */
  predicate IsUtf8(s: string, cp: nat) {
    if cp <= 0x7F then
      |s| == 1 && s[0] as int == cp
    else if cp <= 0x7FF then
      |s| == 2 && 0xC0 <= s[0] as int <= 0xDF && IsTail(s[1]) &&
      cp == (s[0] as int - 0xC0) * 0x40 + (s[1] as int - 0x80)
    else if cp <= 0xFFFF then
      |s| == 3 && 0xE0 <= s[0] as int <= 0xEF && IsTail(s[1]) && IsTail(s[2]) &&
      cp == (s[0] as int - 0xE0) * 0x1000 + (s[1] as int - 0x80) * 0x40 + (s[2] as int - 0x80)
    else
      |s| == 4 && 0xF0 <= s[0] as int <= 0xF7 && IsTail(s[1]) && IsTail(s[2]) && IsTail(s[3]) &&
      cp == (s[0] as int - 0xF0) * 0x40000 + (s[1] as int - 0x80) * 0x1000 +
            (s[2] as int - 0x80) * 0x40 + (s[3] as int - 0x80)
  }

  lemma PayloadBits(cp: nat)
    ensures cp == cp / 64 * 64 + cp % 64
    ensures cp / 64 == cp / 4096 * 64 + cp / 64 % 64
    ensures cp / 4096 == cp / 262144 * 64 + cp / 4096 % 64
    ensures cp <= 0xFFFF ==> cp / 4096 % 16 == cp / 4096
    ensures cp <= 0x10FFFF ==> cp / 262144 % 8 == cp / 262144
  {
  }

  lemma FourBytesAreUtf8(cp: nat)
    requires 0xFFFF < cp <= 0x10FFFF
    ensures IsUtf8(CodePointToUtf8(cp), cp)
  {
    PayloadBits(cp);
    var a, b, c, d := cp / 262144, cp / 4096 % 64, cp / 64 % 64, cp % 64;
    assert CodePointToUtf8(cp) ==
      [(0xF0 + a) as char, (0x80 + b) as char, (0x80 + c) as char, (0x80 + d) as char];
  }

  lemma ThreeBytesAreUtf8(cp: nat)
    requires 0x7FF < cp <= 0xFFFF
    ensures IsUtf8(CodePointToUtf8(cp), cp)
  {
    PayloadBits(cp);
    var a, b, c := cp / 4096, cp / 64 % 64, cp % 64;
    assert CodePointToUtf8(cp) == [(0xE0 + a) as char, (0x80 + b) as char, (0x80 + c) as char];
  }

  /** codePointToUTF8 gives the UTF-8 form. */
  lemma CodePointIsUtf8(cp: nat)
    requires cp <= 0x10FFFF
    ensures IsUtf8(CodePointToUtf8(cp), cp)
  {
    if cp > 0xFFFF { FourBytesAreUtf8(cp); }
    else if cp > 0x7FF { ThreeBytesAreUtf8(cp); }
  }

  /** No UTF-8 form starts another one: the first byte tells the length, the payload the rest. */
  lemma Utf8PrefixFree(s: string, a: nat, t: string, b: nat, rest: string, rest': string)
    requires IsUtf8(s, a) && IsUtf8(t, b) && s + rest == t + rest'
    ensures a == b && s == t && rest == rest'
  {
    var all := s + rest;
    assert forall i :: 0 <= i < |s| ==> all[i] == s[i];
    assert forall i :: 0 <= i < |t| ==> all[i] == t[i];
    assert s[0] == t[0];
    assert |s| == |t|;
    assert s == all[..|s|] && t == all[..|t|];
    assert rest == all[|s|..] && rest' == all[|t|..];
  }

  function Utf8(cps: seq<nat>): string {
    if cps == [] then [] else CodePointToUtf8(cps[0]) + Utf8(cps[1..])
  }

  /** The UTF-8 form of a text determines it. */
  lemma {:induction false} Utf8Injective(x: seq<nat>, y: seq<nat>)
    requires forall i :: 0 <= i < |x| ==> x[i] <= 0x10FFFF
    requires forall i :: 0 <= i < |y| ==> y[i] <= 0x10FFFF
    requires Utf8(x) == Utf8(y)
    ensures x == y
  {
    if x != [] { CodePointIsUtf8(x[0]); }
    if y != [] { CodePointIsUtf8(y[0]); }
    if x != [] && y != [] {
      Utf8PrefixFree(CodePointToUtf8(x[0]), x[0], CodePointToUtf8(y[0]), y[0], Utf8(x[1..]), Utf8(y[1..]));
      Utf8Injective(x[1..], y[1..]);
      assert x == [x[0]] + x[1..] && y == [y[0]] + y[1..];
    }
  }

  // ---------- escapes ----------

  function High(cp: nat): nat { 0xD800 + (cp - 0x10000) / 0x400 }
  function Low(cp: nat): nat { 0xDC00 + (cp - 0x10000) % 0x400 }

  /** Four hexadecimal digits, in either case, that spell n. */
  predicate HexAt(doc: string, p: nat, n: nat) {
    p + 4 <= |doc| && n < 0x10000 &&
    IsHexDigit(doc[p], n / 0x1000) && IsHexDigit(doc[p + 1], n / 0x100 % 0x10) &&
    IsHexDigit(doc[p + 2], n / 0x10 % 0x10) && IsHexDigit(doc[p + 3], n % 0x10)
  }

  predicate EscapeAt(doc: string, p: nat, n: nat) {
    p + 6 <= |doc| && doc[p] == '\\' && doc[p + 1] == 'u' && HexAt(doc, p + 2, n)
  }

  function EscapeLength(cp: nat): nat { if cp <= 0xFFFF then 6 else 12 }

  /** doc[p..q] is the escaped form of the scalar values cps. */
  predicate EscapedAt(doc: string, p: nat, cps: seq<nat>, q: nat)
    decreases |cps|
  {
    if cps == [] then p == q <= |doc|
    else
      (if cps[0] <= 0xFFFF then EscapeAt(doc, p, cps[0])
       else EscapeAt(doc, p, High(cps[0])) && EscapeAt(doc, p + 6, Low(cps[0]))) &&
      EscapedAt(doc, p + EscapeLength(cps[0]), cps[1..], q)
  }

  lemma HexDigitsAt(doc: string, p: nat, n: nat)
    requires HexAt(doc, p, n)
    ensures HexDigits(doc, p, 4, 0) == CodePoint(n, p + 4)
  {
    HexDigitTable(doc[p]);
    HexDigitTable(doc[p + 1]);
    HexDigitTable(doc[p + 2]);
    HexDigitTable(doc[p + 3]);
    hide IsHexDigit, HexValue, HexDigits;
    FourHexDigits(doc, p, n / 0x1000, n / 0x100 % 0x10, n / 0x10 % 0x10, n % 0x10);
    FourPlaces(n);
  }

  lemma FourPlaces(n: nat)
    ensures n == n / 0x1000 * 0x1000 + n / 0x100 % 0x10 * 0x100 + n / 0x10 % 0x10 * 0x10 + n % 0x10
  {
    var a, b := n / 0x10, n / 0x100;
    assert b == a / 0x10 && n / 0x1000 == b / 0x10;
    assert n == a * 0x10 + n % 0x10 && a == b * 0x10 + a % 0x10 && b == b / 0x10 * 0x10 + b % 0x10;
  }

  lemma FourHexDigits(doc: string, p: nat, a: nat, b: nat, c: nat, d: nat)
    requires p + 4 <= |doc| && HexValue(doc[p]) == a && HexValue(doc[p + 1]) == b
    requires HexValue(doc[p + 2]) == c && HexValue(doc[p + 3]) == d
    ensures HexDigits(doc, p, 4, 0) == CodePoint(a * 0x1000 + b * 0x100 + c * 0x10 + d, p + 4)
  {
    hide HexValue;
    assert HexDigits(doc, p, 4, 0) == HexDigits(doc, p + 1, 3, a);
    assert HexDigits(doc, p + 1, 3, a) == HexDigits(doc, p + 2, 2, a * 16 + b);
    assert HexDigits(doc, p + 2, 2, a * 16 + b) == HexDigits(doc, p + 3, 1, (a * 16 + b) * 16 + c);
  }

  lemma SurrogatePair(cp: nat)
    requires 0x10000 <= cp <= 0x10FFFF
    ensures 0xD800 <= High(cp) <= 0xDBFF
    ensures 0x10000 + High(cp) % 0x400 * 0x400 + Low(cp) % 0x400 == cp
  {
    var k := cp - 0x10000;
    assert High(cp) % 0x400 == k / 0x400;
    assert Low(cp) % 0x400 == k % 0x400;
  }

  lemma DecodeEscape(doc: string, p: nat, cp: nat, end: nat)
    requires IsScalar(cp) && p + EscapeLength(cp) <= end <= |doc|
    requires if cp <= 0xFFFF then EscapeAt(doc, p, cp)
             else EscapeAt(doc, p, High(cp)) && EscapeAt(doc, p + 6, Low(cp))
    ensures DecodeCodePoint(doc, p + 2, end) == CodePoint(cp, p + EscapeLength(cp))
  {
    hide HexDigits;
    if cp <= 0xFFFF {
      HexDigitsAt(doc, p + 2, cp);
    } else {
      HexDigitsAt(doc, p + 2, High(cp));
      HexDigitsAt(doc, p + 8, Low(cp));
      SurrogatePair(cp);
    }
  }

  lemma EscapeDecodes(doc: string, p: nat, next: nat, end: nat, cp: nat)
    requires p + 6 <= end <= |doc| && doc[p] == '\\' && doc[p + 1] == 'u'
    requires DecodeCodePoint(doc, p + 2, end) == CodePoint(cp, next)
    ensures next <= end && DecodeText(doc, p, end) == DecodeText(doc, next, end).After(CodePointToUtf8(cp))
  {
    hide DecodeCodePoint, CodePointToUtf8;
  }

  /** decodeString turns an escaped text into its UTF-8 form. */
  lemma {:induction false} DecodeEscaped(doc: string, p: nat, cps: seq<nat>, end: nat)
    requires forall i :: 0 <= i < |cps| ==> IsScalar(cps[i])
    requires EscapedAt(doc, p, cps, end)
    ensures p <= end <= |doc| && DecodeText(doc, p, end) == Text(Utf8(cps))
    decreases |cps|
  {
    hide DecodeCodePoint, CodePointToUtf8, HexAt;
    if cps != [] {
      var q := p + EscapeLength(cps[0]);
      DecodeEscaped(doc, q, cps[1..], end);
      DecodeEscape(doc, p, cps[0], end);
      EscapeDecodes(doc, p, q, end, cps[0]);
      hide DecodeText;
    }
  }

  /** Hence two texts whose escaped forms decode alike are the same text. */
  lemma EscapesUnambiguous(doc: string, p: nat, x: seq<nat>, end: nat, doc': string, p': nat, y: seq<nat>, end': nat)
    requires forall i :: 0 <= i < |x| ==> IsScalar(x[i])
    requires forall i :: 0 <= i < |y| ==> IsScalar(y[i])
    requires EscapedAt(doc, p, x, end) && EscapedAt(doc', p', y, end')
    ensures p <= end <= |doc| && p' <= end' <= |doc'|
    ensures DecodeText(doc, p, end) == DecodeText(doc', p', end') <==> x == y
  {
    hide DecodeText, EscapedAt, Utf8;
    DecodeEscaped(doc, p, x, end);
    DecodeEscaped(doc', p', y, end');
    if Utf8(x) == Utf8(y) { Utf8Injective(x, y); }
  }
}
