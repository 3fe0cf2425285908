/** The text of JSON scalars: decimal integers, string escapes and UTF-8. A Dafny `char` stands for
    a C++ `char`; an index past the end of a document reads the terminating NUL. */
module JsonText {
  import opened Decimals
  import opened JsonValue

  // ---------- C strings ----------

  predicate NulFree(s: string) { '\0' !in s }

  /** What a `char*` reader sees of s: the characters before the first NUL. */
  function CString(s: string): (r: string)
    ensures NulFree(r) && r <= s && (|r| < |s| ==> s[|r|] == '\0')
    ensures NulFree(s) ==> r == s
  {
    if s == [] || s[0] == '\0' then []
    else assert s == [s[0]] + s[1..]; [s[0]] + CString(s[1..])
  }

  // ---------- decimal integers ----------

  function IntText(i: int): (s: string)
    ensures s != []
  {
    if i < 0 then "-" + Decimal(-i) else Decimal(i)
  }

  /** Verdict of the digit loop of decodeNumber. */
  datatype Digits = Exact(n: nat) | TooLarge | NotDigit

  /** decodeNumber's loop over the digits: stops before value * 10 + digit can exceed max. */
  function Accumulate(s: string, max: nat, value: nat): Digits {
    if s == [] then Exact(value)
    else if !IsDigit(s[0]) then NotDigit
    else
      var digit := DigitValue(s[0]);
      if value >= max / 10 && (value > max / 10 || |s| != 1 || digit > max % 10) then TooLarge
      else Accumulate(s[1..], max, value * 10 + digit)
  }

  datatype Number = Decoded(d: Data) | NotANumber

  /** Does decodeNumber hand the token to decodeDouble at once? */
  predicate LooksReal(t: string) {
    exists i :: 0 <= i < |t| && (t[i] in ".eE+" || (t[i] == '-' && i != 0))
  }

  function DecodeReal(scan: string -> bool, t: string): Number {
    if scan(t) then Decoded(Real(t)) else NotANumber
  }

  function IntegerLimit(negative: bool): nat {
    if negative then MIN_LARGEST_INT_MAGNITUDE else MAX_LARGEST_UINT
  }

  /** decodeNumber: `scan` tells which texts sscanf accepts as a double. */
  function DecodeNumber(scan: string -> bool, t: string): (r: Number)
    requires t != []
    ensures r.Decoded? ==> r.d.Int? || r.d.UInt? || r.d.Real?
  {
    if LooksReal(t) then DecodeReal(scan, t)
    else
      var negative := t[0] == '-';
      match Accumulate(if negative then t[1..] else t, IntegerLimit(negative), 0)
      case NotDigit => NotANumber
      case TooLarge => DecodeReal(scan, t)
      case Exact(n) =>
        Decoded(if negative then Int(0 - n) else if n <= MAX_INT then Int(n) else UInt(n))
  }

  /** Dropping the first and the last character in either order. */
  lemma EndsDropped(s: string)
    requires |s| > 1
    ensures s[..|s| - 1][1..] == s[1..][..|s| - 2] && s[1..][|s| - 2] == s[|s| - 1] && s[..|s| - 1][0] == s[0]
  {
  }

  lemma OneDigit(s: string)
    requires |s| == 1 && AllDigits(s)
    ensures AllDigits(s[1..]) && NatOf(s) == DigitValue(s[0]) * Pow10(0) + NatOf(s[1..])
  {
    assert s[..0] == [] && s[1..] == [];
  }

  lemma {:induction false} NatOfCons(s: string)
    requires s != [] && AllDigits(s)
    ensures AllDigits(s[1..]) && NatOf(s) == DigitValue(s[0]) * Pow10(|s| - 1) + NatOf(s[1..])
  {
    hide NatOf, DigitValue, Pow10;
    if |s| == 1 {
      OneDigit(s);
    } else {
      var t, d := s[..|s| - 1], DigitValue(s[0]);
      NatOfAppend(s);
      EndsDropped(s);
      NatOfAppend(s[1..]);
      NatOfCons(t);
      TenfoldStep(|s| - 2);
      ShiftDigits(d, Pow10(|s| - 2), NatOf(t[1..]), DigitValue(s[|s| - 1]));
    }
  }

  lemma TenfoldStep(n: nat)
    ensures Pow10(n + 1) == 10 * Pow10(n)
  {
  }

  lemma ShiftDigits(d: int, p: int, rest: int, last: int)
    ensures (d * p + rest) * 10 + last == d * (10 * p) + (rest * 10 + last)
  {
  }

  lemma Horner(value: int, digit: int, p: int)
    ensures (value * 10 + digit) * p == value * (10 * p) + digit * p
  {
  }

  function Pow10(n: nat): (p: nat)
    ensures p >= 1
  {
    if n == 0 then 1 else 10 * Pow10(n - 1)
  }

  /** The loop is exact: it succeeds iff the denoted number is at most max, and then returns it.
      In particular no intermediate product overflows a 64-bit integer. */
  lemma {:induction false} AccumulateExact(s: string, max: nat, value: nat)
    requires AllDigits(s) && max >= 10
    requires value <= max
    ensures Accumulate(s, max, value) ==
            if value * Pow10(|s|) + NatOf(s) <= max then Exact(value * Pow10(|s|) + NatOf(s)) else TooLarge
  {
    if s != [] {
      NatOfCons(s);
      var digit := DigitValue(s[0]);
      var p := Pow10(|s| - 1);
      var v := value * 10 + digit;
      Horner(value, digit, p);
      assert value * Pow10(|s|) + NatOf(s) == v * p + NatOf(s[1..]);
      hide NatOf, Pow10, DigitValue;
      QuotientBound(max, value, digit);
      if value >= max / 10 && (value > max / 10 || |s| != 1 || digit > max % 10) {
        TooLargeStays(v, p, max, value, |s|);
      } else {
        AccumulateExact(s[1..], max, v);
      }
    }
  }

  /** The overflow test of the loop, as a comparison of the next value with the limit. */
  lemma QuotientBound(max: nat, value: nat, digit: nat)
    requires digit < 10
    ensures value < max / 10 ==> value * 10 + digit <= max
    ensures value == max / 10 ==> (digit > max % 10 <==> value * 10 + digit > max)
  {
    assert max == max / 10 * 10 + max % 10;
  }

  lemma TooLargeStays(v: nat, p: nat, max: nat, value: nat, len: nat)
    requires max >= 10 && len >= 1 && p == Pow10(len - 1) && v >= value * 10
    requires value > max / 10 || (value == max / 10 && (len != 1 || v > max))
    ensures v * p > max
  {
    if len == 1 {
    } else {
      assert p == 10 * Pow10(len - 2) && p >= 10;
      assert v * p >= v * 10;
      assert v >= (max / 10) * 10;
      assert v >= 10;
    }
  }

  /** Exact integer decoding: an optional '-' and at least one digit take the integer path iff the
      magnitude fits, and then decode to exactly that integer. */
  lemma DecodeNumberExact(scan: string -> bool, negative: bool, digits: string)
    requires (negative || digits != []) && AllDigits(digits)
    ensures var n := NatOf(digits);
      var t := if negative then "-" + digits else digits;
      DecodeNumber(scan, t) ==
        if n > IntegerLimit(negative) then DecodeReal(scan, t)
        else Decoded(if negative then Int(0 - n) else if n <= MAX_INT then Int(n) else UInt(n))
  {
    var t := if negative then "-" + digits else digits;
    hide LooksReal, Accumulate, Pow10, NatOf;
    DigitsNotReal(negative, digits);
    if negative { assert t[1..] == digits; } else { assert IsDigit(t[0]); }
    AccumulateExact(digits, IntegerLimit(negative), 0);
  }

  /** What a number token is read as, for every token the scanner can produce: an optional minus sign and digits
      only, with a magnitude of at most 2^63 or below 2^64, is that integer, and anything else is left to scan. */
  lemma NumberTokenExactly(scan: string -> bool, t: string)
    requires t != "" && forall i | 0 <= i < |t| :: t[i] in "0123456789.eE+-"
    ensures var negative := t[0] == '-';
      var digits := if negative then t[1..] else t;
      var scanned := if scan(t) then Decoded(Real(t)) else NotANumber;
      DecodeNumber(scan, t) ==
        if !AllDigits(digits) then scanned
        else if NatOf(digits) > (if negative then 9223372036854775808 else 18446744073709551615) then scanned
        else if negative then Decoded(Int(0 - NatOf(digits)))
        else Decoded(if NatOf(digits) <= 2147483647 then Int(NatOf(digits)) else UInt(NatOf(digits)))
  {
    hide NatOf, Accumulate, LooksReal, DecodeNumber;
    var negative := t[0] == '-';
    var digits := if negative then t[1..] else t;
    if AllDigits(digits) {
      assert t == if negative then "-" + digits else digits;
      DecodeNumberExact(scan, negative, digits);
    } else {
      OtherLooksReal(t);
      RealIsScanned(scan, t);
    }
  }

  lemma RealIsScanned(scan: string -> bool, t: string)
    requires t != "" && LooksReal(t)
    ensures DecodeNumber(scan, t) == if scan(t) then Decoded(Real(t)) else NotANumber
  {
    hide LooksReal, Accumulate;
  }

  /** Number characters that are not a minus sign and digits hold a point, an exponent or another sign. */
  lemma OtherLooksReal(t: string)
    requires t != "" && forall i | 0 <= i < |t| :: t[i] in "0123456789.eE+-"
    requires !AllDigits(if t[0] == '-' then t[1..] else t)
    ensures LooksReal(t)
  {
    var digits := if t[0] == '-' then t[1..] else t;
    var i: nat :| i < |digits| && !IsDigit(digits[i]);
    var k := if t[0] == '-' then i + 1 else i;
    assert t[k] == digits[i];
    DigitTable(t[k]);
    NotADigit(t[k]);
    assert t[k] == '-' ==> k != 0;
    MinusOrReal(t[k]);
  }

  lemma MinusOrReal(c: char)
    requires c in ".eE+-"
    ensures c in ".eE+" || c == '-'
  {
  }

  lemma NotADigit(c: char)
    requires c in "0123456789.eE+-" && c !in "0123456789"
    ensures c in ".eE+-"
  {
    assert "0123456789.eE+-" == "0123456789" + ".eE+-";
  }

  lemma DigitsNotReal(negative: bool, digits: string)
    requires AllDigits(digits)
    ensures !LooksReal(if negative then "-" + digits else digits)
  {
    var t := if negative then "-" + digits else digits;
    forall i | 0 <= i < |t| ensures !(t[i] in ".eE+" || (t[i] == '-' && i != 0)) {
      if negative && i > 0 { assert t[i] == digits[i - 1]; }
    }
  }

  // ---------- string escapes ----------

  /** ch > 0 && ch <= 0x1F */
  predicate IsControl(c: char) { '\0' < c <= '\U{1f}' }

  function HexChar(d: nat): char
    requires d < 16
  {
    if d < 10 then DigitChar(d) else (('A' as int) + d - 10) as char
  }

  /** std::hex, uppercase, setw(4), setfill('0') */
  function Hex4(n: nat): string
    requires n < 0x10000
  {
    [HexChar(n / 4096), HexChar(n / 256 % 16), HexChar(n / 16 % 16), HexChar(n % 16)]
  }

  predicate HasShortEscape(c: char) { c in "\"\\\U{8}\U{c}\n\r\t" }

  function EscapeChar(c: char): (r: string)
    ensures r != []
  {
    match c
    case '\"' => "\\\""
    case '\\' => "\\\\"
    case '\U{8}' => "\\b"
    case '\U{c}' => "\\f"
    case '\n' => "\\n"
    case '\r' => "\\r"
    case '\t' => "\\t"
    case _ => if IsControl(c) then "\\u" + Hex4(c as int) else [c]
  }

  function Escape(s: string): string {
    if s == [] then [] else EscapeChar(s[0]) + Escape(s[1..])
  }

  /** valueToQuotedString */
  function Quote(s: string): string { "\"" + Escape(s) + "\"" }

  /** What a character is printed as: one of seven by a letter, any other control character by its four upper-case
      hexadecimal digits, and everything else as itself. */
  lemma EscapeTable(c: char)
    requires c != '\0'
    ensures var k := "\"\\\U{8}\U{c}\n\r\t"; var letters := "\"\\bfnrt";
      && (forall i | 0 <= i < 7 && k[i] == c :: EscapeChar(c) == ['\\', letters[i]])
      && (c !in k && c as int < 0x20 ==>
            EscapeChar(c) == "\\u00" + ["01"[c as int / 16], "0123456789ABCDEF"[c as int % 16]])
      && (c !in k && c as int >= 0x20 ==> EscapeChar(c) == [c])
  {
    var k := "\"\\\U{8}\U{c}\n\r\t";
    assert k == ['\"', '\\', '\U{8}', '\U{c}', '\n', '\r', '\t'];
    if c !in k && c as int < 0x20 {
      HexCharTable(c as int / 16);
      HexCharTable(c as int % 16);
      HexCharTable(0);
      assert c as int / 256 == 0 && c as int / 4096 == 0;
    }
  }

  lemma HexCharTable(d: nat)
    requires d < 16
    ensures HexChar(d) == "0123456789ABCDEF"[d]
    ensures d < 2 ==> HexChar(d) == "01"[d]
  {
    assert "0123456789ABCDEF"[d] == if d < 10 then ('0' as int + d) as char else ('A' as int + d - 10) as char;
  }

  lemma {:induction false} EscapeOfPlain(s: string)
    requires forall i :: 0 <= i < |s| ==> !HasShortEscape(s[i]) && !IsControl(s[i])
    ensures Escape(s) == s
  {
    if s != [] {
      assert EscapeChar(s[0]) == [s[0]] by { assert !HasShortEscape(s[0]); }
      EscapeOfPlain(s[1..]);
    }
  }

  lemma {:induction false} EscapeAppends(s: string, c: char)
    ensures Escape(s + [c]) == Escape(s) + EscapeChar(c)
  {
    if s == [] {
      assert Escape([c]) == EscapeChar(c) + Escape([]);
    } else {
      assert (s + [c])[1..] == s[1..] + [c];
      EscapeAppends(s[1..], c);
    }
  }

  // ---------- UTF-8 ----------

  /** codePointToUTF8 */
  function CodePointToUtf8(cp: nat): string {
    if cp <= 0x7f then [cp as char]
    else if cp <= 0x7FF then
      [(0xC0 + cp / 64 % 32) as char, (0x80 + cp % 64) as char]
    else if cp <= 0xFFFF then
      [(0xE0 + cp / 4096 % 16) as char, (0x80 + cp / 64 % 64) as char, (0x80 + cp % 64) as char]
    else if cp <= 0x10FFFF then
      [(0xF0 + cp / 262144 % 8) as char, (0x80 + cp / 4096 % 64) as char,
       (0x80 + cp / 64 % 64) as char, (0x80 + cp % 64) as char]
    else []
  }

  // ---------- decoding ----------

  function HexValue(c: char): (h: int)
    ensures -1 <= h < 16
  {
    if '0' <= c <= '9' then (c as int) - ('0' as int)
    else if 'a' <= c <= 'f' then (c as int) - ('a' as int) + 10
    else if 'A' <= c <= 'F' then (c as int) - ('A' as int) + 10
    else -1
  }

  /** c is the hexadecimal digit of value d, in either case. */
  predicate IsHexDigit(c: char, d: nat) {
    d < 16 && (c == "0123456789abcdef"[d] || c == "0123456789ABCDEF"[d])
  }

  /** The hexadecimal digits, in either case, have their values; everything else is refused. */
  lemma HexDigitTable(c: char)
    ensures forall d: nat :: IsHexDigit(c, d) <==> HexValue(c) == d
    ensures HexValue(c) < 0 <==> c !in "0123456789abcdef" && c !in "0123456789ABCDEF"
  {
    forall d: nat ensures IsHexDigit(c, d) <==> HexValue(c) == d {
      if d < 16 { HexDigitOf(c, d); }
    }
    if HexValue(c) >= 0 {
      HexDigitOf(c, HexValue(c));
    } else {
      forall d: nat | d < 16 ensures c != "0123456789abcdef"[d] && c != "0123456789ABCDEF"[d] { HexDigitOf(c, d); }
    }
  }

  lemma HexDigitOf(c: char, d: nat)
    requires d < 16
    ensures (c == "0123456789abcdef"[d] || c == "0123456789ABCDEF"[d]) <==> HexValue(c) == d
  {
    assert "0123456789abcdef"[d] == if d < 10 then ('0' as int + d) as char else ('a' as int + d - 10) as char;
    assert "0123456789ABCDEF"[d] == if d < 10 then ('0' as int + d) as char else ('A' as int + d - 10) as char;
  }

  datatype CodePoint = CodePoint(cp: nat, next: nat) | BadCodePoint(message: string)

  const FOUR_DIGITS_EXPECTED := "Bad unicode escape sequence in string: four digits expected."
  const HEX_DIGIT_EXPECTED := "Bad unicode escape sequence in string: hexadecimal digit expected."
  const SIX_CHARACTERS_EXPECTED := "additional six characters expected to parse unicode surrogate pair."
  const SECOND_ESCAPE_EXPECTED :=
    "expecting another \\u token to begin the second half of a unicode surrogate pair"
  const EMPTY_ESCAPE := "Empty escape sequence in string"
  const BAD_ESCAPE := "Bad escape sequence in string"

  /** n further hexadecimal digits from cur, after those that gave `value`. */
  function HexDigits(doc: string, cur: nat, n: nat, value: nat): (r: CodePoint)
    requires cur + n <= |doc|
    ensures r.CodePoint? ==> r.next == cur + n
    decreases n
  {
    if n == 0 then CodePoint(value, cur)
    else if HexValue(doc[cur]) < 0 then BadCodePoint(HEX_DIGIT_EXPECTED)
    else HexDigits(doc, cur + 1, n - 1, value * 16 + HexValue(doc[cur]))
  }

  /** decodeUnicodeEscapeSequence */
  function DecodeUnicodeEscape(doc: string, cur: nat, end: nat): (r: CodePoint)
    requires cur <= end <= |doc|
    ensures r.CodePoint? ==> r.next == cur + 4 <= end
  {
    if end - cur < 4 then BadCodePoint(FOUR_DIGITS_EXPECTED) else HexDigits(doc, cur, 4, 0)
  }

  /** decodeUnicodeCodePoint: the second half of a surrogate pair is taken as it comes. */
  function DecodeCodePoint(doc: string, cur: nat, end: nat): (r: CodePoint)
    requires cur <= end <= |doc|
    ensures r.CodePoint? ==> cur < r.next <= end
  {
    match DecodeUnicodeEscape(doc, cur, end)
    case BadCodePoint(m) => BadCodePoint(m)
    case CodePoint(cp, next) =>
      if !(0xD800 <= cp <= 0xDBFF) then CodePoint(cp, next)
      else if end - next < 6 then BadCodePoint(SIX_CHARACTERS_EXPECTED)
      else if doc[next] != '\\' || doc[next + 1] != 'u' then BadCodePoint(SECOND_ESCAPE_EXPECTED)
      else
        match DecodeUnicodeEscape(doc, next + 2, end)
        case BadCodePoint(m) => BadCodePoint(m)
        case CodePoint(low, next') => CodePoint(0x10000 + cp % 0x400 * 0x400 + low % 0x400, next')
  }

  datatype Text = Text(text: string) | BadText(message: string) {
    function After(prefix: string): Text {
      match this
      case Text(t) => Text(prefix + t)
      case BadText(m) => BadText(m)
    }
  }

  /** The single character a two-character escape stands for. */
  function ShortEscape(c: char): string {
    match c
    case '\"' => "\""
    case '/' => "/"
    case '\\' => "\\"
    case 'b' => "\U{8}"
    case 'f' => "\U{c}"
    case 'n' => "\n"
    case 'r' => "\r"
    case 't' => "\t"
    case _ => []
  }

  /** decodeString's loop from cur to the closing quote at end. */
  function DecodeText(doc: string, cur: nat, end: nat): Text
    requires cur <= end <= |doc|
    decreases end - cur
  {
    if cur == end || doc[cur] == '\"' then Text([])
    else if doc[cur] != '\\' then DecodeText(doc, cur + 1, end).After([doc[cur]])
    else if cur + 1 == end then BadText(EMPTY_ESCAPE)
    else if doc[cur + 1] == 'u' then
      match DecodeCodePoint(doc, cur + 2, end)
      case BadCodePoint(m) => BadText(m)
      case CodePoint(cp, next) => DecodeText(doc, next, end).After(CodePointToUtf8(cp))
    else if ShortEscape(doc[cur + 1]) == [] then BadText(BAD_ESCAPE)
    else DecodeText(doc, cur + 2, end).After(ShortEscape(doc[cur + 1]))
  }
}
