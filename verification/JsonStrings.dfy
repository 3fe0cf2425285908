/** What Json::Reader makes of the text between two quotes: a grammar of its pieces with their meanings, and that it
    decodes exactly what the grammar says. */
module JsonStrings {
  import opened JsonText
  import opened JsonUnicode

  /** The letters behind a backslash and the characters they stand for (section 7 of RFC 8259). */
  const LETTERS := "\"\\/bfnrt"
  const CHARACTERS := "\"\\/\U{8}\U{c}\n\r\t"

  /** A character for itself, a letter behind a backslash, one UTF-16 code unit, or a high surrogate and another
      unit. */
  datatype Piece =
    | Plain(c: char)
    | Short(k: nat)
    | Unit(digits: string, n: nat)
    | Pair(first: string, hi: nat, second: string, lo: nat)

  predicate Spells(digits: string, n: nat) { |digits| == 4 && HexAt(digits, 0, n) }

  predicate IsHigh(n: nat) { 0xD800 <= n <= 0xDBFF }

  predicate PieceOk(p: Piece) {
    match p
    case Plain(c) => c != '\"' && c != '\\'
    case Short(k) => k < 8
    case Unit(digits, n) => Spells(digits, n) && !IsHigh(n)
    case Pair(first, hi, second, lo) => Spells(first, hi) && IsHigh(hi) && Spells(second, lo)
  }

  function Spelling(p: Piece): (s: string)
    requires PieceOk(p)
    ensures s != []
  {
    match p
    case Plain(c) => [c]
    case Short(k) => ['\\', LETTERS[k]]
    case Unit(digits, _) => ['\\', 'u'] + digits
    case Pair(first, _, second, _) => ['\\', 'u'] + first + ['\\', 'u'] + second
  }

  /** The bytes a piece stands for; of the unit behind a high surrogate only the last ten bits count. */
  function Meaning(p: Piece): string
    requires PieceOk(p)
  {
    match p
    case Plain(c) => [c]
    case Short(k) => [CHARACTERS[k]]
    case Unit(_, n) => CodePointToUtf8(n)
    case Pair(_, hi, _, lo) => CodePointToUtf8(0x10000 + (hi - 0xD800) * 0x400 + lo % 0x400)
  }

  ghost predicate PiecesOk(ps: seq<Piece>) { forall i :: 0 <= i < |ps| ==> PieceOk(ps[i]) }

  ghost function Spelled(ps: seq<Piece>): string
    requires PiecesOk(ps)
  {
    if ps == [] then [] else Spelling(ps[0]) + Spelled(ps[1..])
  }

  ghost function Meant(ps: seq<Piece>): string
    requires PiecesOk(ps)
  {
    if ps == [] then [] else Meaning(ps[0]) + Meant(ps[1..])
  }

  ghost predicate At(doc: string, p: nat, s: string) { p + |s| <= |doc| && doc[p..p + |s|] == s }

  // ---------- one piece ----------

  /** A letter behind a backslash is read as its character; behind any other the escape is refused. */
  lemma ShortEscapeTable(c: char)
    ensures forall k | 0 <= k < 8 :: ShortEscape(LETTERS[k]) == [CHARACTERS[k]]
    ensures ShortEscape(c) == [] <==> c !in LETTERS
  {
    assert c !in LETTERS || c in ['\"', '\\', '/', 'b', 'f', 'n', 'r', 't'];
    assert LETTERS == ['\"', '\\', '/', 'b', 'f', 'n', 'r', 't'];
  }

  lemma HexSlice(doc: string, p: nat, digits: string, n: nat)
    requires |digits| == 4 && At(doc, p, digits)
    ensures HexAt(doc, p, n) <==> HexAt(digits, 0, n)
  {
    hide IsHexDigit;
    assert forall i | 0 <= i < 4 :: doc[p + i] == doc[p..p + 4][i] == digits[i];
  }

  /** Four digits that are read as n spell n. */
  lemma HexRead(doc: string, p: nat, n: nat)
    requires p + 4 <= |doc| && HexDigits(doc, p, 4, 0) == CodePoint(n, p + 4)
    ensures HexAt(doc, p, n)
  {
    var a, b, c, d := HexValue(doc[p]), HexValue(doc[p + 1]), HexValue(doc[p + 2]), HexValue(doc[p + 3]);
    HexDigitTable(doc[p]);
    HexDigitTable(doc[p + 1]);
    HexDigitTable(doc[p + 2]);
    HexDigitTable(doc[p + 3]);
    hide IsHexDigit, HexValue;
    assert a >= 0 && HexDigits(doc, p, 4, 0) == HexDigits(doc, p + 1, 3, a);
    assert b >= 0 && HexDigits(doc, p + 1, 3, a) == HexDigits(doc, p + 2, 2, a * 16 + b);
    assert c >= 0 && HexDigits(doc, p + 2, 2, a * 16 + b) == HexDigits(doc, p + 3, 1, (a * 16 + b) * 16 + c);
    assert d >= 0 && n == a * 0x1000 + b * 0x100 + c * 0x10 + d;
    PlacesOf(a, b, c, d);
  }

  lemma PlacesOf(a: nat, b: nat, c: nat, d: nat)
    requires a < 16 && b < 16 && c < 16 && d < 16
    ensures var n := a * 0x1000 + b * 0x100 + c * 0x10 + d;
      n < 0x10000 && n / 0x1000 == a && n / 0x100 % 0x10 == b && n / 0x10 % 0x10 == c && n % 0x10 == d
  {
    var n := a * 0x1000 + b * 0x100 + c * 0x10 + d;
    assert n / 0x10 == a * 0x100 + b * 0x10 + c;
    assert n / 0x100 == a * 0x10 + b;
  }

  lemma UnitRead(doc: string, p: nat, end: nat, n: nat)
    requires p <= end <= |doc|
    ensures DecodeUnicodeEscape(doc, p, end) == CodePoint(n, p + 4) <==> p + 4 <= end && HexAt(doc, p, n)
  {
    hide HexDigits, HexAt;
    if p + 4 <= end {
      if HexAt(doc, p, n) { HexDigitsAt(doc, p, n); }
      if HexDigits(doc, p, 4, 0) == CodePoint(n, p + 4) { HexRead(doc, p, n); }
    }
  }

  lemma EachAt(doc: string, p: nat, s: string)
    requires At(doc, p, s)
    ensures forall i | p <= i < p + |s| :: doc[i] == s[i - p]
  {
    forall i | p <= i < p + |s| ensures doc[i] == s[i - p] {
      assert doc[p..p + |s|][i - p] == s[i - p];
    }
  }

  lemma SliceAt(doc: string, p: nat, s: string, from: nat, n: nat)
    requires At(doc, p, s) && from + n <= |s|
    ensures At(doc, p + from, s[from..from + n])
  {
    var part := doc[p + from..p + from + n];
    forall i | 0 <= i < n ensures part[i] == s[from..from + n][i] {
      assert part[i] == doc[p + from + i] == doc[p..p + |s|][from + i];
    }
  }

  lemma UnitAt(doc: string, cur: nat, end: nat, before: string, digits: string, after: string, n: nat)
    requires At(doc, cur, before + (['\\', 'u'] + digits) + after) && cur + |before| + 6 <= end <= |doc|
    requires Spells(digits, n)
    ensures var p := cur + |before|;
      && doc[p] == '\\' && doc[p + 1] == 'u'
      && DecodeUnicodeEscape(doc, p + 2, end) == CodePoint(n, p + 6)
  {
    hide HexAt, DecodeUnicodeEscape;
    var p, all := cur + |before|, before + (['\\', 'u'] + digits) + after;
    SliceAt(doc, cur, all, |before|, 6);
    assert all[|before|..|before| + 6] == ['\\', 'u'] + digits;
    EachAt(doc, p, ['\\', 'u'] + digits);
    assert doc[p + 2..p + 6] == digits;
    HexSlice(doc, p + 2, digits, n);
    UnitRead(doc, p + 2, end, n);
  }

  lemma PlainDecodes(doc: string, cur: nat, end: nat, c: char)
    requires c != '\"' && c != '\\' && cur < end <= |doc| && doc[cur] == c
    ensures DecodeText(doc, cur, end) == DecodeText(doc, cur + 1, end).After([c])
  {
    hide DecodeCodePoint, CodePointToUtf8, ShortEscape;
  }

  lemma ShortDecodes(doc: string, cur: nat, end: nat, c: char, meaning: string)
    requires cur + 2 <= end <= |doc| && doc[cur] == '\\' && doc[cur + 1] == c != 'u'
    requires ShortEscape(c) == meaning != []
    ensures DecodeText(doc, cur, end) == DecodeText(doc, cur + 2, end).After(meaning)
  {
    hide DecodeCodePoint, CodePointToUtf8, ShortEscape;
  }

  /** A piece at the front of the text gives its meaning. */
  lemma PieceDecodes(doc: string, cur: nat, end: nat, p: Piece)
    requires PieceOk(p) && cur + |Spelling(p)| <= end <= |doc| && At(doc, cur, Spelling(p))
    ensures DecodeText(doc, cur, end) == DecodeText(doc, cur + |Spelling(p)|, end).After(Meaning(p))
  {
    hide HexAt, DecodeUnicodeEscape, CodePointToUtf8, At, DecodeText, ShortEscape;
    match p
    case Plain(c) =>
      EachAt(doc, cur, [c]);
      PlainDecodes(doc, cur, end, c);
    case Short(k) =>
      EachAt(doc, cur, ['\\', LETTERS[k]]);
      ShortEscapeTable(LETTERS[k]);
      NoShortU();
      ShortDecodes(doc, cur, end, LETTERS[k], [CHARACTERS[k]]);
    case Unit(digits, n) =>
      assert [] + (['\\', 'u'] + digits) + [] == Spelling(p);
      UnitAt(doc, cur, end, [], digits, [], n);
      EscapeDecodes(doc, cur, cur + 6, end, n);
    case Pair(first, hi, second, lo) =>
      PairDecodes(doc, cur, end, p);
  }

  lemma NoShortU()
    ensures ShortEscape('u') == []
  {
  }

  lemma PairDecodes(doc: string, cur: nat, end: nat, p: Piece)
    requires p.Pair? && PieceOk(p) && cur + |Spelling(p)| <= end <= |doc| && At(doc, cur, Spelling(p))
    ensures DecodeText(doc, cur, end) == DecodeText(doc, cur + |Spelling(p)|, end).After(Meaning(p))
  {
    hide HexAt, DecodeUnicodeEscape, CodePointToUtf8, At, DecodeText;
    var first, second := ['\\', 'u'] + p.first, ['\\', 'u'] + p.second;
    assert [] + first + second == Spelling(p) == first + second + [];
    UnitAt(doc, cur, end, [], p.first, second, p.hi);
    UnitAt(doc, cur, end, first, p.second, [], p.lo);
    TenBits(p.hi);
    EscapeDecodes(doc, cur, cur + 12, end, 0x10000 + (p.hi - 0xD800) * 0x400 + p.lo % 0x400);
  }

  lemma TenBits(n: nat)
    requires IsHigh(n)
    ensures n % 0x400 == n - 0xD800
  {
  }

  /** What decodes starts with a piece. */
  lemma PieceFound(doc: string, cur: nat, end: nat) returns (p: Piece)
    requires cur < end <= |doc| && doc[cur] != '\"' && DecodeText(doc, cur, end).Text?
    ensures PieceOk(p) && cur + |Spelling(p)| <= end && At(doc, cur, Spelling(p))
  {
    hide HexAt, DecodeUnicodeEscape, CodePointToUtf8;
    if doc[cur] != '\\' {
      p := Plain(doc[cur]);
    } else if doc[cur + 1] == 'u' {
      p := UnitFound(doc, cur, end);
    } else {
      ShortEscapeTable(doc[cur + 1]);
      var k: nat :| k < 8 && LETTERS[k] == doc[cur + 1];
      p := Short(k);
    }
  }

  lemma UnitFound(doc: string, cur: nat, end: nat) returns (p: Piece)
    requires cur + 2 <= end <= |doc| && doc[cur] == '\\' && doc[cur + 1] == 'u'
    requires DecodeCodePoint(doc, cur + 2, end).CodePoint?
    ensures PieceOk(p) && cur + |Spelling(p)| <= end && At(doc, cur, Spelling(p))
  {
    hide HexAt, DecodeUnicodeEscape;
    var first, n := UnitDigits(doc, cur, end);
    if IsHigh(n) {
      var second, lo := UnitDigits(doc, cur + 6, end);
      p := Pair(first, n, second, lo);
      assert doc[cur..cur + 12] == doc[cur..cur + 6] + doc[cur + 6..cur + 12];
      assert Spelling(p) == (['\\', 'u'] + first) + (['\\', 'u'] + second);
    } else {
      p := Unit(first, n);
    }
  }

  lemma UnitDigits(doc: string, cur: nat, end: nat) returns (digits: string, n: nat)
    requires cur + 2 <= end <= |doc| && doc[cur] == '\\' && doc[cur + 1] == 'u'
    requires DecodeUnicodeEscape(doc, cur + 2, end).CodePoint?
    ensures cur + 6 <= end && DecodeUnicodeEscape(doc, cur + 2, end) == CodePoint(n, cur + 6)
    ensures Spells(digits, n) && doc[cur..cur + 6] == ['\\', 'u'] + digits
  {
    hide HexAt, DecodeUnicodeEscape;
    n := DecodeUnicodeEscape(doc, cur + 2, end).cp;
    digits := doc[cur + 2..cur + 6];
    UnitRead(doc, cur + 2, end, n);
    HexSlice(doc, cur + 2, digits, n);
  }

  // ---------- the whole text ----------

  lemma SplitAt(doc: string, cur: nat, stop: nat, s: string, rest: string)
    requires cur <= stop <= |doc| && doc[cur..stop] == s + rest
    ensures cur + |s| <= stop && At(doc, cur, s) && doc[cur + |s|..stop] == rest
  {
    assert doc[cur..cur + |s|] == doc[cur..stop][..|s|] == s;
    assert doc[cur + |s|..stop] == doc[cur..stop][|s|..] == rest;
  }

  lemma NothingDecodes(doc: string, cur: nat, end: nat)
    requires cur <= end <= |doc| && (cur == end || doc[cur] == '\"')
    ensures DecodeText(doc, cur, end) == Text([])
  {
  }

  lemma {:induction false} PiecesDecode(doc: string, cur: nat, end: nat, ps: seq<Piece>, stop: nat)
    requires cur <= stop <= end <= |doc| && PiecesOk(ps) && doc[cur..stop] == Spelled(ps)
    requires stop == end || doc[stop] == '\"'
    ensures DecodeText(doc, cur, end) == Text(Meant(ps))
    decreases |ps|
  {
    hide PieceOk, Spelling, Meaning, DecodeText;
    if ps == [] {
      NothingDecodes(doc, cur, end);
    } else {
      var s := Spelling(ps[0]);
      SplitAt(doc, cur, stop, s, Spelled(ps[1..]));
      PieceDecodes(doc, cur, end, ps[0]);
      PiecesDecode(doc, cur + |s|, end, ps[1..], stop);
    }
  }

  lemma JoinAt(doc: string, cur: nat, stop: nat, s: string, rest: string)
    requires cur + |s| <= stop <= |doc| && At(doc, cur, s) && doc[cur + |s|..stop] == rest
    ensures doc[cur..stop] == s + rest
  {
    assert doc[cur..stop] == doc[cur..cur + |s|] + doc[cur + |s|..stop];
  }

  lemma {:induction false} PiecesFound(doc: string, cur: nat, end: nat) returns (ps: seq<Piece>, stop: nat)
    requires cur <= end <= |doc| && DecodeText(doc, cur, end).Text?
    ensures cur <= stop <= end && (stop == end || doc[stop] == '\"')
    ensures PiecesOk(ps) && doc[cur..stop] == Spelled(ps) && DecodeText(doc, cur, end) == Text(Meant(ps))
    decreases end - cur
  {
    hide PieceOk, Spelling, Meaning, DecodeText, At;
    if cur == end || doc[cur] == '\"' {
      ps, stop := [], cur;
      NothingDecodes(doc, cur, end);
    } else {
      var p := PieceFound(doc, cur, end);
      PieceDecodes(doc, cur, end, p);
      var rest;
      rest, stop := PiecesFound(doc, cur + |Spelling(p)|, end);
      ps := [p] + rest;
      assert ps[1..] == rest;
      JoinAt(doc, cur, stop, Spelling(p), Spelled(rest));
    }
  }

  /** A text decodes exactly if it is made of pieces up to its end or the first quote between them, and then to what
      the pieces mean. */
  lemma DecodedExactly(doc: string, cur: nat, end: nat, s: string)
    requires cur <= end <= |doc|
    ensures DecodeText(doc, cur, end) == Text(s) <==>
      exists ps, stop: nat :: cur <= stop <= end && (stop == end || doc[stop] == '\"') &&
        PiecesOk(ps) && doc[cur..stop] == Spelled(ps) && Meant(ps) == s
  {
    hide DecodeText, PiecesOk;
    if DecodeText(doc, cur, end) == Text(s) {
      var ps, stop := PiecesFound(doc, cur, end);
    }
    forall ps, stop: nat | cur <= stop <= end && (stop == end || doc[stop] == '\"') &&
      PiecesOk(ps) && doc[cur..stop] == Spelled(ps) && Meant(ps) == s
      ensures DecodeText(doc, cur, end) == Text(s)
    {
      PiecesDecode(doc, cur, end, ps, stop);
    }
  }
}
