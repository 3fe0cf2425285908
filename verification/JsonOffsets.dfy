/** The offsets a parse records are sound: the document text a value's offsets delimit parses, on its
    own, to that same value. The reason is that reading is local: a successful parse depends on no
    character outside the range it consumed. */
module JsonOffsets {
  import opened JsonValue
  import opened Decimals
  import opened JsonText
  import opened JsonGrammar

  /** part is doc[a..a + |part|]. */
  ghost predicate Window(doc: string, a: nat, part: string) {
    a + |part| <= |doc| && forall i :: 0 <= i < |part| ==> part[i] == doc[a + i]
  }

  function Later(t: Token, a: nat): Token { Token(t.typ, t.start + a, t.limit + a) }

  // ---------- lexing is local ----------

  lemma {:induction false} SkipSpacesLocal(doc: string, a: nat, part: string, p: nat)
    requires Window(doc, a, part) && p <= |part|
    requires SkipSpaces(doc, a + p) <= a + |part|
    ensures SkipSpaces(doc, a + p) == a + SkipSpaces(part, p)
    decreases |part| - p
  {
    if p < |part| && IsSpace(part[p]) { SkipSpacesLocal(doc, a, part, p + 1); }
  }

  lemma {:induction false} ReadNumberLocal(doc: string, a: nat, part: string, p: nat)
    requires Window(doc, a, part) && p <= |part|
    requires ReadNumber(doc, a + p) <= a + |part|
    ensures ReadNumber(doc, a + p) == a + ReadNumber(part, p)
    decreases |part| - p
  {
    if p < |part| && IsNumberChar(part[p]) { ReadNumberLocal(doc, a, part, p + 1); }
  }

  lemma {:induction false} ReadStringLocal(doc: string, a: nat, part: string, p: nat)
    requires Window(doc, a, part) && p <= |part|
    requires ReadString(doc, a + p).pos <= a + |part|
    ensures var r := ReadString(part, p); ReadString(doc, a + p) == Scan(r.ok, a + r.pos)
    decreases |part| - p
  {
    if p < |part| {
      assert part[p] == doc[a + p];
      if part[p] == '\\' {
        if p + 1 < |part| { ReadStringLocal(doc, a, part, p + 2); }
      } else if part[p] != '\"' {
        ReadStringLocal(doc, a, part, p + 1);
      }
    }
  }

  lemma {:induction false} ReadCStyleLocal(doc: string, a: nat, part: string, p: nat)
    requires Window(doc, a, part) && p <= |part|
    requires ReadCStyleComment(doc, a + p).pos <= a + |part|
    ensures var r := ReadCStyleComment(part, p); ReadCStyleComment(doc, a + p) == Scan(r.ok, a + r.pos)
    decreases |part| - p
  {
    if p < |part| {
      assert part[p] == doc[a + p];
      if p + 1 < |part| { assert part[p + 1] == doc[a + (p + 1)]; }
      if !(part[p] == '*' && At(part, p + 1) == '/') { ReadCStyleLocal(doc, a, part, p + 1); }
    }
  }

  lemma {:induction false} ReadCppStyleLocal(doc: string, a: nat, part: string, p: nat)
    requires Window(doc, a, part) && p <= |part|
    requires ReadCppStyleComment(doc, a + p) <= a + |part|
    ensures ReadCppStyleComment(doc, a + p) == a + ReadCppStyleComment(part, p)
    decreases |part| - p
  {
    if p < |part| {
      assert part[p] == doc[a + p];
      if part[p] != '\r' && part[p] != '\n' { ReadCppStyleLocal(doc, a, part, p + 1); }
    }
  }

  lemma ReadCommentLocal(doc: string, a: nat, part: string, p: nat)
    requires Window(doc, a, part) && p <= |part|
    requires ReadComment(doc, a + p).pos <= a + |part|
    ensures var r := ReadComment(part, p); ReadComment(doc, a + p) == Scan(r.ok, a + r.pos)
  {
    if p < |part| {
      assert part[p] == doc[a + p];
      if part[p] == '*' { ReadCStyleLocal(doc, a, part, p + 1); }
      if part[p] == '/' { ReadCppStyleLocal(doc, a, part, p + 1); }
    }
  }

  lemma WindowSlice(doc: string, a: nat, part: string, i: nat, j: nat)
    requires Window(doc, a, part) && i <= j <= |part|
    ensures doc[a + i..a + j] == part[i..j]
  {
  }

  lemma MatchTokenLocal(doc: string, a: nat, part: string, p: nat, pattern: string, typ: TokenType)
    requires Window(doc, a, part) && p < |part|
    requires MatchToken(doc, a + p, pattern, typ).limit <= a + |part|
    ensures MatchToken(doc, a + p, pattern, typ) == Later(MatchToken(part, p, pattern, typ), a)
  {
    if p + 1 + |pattern| <= |part| { WindowSlice(doc, a, part, p + 1, p + 1 + |pattern|); }
  }

  lemma TokenAtLocal(doc: string, a: nat, part: string, p: nat)
    requires Window(doc, a, part) && p < |part|
    requires TokenAt(doc, a + p).limit <= a + |part|
    ensures TokenAt(doc, a + p) == Later(TokenAt(part, p), a)
  {
    hide ReadString, ReadComment, ReadNumber, MatchToken;
    assert part[p] == doc[a + p];
    match part[p]
    case '\"' => ReadStringLocal(doc, a, part, p + 1);
    case '/' => ReadCommentLocal(doc, a, part, p + 1);
    case 't' => MatchTokenLocal(doc, a, part, p, "rue", TrueToken);
    case 'f' => MatchTokenLocal(doc, a, part, p, "alse", FalseToken);
    case 'n' => MatchTokenLocal(doc, a, part, p, "ull", NullToken);
    case c => if IsDigit(c) || c == '-' { ReadNumberLocal(doc, a, part, p + 1); }
  }

  lemma ReadTokenLocal(doc: string, a: nat, part: string, p: nat)
    requires Window(doc, a, part) && p <= |part|
    requires ReadToken(doc, a + p).limit <= a + |part|
    ensures ReadToken(doc, a + p) == Later(ReadToken(part, p), a)
  {
    hide TokenAt, SkipSpaces;
    SkipSpacesLocal(doc, a, part, p);
    var q := SkipSpaces(part, p);
    if q < |part| { TokenAtLocal(doc, a, part, q); }
  }

  lemma {:induction false} NextTokenLocal(doc: string, a: nat, part: string, p: nat)
    requires Window(doc, a, part) && p <= |part|
    requires NextToken(doc, a + p).limit <= a + |part|
    ensures NextToken(doc, a + p) == Later(NextToken(part, p), a)
    decreases |part| - p
  {
    hide ReadToken;
    ReadTokenLocal(doc, a, part, p);
    var t := ReadToken(part, p);
    if t.typ == CommentToken { NextTokenLocal(doc, a, part, t.limit); }
  }

  // ---------- decoding is local ----------

  function LaterCode(r: CodePoint, a: nat): CodePoint { if r.CodePoint? then CodePoint(r.cp, r.next + a) else r }

  lemma {:induction false} HexDigitsLocal(doc: string, a: nat, part: string, p: nat, n: nat, value: nat)
    requires Window(doc, a, part) && p + n <= |part|
    ensures HexDigits(doc, a + p, n, value) == LaterCode(HexDigits(part, p, n, value), a)
    decreases n
  {
    if n > 0 {
      assert part[p] == doc[a + p];
      if HexValue(part[p]) >= 0 { HexDigitsLocal(doc, a, part, p + 1, n - 1, value * 16 + HexValue(part[p])); }
    }
  }

  lemma DecodeCodePointLocal(doc: string, a: nat, part: string, p: nat, end: nat)
    requires Window(doc, a, part) && p <= end <= |part|
    ensures DecodeCodePoint(doc, a + p, a + end) == LaterCode(DecodeCodePoint(part, p, end), a)
  {
    hide HexDigits;
    if end - p >= 4 {
      HexDigitsLocal(doc, a, part, p, 4, 0);
      var r := HexDigits(part, p, 4, 0);
      if r.CodePoint? && end - r.next >= 6 {
        assert part[r.next] == doc[a + r.next] && part[r.next + 1] == doc[a + (r.next + 1)];
        HexDigitsLocal(doc, a, part, r.next + 2, 4, 0);
      }
    }
  }

  lemma {:induction false} DecodeTextLocal(doc: string, a: nat, part: string, p: nat, end: nat)
    requires Window(doc, a, part) && p <= end <= |part|
    ensures DecodeText(doc, a + p, a + end) == DecodeText(part, p, end)
    decreases end - p
  {
    hide DecodeCodePoint, CodePointToUtf8, ShortEscape;
    if p < end && part[p] != '\"' {
      assert part[p] == doc[a + p];
      if part[p] != '\\' {
        DecodeTextLocal(doc, a, part, p + 1, end);
      } else if p + 1 < end {
        assert part[p + 1] == doc[a + (p + 1)];
        if part[p + 1] == 'u' {
          DecodeCodePointLocal(doc, a, part, p + 2, end);
          var r := DecodeCodePoint(part, p + 2, end);
          if r.CodePoint? { DecodeTextLocal(doc, a, part, r.next, end); }
        } else {
          DecodeTextLocal(doc, a, part, p + 2, end);
        }
      }
    }
  }

  // ---------- parsing is local ----------

  function ShiftEntries(es: seq<Entry>, a: nat): seq<Entry> { ReoffsetEntries(es, Add(a)) }

  /** The same success, a characters later. */
  ghost predicate SameParse(r: Parse, r': Parse, a: nat) {
    r.ok && r'.ok && r.pos == a + r'.pos && r.v == Shift(r'.v, a)
  }

  ghost predicate SameContainer(r: Container, r': Container, a: nat) {
    r.ok && r'.ok && r.pos == a + r'.pos && r.entries == ShiftEntries(r'.entries, a)
  }

  /** A successful parse reads the same, whatever surrounds the characters it consumed and whatever
      the current value was before. */
  lemma {:induction false} ParseValueLocal(
    scan: string -> bool, doc: string, a: nat, part: string, p: nat, cur: Value, cur': Value)
    requires Window(doc, a, part) && p <= |part|
    requires var r := ParseValue(scan, doc, a + p, cur); r.ok && r.pos <= a + |part|
    ensures SameParse(ParseValue(scan, doc, a + p, cur), ParseValue(scan, part, p, cur'), a)
    decreases |part| - p, 1
  {
    hide NextToken, ParseMembers, ParseElements, DecodeText, DecodeNumber;
    NextTokenLocal(doc, a, part, p);
    var t := NextToken(part, p);
    match t.typ {
      case ObjectBegin =>
        ParseMembersLocal(scan, doc, a, part, t.limit, [], [], "");
      case ArrayBegin =>
        ParseArrayLocal(scan, doc, a, part, t.limit);
      case StringToken =>
        DecodeTextLocal(doc, a, part, t.start + 1, t.limit - 1);
      case NumberToken =>
        WindowSlice(doc, a, part, t.start, t.limit);
        assert TokenText(doc, Later(t, a)) == TokenText(part, t);
      case _ =>
    }
  }

  lemma {:induction false} ParseArrayLocal(scan: string -> bool, doc: string, a: nat, part: string, p: nat)
    requires Window(doc, a, part) && p <= |part|
    requires var q := SkipSpaces(doc, a + p);
      if At(doc, q) == ']' then q + 1 <= a + |part|
      else var r := ParseElements(scan, doc, q, [], 0); r.ok && r.pos <= a + |part|
    ensures var q := SkipSpaces(doc, a + p); var q' := SkipSpaces(part, p);
      && q == a + q' && (At(doc, q) == ']' <==> At(part, q') == ']')
      && (At(doc, q) != ']' ==>
            SameContainer(ParseElements(scan, doc, q, [], 0), ParseElements(scan, part, q', [], 0), a))
    decreases |part| - p, 3
  {
    hide SkipSpaces, ParseElements;
    SkipSpacesLocal(doc, a, part, p);
    var q' := SkipSpaces(part, p);
    if q' < |part| { assert part[q'] == doc[a + q']; }
    if At(doc, a + q') != ']' {
      ParseElementsLocal(scan, doc, a, part, q', [], [], 0);
    }
  }

  lemma {:induction false} ParseElementsLocal(
    scan: string -> bool, doc: string, a: nat, part: string, p: nat, es: seq<Entry>, es': seq<Entry>, index: nat)
    requires Window(doc, a, part) && p <= |part| && es == ShiftEntries(es', a)
    requires var r := ParseElements(scan, doc, a + p, es, index); r.ok && r.pos <= a + |part|
    ensures SameContainer(ParseElements(scan, doc, a + p, es, index), ParseElements(scan, part, p, es', index), a)
    decreases |part| - p, 2
  {
    hide NextToken, ParseValue, Put, Get, ReoffsetEntries, Reoffset;
    var key := Index(index);
    ParseValueLocal(scan, doc, a, part, p, Get(es, key), Get(es', key));
    var r' := ParseValue(scan, part, p, Get(es', key));
    NextTokenLocal(doc, a, part, r'.pos);
    ReoffsetPut(es', key, r'.v, Add(a));
    var t' := NextToken(part, r'.pos);
    if t'.typ == ArraySeparator {
      ParseElementsLocal(scan, doc, a, part, t'.limit, Put(es, key, Shift(r'.v, a)), Put(es', key, r'.v), index + 1);
    }
  }

  lemma {:induction false} ParseMembersLocal(
    scan: string -> bool, doc: string, a: nat, part: string, p: nat, es: seq<Entry>, es': seq<Entry>, name: string)
    requires Window(doc, a, part) && p <= |part| && es == ShiftEntries(es', a)
    requires var r := ParseMembers(scan, doc, a + p, es, name); r.ok && r.pos <= a + |part|
    ensures SameContainer(ParseMembers(scan, doc, a + p, es, name), ParseMembers(scan, part, p, es', name), a)
    decreases |part| - p, 0
  {
    hide NextToken, ParseMember, ReoffsetEntries;
    NextTokenLocal(doc, a, part, p);
    var t := NextToken(part, p);
    if t.typ == StringToken {
      ParseMemberLocal(scan, doc, a, part, t, es, es');
      var m := ParseMember(scan, part, t, es');
      if m.More? { ParseMembersLocal(scan, doc, a, part, m.pos, ShiftEntries(m.entries, a), m.entries, m.name); }
    }
  }

  ghost predicate SameMember(m: Member, m': Member, a: nat) {
    match m'
    case Over(r') => m.Over? && SameContainer(m.result, r', a)
    case More(es', q', name') => m == More(ShiftEntries(es', a), a + q', name')
  }

  /** Where a round of readObject's loop stops, if it did not fail. */
  function MemberPos(m: Member): nat { if m.Over? then m.result.pos else m.pos }

  lemma {:induction false} ParseMemberLocal(
    scan: string -> bool, doc: string, a: nat, part: string, t: Token, es: seq<Entry>, es': seq<Entry>)
    requires Window(doc, a, part) && t.start + 2 <= t.limit <= |part| && es == ShiftEntries(es', a)
    requires var m := ParseMember(scan, doc, Later(t, a), es);
      (m.Over? ==> m.result.ok) && MemberPos(m) <= a + |part|
    ensures SameMember(ParseMember(scan, doc, Later(t, a), es), ParseMember(scan, part, t, es'), a)
    decreases |part| - t.limit, 3
  {
    hide ReadToken, NextToken, ParseValue, EndMember, DecodeText, Put, Get, ReoffsetEntries, Reoffset;
    DecodeTextLocal(doc, a, part, t.start + 1, t.limit - 1);
    var name := DecodeString(part, t).text;
    ReadTokenLocal(doc, a, part, t.limit);
    var colon := ReadToken(part, t.limit);
    var key := Name(CString(name));
    ParseValueLocal(scan, doc, a, part, colon.limit, Get(es, key), Get(es', key));
    var r' := ParseValue(scan, part, colon.limit, Get(es', key));
    ReoffsetPut(es', key, r'.v, Add(a));
    EndMemberLocal(doc, a, part, r'.pos, Put(es', key, r'.v), name);
  }

  lemma EndMemberLocal(doc: string, a: nat, part: string, p: nat, es': seq<Entry>, name: string)
    requires Window(doc, a, part) && p <= |part|
    requires var m := EndMember(doc, a + p, ShiftEntries(es', a), name);
      (m.Over? ==> m.result.ok) && MemberPos(m) <= a + |part|
    ensures SameMember(EndMember(doc, a + p, ShiftEntries(es', a), name), EndMember(part, p, es', name), a)
  {
    hide ReadToken, NextToken, ReoffsetEntries, Recover;
    ReadTokenLocal(doc, a, part, p);
    var comma := ReadToken(part, p);
    if comma.typ == CommentToken { NextTokenLocal(doc, a, part, comma.limit); }
  }

  // ---------- offset soundness ----------

  /** Parsing just the text a value's offsets delimit gives the value back. */
  ghost predicate Rereads(scan: string -> bool, doc: string, v: Value)
    requires v.start <= v.limit <= |doc|
  {
    var r := ParseDocument(scan, doc[v.start..v.limit], NULL_VALUE);
    r.ok && Shift(r.v, v.start) == v && r.pos == v.limit - v.start
  }

  ghost predicate Disjoint(v: Value, w: Value) { v.limit <= w.start || w.limit <= v.start }

  /** Entries under distinct keys, each located between lo and hi, no two overlapping. */
  ghost predicate LocatedEntries(scan: string -> bool, doc: string, es: seq<Entry>, lo: nat, hi: nat)
    requires hi <= |doc|
    decreases es
  {
    && Sorted(es)
    && (forall i :: 0 <= i < |es| ==>
          lo <= es[i].val.start && es[i].val.limit <= hi &&
          (assert es[i].val < es[i]; Located(scan, doc, es[i].val)))
    && (forall i, j :: 0 <= i < j < |es| ==> Disjoint(es[i].val, es[j].val))
  }

  /** The offsets of v and of everything in it are sound: in range, nested strictly inside those of
      the enclosing value, disjoint among siblings, and delimiting text that parses to the value. */
  ghost predicate Located(scan: string -> bool, doc: string, v: Value)
    decreases v
  {
    && v.start < v.limit <= |doc|
    && Rereads(scan, doc, v)
    && (v.data.Array? ==> LocatedEntries(scan, doc, v.data.elems, v.start + 1, v.limit - 1))
    && (v.data.Object? ==> LocatedEntries(scan, doc, v.data.members, v.start + 1, v.limit - 1))
  }

  lemma {:induction false} NextTokenAgain(doc: string, p: nat)
    requires p <= |doc|
    ensures var t := NextToken(doc, p); t.start < |doc| ==> NextToken(doc, t.start) == t
    decreases |doc| - p
  {
    hide TokenAt;
    var t := ReadToken(doc, p);
    if t.typ == CommentToken { NextTokenAgain(doc, t.limit); }
  }

  /** A value read from p reads the same from where it starts, and the reader stops at its limit. */
  lemma ParseFromStart(scan: string -> bool, doc: string, p: nat, cur: Value, cur': Value)
    requires p <= |doc| && ParseValue(scan, doc, p, cur).ok
    ensures var r := ParseValue(scan, doc, p, cur);
      && p <= r.v.start < r.v.limit == r.pos
      && ParseValue(scan, doc, r.v.start, cur') == r
  {
    hide NextToken, ParseMembers, ParseElements, DecodeText, DecodeNumber;
    NextTokenAgain(doc, p);
    OneError(scan, doc, p, cur);
  }

  lemma ParsedRereads(scan: string -> bool, doc: string, p: nat, cur: Value)
    requires p <= |doc| && ParseValue(scan, doc, p, cur).ok
    ensures var v := ParseValue(scan, doc, p, cur).v;
      v.start <= v.limit <= |doc| && Rereads(scan, doc, v)
  {
    hide ParseValue, Reoffset;
    ParseFromStart(scan, doc, p, cur, NULL_VALUE);
    var r := ParseValue(scan, doc, p, cur);
    var a := r.v.start;
    var part := doc[a..r.v.limit];
    assert Window(doc, a, part);
    ParseValueLocal(scan, doc, a, part, 0, NULL_VALUE, NULL_VALUE);
  }

  /** Offset soundness of every successful parse. */
  lemma {:induction false} ParsedLocated(scan: string -> bool, doc: string, p: nat, cur: Value)
    requires p <= |doc| && ParseValue(scan, doc, p, cur).ok
    ensures Located(scan, doc, ParseValue(scan, doc, p, cur).v)
    decreases |doc| - p, 1
  {
    hide NextToken, ParseMembers, ParseElements, DecodeText, DecodeNumber, Rereads;
    ParsedRereads(scan, doc, p, cur);
    ParseFromStart(scan, doc, p, cur, cur);
    var t := NextToken(doc, p);
    if t.typ == ObjectBegin {
      MembersLocated(scan, doc, t.limit, [], "", t.limit);
    } else if t.typ == ArrayBegin {
      var q := SkipSpaces(doc, t.limit);
      if At(doc, q) != ']' { ElementsLocated(scan, doc, q, [], 0, t.limit); }
    }
  }

  /** One more entry behind the others, whether or not its key was there before. */
  lemma PutLocated(scan: string -> bool, doc: string, es: seq<Entry>, lo: nat, p: nat, k: Key, v: Value)
    requires p <= |doc| && LocatedEntries(scan, doc, es, lo, p)
    requires lo <= p <= v.start && v.limit <= |doc| && Located(scan, doc, v)
    ensures LocatedEntries(scan, doc, Put(es, k, v), lo, v.limit)
  {
    hide Located, Put;
    PutIsMapUpdate(es, k, v);
    var r := Put(es, k, v);
    forall i | 0 <= i < |r|
      ensures lo <= r[i].val.start && r[i].val.limit <= v.limit && Located(scan, doc, r[i].val)
    {
      assert r[i] in r;
      if r[i] != Entry(k, v) {
        var x :| 0 <= x < |es| && es[x] == r[i];
        assert v.start < v.limit by { LocatedStart(scan, doc, v); }
      }
    }
    forall i, j | 0 <= i < j < |r| ensures Disjoint(r[i].val, r[j].val) {
      assert r[i] in r && r[j] in r;
      KeyLessTotal(r[i].key, r[j].key);
      if r[i].key != k && r[j].key != k {
        var x :| 0 <= x < |es| && es[x] == r[i];
        var y :| 0 <= y < |es| && es[y] == r[j];
      }
    }
  }

  lemma LocatedStart(scan: string -> bool, doc: string, v: Value)
    requires Located(scan, doc, v)
    ensures v.start < v.limit <= |doc|
  {
    hide Rereads;
  }

  lemma {:induction false} ElementsLocated(
    scan: string -> bool, doc: string, p: nat, es: seq<Entry>, index: nat, lo: nat)
    requires lo <= p <= |doc| && LocatedEntries(scan, doc, es, lo, p)
    requires ParseElements(scan, doc, p, es, index).ok
    ensures var r := ParseElements(scan, doc, p, es, index);
      lo < r.pos && LocatedEntries(scan, doc, r.entries, lo, r.pos - 1)
    decreases |doc| - p, 2
  {
    hide NextToken, ParseValue, Put, Get, LocatedEntries, Located;
    var key := Index(index);
    var r := ParseValue(scan, doc, p, Get(es, key));
    ParsedLocated(scan, doc, p, Get(es, key));
    ParseFromStart(scan, doc, p, Get(es, key), r.v);
    PutLocated(scan, doc, es, lo, p, key, r.v);
    var t := NextToken(doc, r.pos);
    WidenEntries(scan, doc, Put(es, key, r.v), lo, r.pos, t.limit);
    if t.typ == ArraySeparator {
      ElementsLocated(scan, doc, t.limit, Put(es, key, r.v), index + 1, lo);
    } else {
      WidenEntries(scan, doc, Put(es, key, r.v), lo, r.pos, t.limit - 1);
    }
  }

  lemma WidenEntries(scan: string -> bool, doc: string, es: seq<Entry>, lo: nat, hi: nat, hi': nat)
    requires hi <= hi' <= |doc| && LocatedEntries(scan, doc, es, lo, hi)
    ensures LocatedEntries(scan, doc, es, lo, hi')
  {
    hide Located;
  }

  lemma {:induction false} MembersLocated(
    scan: string -> bool, doc: string, p: nat, es: seq<Entry>, name: string, lo: nat)
    requires lo <= p <= |doc| && LocatedEntries(scan, doc, es, lo, p)
    requires ParseMembers(scan, doc, p, es, name).ok
    ensures var r := ParseMembers(scan, doc, p, es, name);
      lo < r.pos && LocatedEntries(scan, doc, r.entries, lo, r.pos - 1)
    decreases |doc| - p, 0
  {
    hide NextToken, ParseMember, LocatedEntries;
    var t := NextToken(doc, p);
    if t.typ == StringToken {
      WidenEntries(scan, doc, es, lo, p, t.start);
      MemberLocated(scan, doc, t, es, lo);
      var m := ParseMember(scan, doc, t, es);
      if m.More? { MembersLocated(scan, doc, m.pos, m.entries, m.name, lo); }
    } else {
      WidenEntries(scan, doc, es, lo, p, t.limit - 1);
    }
  }

  lemma {:induction false} MemberLocated(scan: string -> bool, doc: string, t: Token, es: seq<Entry>, lo: nat)
    requires t.start + 2 <= t.limit <= |doc| && lo <= t.start && LocatedEntries(scan, doc, es, lo, t.start)
    requires var m := ParseMember(scan, doc, t, es); m.Over? ==> m.result.ok
    ensures var m := ParseMember(scan, doc, t, es);
      if m.Over? then lo < m.result.pos && LocatedEntries(scan, doc, m.result.entries, lo, m.result.pos - 1)
      else lo <= m.pos && LocatedEntries(scan, doc, m.entries, lo, m.pos)
    decreases |doc| - t.limit, 3
  {
    hide ReadToken, NextToken, ParseValue, EndMember, DecodeText, Put, Get, LocatedEntries, Located;
    var colon := ReadToken(doc, t.limit);
    var key := Name(CString(DecodeString(doc, t).text));
    var r := ParseValue(scan, doc, colon.limit, Get(es, key));
    ParsedLocated(scan, doc, colon.limit, Get(es, key));
    ParseFromStart(scan, doc, colon.limit, Get(es, key), r.v);
    WidenEntries(scan, doc, es, lo, t.start, colon.limit);
    PutLocated(scan, doc, es, lo, colon.limit, key, r.v);
    MemberEndLocated(scan, doc, r.pos, Put(es, key, r.v), DecodeString(doc, t).text, lo);
  }

  lemma MemberEndLocated(scan: string -> bool, doc: string, p: nat, es: seq<Entry>, name: string, lo: nat)
    requires lo <= p <= |doc| && LocatedEntries(scan, doc, es, lo, p)
    requires var m := EndMember(doc, p, es, name); m.Over? ==> m.result.ok
    ensures var m := EndMember(doc, p, es, name);
      if m.Over? then lo < m.result.pos && LocatedEntries(scan, doc, m.result.entries, lo, m.result.pos - 1)
      else lo <= m.pos && LocatedEntries(scan, doc, m.entries, lo, m.pos)
  {
    hide ReadToken, NextToken, LocatedEntries, Recover;
    var comma := ReadToken(doc, p);
    var last := if comma.typ == CommentToken then NextToken(doc, comma.limit) else comma;
    WidenEntries(scan, doc, es, lo, p, last.limit);
    if last.typ == ObjectEnd { WidenEntries(scan, doc, es, lo, p, last.limit - 1); }
  }

  /** Every value of a successfully parsed document has sound offsets; re-parsing the text of the
      whole gives back what operator== sees of the root. */
  lemma DocumentLocated(scan: string -> bool, doc: string, root: Value)
    requires ParseDocument(scan, doc, root).ok
    ensures var v := ParseDocument(scan, doc, root).v;
      && Located(scan, doc, v)
      && Strip(ParseDocument(scan, doc[v.start..v.limit], NULL_VALUE).v) == Strip(v)
  {
    hide ParseValue, Reoffset;
    ParsedLocated(scan, doc, 0, root);
    var v := ParseDocument(scan, doc, root).v;
    StripOfShift(ParseDocument(scan, doc[v.start..v.limit], NULL_VALUE).v, v.start);
  }
}
