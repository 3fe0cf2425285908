/** Any layout of a canonical value's lexemes parses, without error and to its last lexeme, back to
    that value. */
module JsonRoundTrip {
  import opened JsonValue
  import opened Decimals
  import opened JsonText
  import opened JsonGrammar
  import opened JsonLayout

  /** A number token would not run past q. */
  ghost predicate Delimited(doc: string, q: nat) { q < |doc| ==> !IsNumberChar(doc[q]) }

  /** r read v, up to offsets, and stopped at q. */
  ghost predicate Reads(r: Parse, v: Value, q: nat) {
    r.ok && r.pos == q && Strip(r.v) == v
  }

  // ---------- scalars ----------

  lemma StripScalar(d: Data, start: nat, limit: nat)
    requires !d.Array? && !d.Object?
    ensures Strip(Value(d, start, limit)) == Plain(d)
  {
  }

  /** A single punctuation lexeme. */
  lemma Punctuation(doc: string, p: nat, c: char, rest: seq<string>, q: nat) returns (s: nat)
    requires c in "{}[],:" && Lays(doc, p, [[c]] + rest, q)
    ensures p <= s < |doc| && doc[s] == c && s == SkipSpaces(doc, p)
    ensures Lays(doc, s + 1, rest, q)
    ensures Delimited(doc, p)
    ensures ReadToken(doc, p) == NextToken(doc, p) == Token(PunctuationType(c), s, s + 1)
  {
    LaysOne(doc, p, [c], rest, q);
    s := SkipSpaces(doc, p);
    if s > p { assert IsSpace(doc[p]); }
  }

  lemma LastPunctuation(doc: string, p: nat, c: char, q: nat) returns (s: nat)
    requires c in "{}[],:" && Lays(doc, p, [[c]], q)
    ensures p <= s < |doc| && doc[s] == c && s == SkipSpaces(doc, p) && q == s + 1
    ensures ReadToken(doc, p) == NextToken(doc, p) == Token(PunctuationType(c), s, s + 1)
  {
    hide TokenAt;
    assert [[c]] + [] == [[c]];
    s := Punctuation(doc, p, c, [], q);
  }

  function PunctuationType(c: char): TokenType {
    match c
    case '{' => ObjectBegin
    case '}' => ObjectEnd
    case '[' => ArrayBegin
    case ']' => ArrayEnd
    case ',' => ArraySeparator
    case _ => MemberSeparator
  }

  lemma ParseLiteral(scan: string -> bool, v: Value, doc: string, p: nat, q: nat, cur: Value)
    requires v.data.Null? || v.data.Bool?
    requires v == Plain(v.data) && Lays(doc, p, Lexemes(v), q)
    ensures p <= |doc| && Reads(ParseValue(scan, doc, p, cur), v, q)
  {
    hide ReadString, ReadComment, ReadNumber, ParseMembers, ParseElements, DecodeNumber, DecodeText;
    var lexeme := Lexemes(v)[0];
    LaysOne(doc, p, lexeme, [], q);
    var s := SkipSpaces(doc, p);
    assert lexeme == [lexeme[0]] + lexeme[1..];
    HasAtSplit(doc, s, [lexeme[0]], lexeme[1..]);
    StripScalar(v.data, s, q);
  }

  lemma ParseText(scan: string -> bool, v: Value, doc: string, p: nat, q: nat, cur: Value)
    requires v.data.Str? && NulFree(v.data.s)
    requires v == Plain(v.data) && Lays(doc, p, Lexemes(v), q)
    ensures p <= |doc| && Reads(ParseValue(scan, doc, p, cur), v, q)
  {
    LaysOne(doc, p, Quote(v.data.s), [], q);
    var s := SkipSpaces(doc, p);
    QuotedToken(doc, s, v.data.s);
    StripScalar(v.data, s, q);
  }

  lemma QuotedToken(doc: string, s: nat, text: string)
    requires NulFree(text) && HasAt(doc, s, Quote(text))
    ensures s < |doc|
    ensures var t := Token(StringToken, s, s + |Quote(text)|);
      TokenAt(doc, s) == t && DecodeString(doc, t) == Text(text)
  {
    hide TokenAt, Escape, ReadString, DecodeText;
    assert Quote(text) == "\"" + (Escape(text) + "\"");
    HasAtSplit(doc, s, "\"", Escape(text) + "\"");
    HasAtChar(doc, s, "\"", 0);
    ReadQuoted(doc, text, s + 1);
    StringTokenAt(doc, s);
  }

  lemma StringTokenAt(doc: string, s: nat)
    requires s < |doc| && doc[s] == '\"'
    ensures TokenAt(doc, s) == ScanToken(s, ReadString(doc, s + 1), StringToken)
  {
    hide ReadString;
  }

  lemma NumberTokenAt(doc: string, s: nat, negative: bool, digits: string)
    requires digits != [] && AllDigits(digits)
    requires var t := if negative then "-" + digits else digits;
      HasAt(doc, s, t) && Delimited(doc, s + |t|)
    ensures var t := if negative then "-" + digits else digits;
      s < |doc| && TokenAt(doc, s) == Token(NumberToken, s, s + |t|)
  {
    if negative {
      HasAtSplit(doc, s, "-", digits);
      HasAtChar(doc, s, "-", 0);
      ReadDigits(doc, s + 1, digits);
    } else {
      assert digits == [digits[0]] + digits[1..];
      HasAtChar(doc, s, digits, 0);
      HasAtSplit(doc, s, [digits[0]], digits[1..]);
      ReadDigits(doc, s + 1, digits[1..]);
      var c := digits[0];
      assert IsDigit(c);
    }
  }

  lemma ParseInteger(scan: string -> bool, v: Value, doc: string, p: nat, q: nat, cur: Value)
    requires v.data.Int? || v.data.UInt?
    requires Canonical(v) && Lays(doc, p, Lexemes(v), q) && Delimited(doc, q)
    ensures p <= |doc| && Reads(ParseValue(scan, doc, p, cur), v, q)
  {
    hide TokenAt, ParseValue, DecodeNumber, Reoffset, SkipSpaces, Decimal;
    var negative := v.data.Int? && v.data.i < 0;
    var n: nat := if v.data.UInt? then v.data.u else if negative then 0 - v.data.i else v.data.i;
    var digits := Decimal(n);
    var t := if negative then "-" + digits else digits;
    assert Lexemes(v) == [t];
    LaysOne(doc, p, t, [], q);
    var s := SkipSpaces(doc, p);
    NumberTokenAt(doc, s, negative, digits);
    DecodeNumberExact(scan, negative, digits);
    NumberStep(scan, doc, p, cur, v.data);
    StripScalar(v.data, s, q);
  }

  lemma NumberStep(scan: string -> bool, doc: string, p: nat, cur: Value, d: Data)
    requires p <= |doc| && ReadToken(doc, p).typ == NumberToken
    requires var text := TokenText(doc, ReadToken(doc, p)); text != [] && DecodeNumber(scan, text) == Decoded(d)
    ensures var t := ReadToken(doc, p);
            ParseValue(scan, doc, p, cur) == Parse(true, Value(d, t.start, t.limit), t.limit, [])
  {
    hide ReadToken, DecodeNumber;
    var t := ReadToken(doc, p);
    assert NextToken(doc, p) == t;
  }

  // ---------- one step of each parse loop ----------

  lemma ArrayStep(scan: string -> bool, doc: string, p: nat, cur: Value, t: Token, q: nat)
    requires p <= |doc| && NextToken(doc, p) == t && t.typ == ArrayBegin && q == SkipSpaces(doc, t.limit)
    ensures At(doc, q) == ']' ==>
              ParseValue(scan, doc, p, cur) == Parse(true, Value(Array([]), t.start, q + 1), q + 1, [])
    ensures At(doc, q) != ']' ==>
              var r := ParseElements(scan, doc, q, [], 0);
              ParseValue(scan, doc, p, cur) == Parse(r.ok, Value(Array(r.entries), t.start, r.pos), r.pos, r.errors)
  {
    hide NextToken, ParseElements;
  }

  lemma ObjectStep(scan: string -> bool, doc: string, p: nat, cur: Value, t: Token)
    requires p <= |doc| && NextToken(doc, p) == t && t.typ == ObjectBegin
    ensures var r := ParseMembers(scan, doc, t.limit, [], "");
      ParseValue(scan, doc, p, cur) == Parse(r.ok, Value(Object(r.entries), t.start, r.pos), r.pos, r.errors)
  {
    hide NextToken, ParseMembers;
  }

  /** An element and the token after it. */
  lemma ElementStep(scan: string -> bool, doc: string, p: nat, es: seq<Entry>, index: nat, r: Parse, t: Token)
    requires p <= |doc| && ParseValue(scan, doc, p, Get(es, Index(index))) == r
    requires r.ok && NextToken(doc, r.pos) == t
    ensures var es' := Put(es, Index(index), r.v);
      && (t.typ == ArrayEnd ==> ParseElements(scan, doc, p, es, index) == Container(true, es', t.limit, []))
      && (t.typ == ArraySeparator ==>
            ParseElements(scan, doc, p, es, index) == ParseElements(scan, doc, t.limit, es', index + 1))
  {
    hide NextToken, ParseValue, Put, Get;
  }

  lemma MembersStep(scan: string -> bool, doc: string, p: nat, es: seq<Entry>, name: string, t: Token)
    requires p <= |doc| && NextToken(doc, p) == t && t.typ == StringToken
    ensures ParseMembers(scan, doc, p, es, name) ==
      match ParseMember(scan, doc, t, es)
      case Over(r) => r
      case More(es', q, name') => ParseMembers(scan, doc, q, es', name')
  {
    hide NextToken, ParseMember;
  }

  /** A member: its name, the colon, the value read as r, and the token after it. */
  lemma MemberStep(
    scan: string -> bool, doc: string, t: Token, es: seq<Entry>, name: string, colon: Token, r: Parse, last: Token)
    requires t.start + 2 <= t.limit <= |doc| && DecodeString(doc, t) == Text(name) && NulFree(name)
    requires ReadToken(doc, t.limit) == colon && colon.typ == MemberSeparator
    requires ParseValue(scan, doc, colon.limit, Get(es, Name(name))) == r
    requires r.ok && ReadToken(doc, r.pos) == last
    ensures var es' := Put(es, Name(name), r.v);
      && (last.typ == ObjectEnd ==> ParseMember(scan, doc, t, es) == Over(Container(true, es', last.limit, [])))
      && (last.typ == ArraySeparator ==> ParseMember(scan, doc, t, es) == More(es', last.limit, name))
  {
    hide ReadToken, DecodeString, ParseValue, Put, Get;
  }

  // ---------- containers ----------

  lemma ArrayUnfold(v: Value)
    requires v.data.Array? && Canonical(v)
    ensures var es := v.data.elems;
      && v == Plain(Array(es)) && CanonicalElements(es, 0)
      && Lexemes(v) == [['[']] + if es == [] then [[']']] else ElementLexemes(es)
  {
    hide ElementLexemes;
  }

  lemma ObjectUnfold(v: Value)
    requires v.data.Object? && Canonical(v)
    ensures var es := v.data.members;
      && v == Plain(Object(es)) && CanonicalMembers(es)
      && Lexemes(v) == [['{']] + if es == [] then [['}']] else MemberLexemes(es)
  {
    hide MemberLexemes;
  }

  lemma StripArray(es: seq<Entry>, start: nat, limit: nat)
    ensures Strip(Value(Array(es), start, limit)) == Plain(Array(StripEntries(es)))
  {
  }

  lemma StripObject(es: seq<Entry>, start: nat, limit: nat)
    ensures Strip(Value(Object(es), start, limit)) == Plain(Object(StripEntries(es)))
  {
  }

  function AfterElement(es: seq<Entry>): seq<string>
    requires es != []
  {
    if |es| == 1 then ["]"] else [","] + ElementLexemes(es[1..])
  }

  function AfterMember(es: seq<Entry>): seq<string>
    requires es != []
  {
    if |es| == 1 then ["}"] else [","] + MemberLexemes(es[1..])
  }

  lemma ElementLexemesUnfold(es: seq<Entry>)
    requires es != []
    ensures ElementLexemes(es) == Lexemes(es[0].val) + AfterElement(es)
  {
    hide Lexemes;
  }

  lemma MemberLexemesUnfold(es: seq<Entry>)
    requires es != [] && es[0].key.Name?
    ensures MemberLexemes(es) == [Quote(es[0].key.s)] + ([":"] + (Lexemes(es[0].val) + AfterMember(es)))
  {
    hide Lexemes;
    assert [NameText(es[0].key), ":"] == [NameText(es[0].key)] + [":"];
  }

  lemma RestOfElements(es: seq<Entry>, index: nat)
    requires es != [] && CanonicalElements(es, index)
    ensures es[0].key == Index(index) && Canonical(es[0].val) && CanonicalElements(es[1..], index + 1)
  {
    hide Canonical;
    forall i | 0 <= i < |es[1..]|
      ensures es[1..][i].key == Index(index + 1 + i) && Canonical(es[1..][i].val)
    {
      assert es[1..][i] == es[i + 1];
    }
  }

  lemma RestOfMembers(es: seq<Entry>)
    requires es != [] && CanonicalMembers(es)
    ensures es[0].key.Name? && NulFree(es[0].key.s) && Canonical(es[0].val) && CanonicalMembers(es[1..])
    ensures forall j :: 0 <= j < |es[1..]| ==> es[1..][j] in es && KeyLess(es[0].key, es[1..][j].key)
  {
    hide Canonical, KeyLess;
    forall i | 0 <= i < |es[1..]| ensures es[1..][i] == es[i + 1] {}
  }

  lemma EntriesJoin(stripped: seq<Entry>, es: seq<Entry>)
    requires es != []
    ensures stripped + es == stripped + [es[0]] + es[1..]
    ensures |es| == 1 ==> stripped + es == stripped + [es[0]]
  {
  }

  /** A value's first lexeme starts with none of the characters the loops look for. */
  lemma FirstLexeme(v: Value)
    requires Canonical(v)
    ensures Lexemes(v)[0] != []
    ensures var c := Lexemes(v)[0][0]; c != ']' && !IsSpace(c)
  {
    if v.data.Int? || v.data.UInt? {
      assert IsDigit(Lexemes(v)[0][0]) || Lexemes(v)[0][0] == '-';
    }
  }

  ghost predicate CanonicalElements(es: seq<Entry>, index: nat) {
    forall i :: 0 <= i < |es| ==> es[i].key == Index(index + i) && Canonical(es[i].val)
  }

  ghost predicate CanonicalMembers(es: seq<Entry>) {
    Sorted(es) && forall i :: 0 <= i < |es| ==> es[i].key.Name? && NulFree(es[i].key.s) && Canonical(es[i].val)
  }

  ghost function StripEntries(es: seq<Entry>): seq<Entry> { ReoffsetEntries(es, Erase) }

  /** r read the remaining entries on top of those in acc, and stopped at q. */
  ghost predicate ReadsEntries(r: Container, acc: seq<Entry>, es: seq<Entry>, q: nat) {
    r.ok && r.pos == q && StripEntries(r.entries) == acc + es
  }

  lemma {:induction false} ParseLaid(scan: string -> bool, v: Value, doc: string, p: nat, q: nat, cur: Value)
    requires Canonical(v) && Lays(doc, p, Lexemes(v), q) && Delimited(doc, q)
    ensures p <= |doc| && Reads(ParseValue(scan, doc, p, cur), v, q)
    decreases v
  {
    match v.data
    case Null => ParseLiteral(scan, v, doc, p, q, cur);
    case Bool(_) => ParseLiteral(scan, v, doc, p, q, cur);
    case Str(_) => ParseText(scan, v, doc, p, q, cur);
    case Int(_) => ParseInteger(scan, v, doc, p, q, cur);
    case UInt(_) => ParseInteger(scan, v, doc, p, q, cur);
    case Array(es) => ParseLaidArray(scan, v, doc, p, q, cur);
    case Object(es) => ParseLaidObject(scan, v, doc, p, q, cur);
  }

  lemma {:induction false} ParseLaidArray(scan: string -> bool, v: Value, doc: string, p: nat, q: nat, cur: Value)
    requires v.data.Array? && Canonical(v) && Lays(doc, p, Lexemes(v), q)
    ensures p <= |doc| && Reads(ParseValue(scan, doc, p, cur), v, q)
    decreases v.data
  {
    hide TokenAt, ReadToken, NextToken, ParseValue, ParseElements, ElementLexemes, Reoffset, ReoffsetEntries,
      SkipSpaces,
      Lays, Lexemes, Canonical, CanonicalElements;
    var es := v.data.elems;
    StripNothing();
    ArrayUnfold(v);
    if es == [] {
      var s := Punctuation(doc, p, '[', ["]"], q);
      var e := LastPunctuation(doc, s + 1, ']', q);
      ArrayStep(scan, doc, p, cur, NextToken(doc, p), e);
      StripArray([], s, q);
    } else {
      var s := Punctuation(doc, p, '[', ElementLexemes(es), q);
      var first := ParseLaidBody(scan, es, doc, s + 1, q);
      ArrayStep(scan, doc, p, cur, NextToken(doc, p), first);
      StripArray(ParseElements(scan, doc, first, [], 0).entries, s, q);
    }
  }

  lemma {:induction false} ParseLaidBody(scan: string -> bool, es: seq<Entry>, doc: string, p: nat, q: nat)
    returns (first: nat)
    requires es != [] && CanonicalElements(es, 0) && Lays(doc, p, ElementLexemes(es), q)
    ensures p <= |doc| && first == SkipSpaces(doc, p) && At(doc, first) != ']'
    ensures ReadsEntries(ParseElements(scan, doc, first, [], 0), [], es, q)
    decreases es, 1
  {
    hide ParseElements, ElementLexemes, Reoffset, ReoffsetEntries, SkipSpaces, Lays, Canonical;
    NotAtEnd(es, doc, p, q);
    first := LaysAfterSpaces(doc, p, ElementLexemes(es), q);
    StripNothing();
    ParseLaidElements(scan, es, doc, first, q, [], [], 0);
    assert [] + es == es;
  }

  lemma StripNothing()
    ensures StripEntries([]) == []
  {
  }

  /** Leading white space may be skipped beforehand. */
  lemma LaysAfterSpaces(doc: string, p: nat, lexemes: seq<string>, q: nat) returns (s: nat)
    requires lexemes != [] && Lays(doc, p, lexemes, q)
    ensures p <= |doc| && s == SkipSpaces(doc, p) && Lays(doc, s, lexemes, q)
  {
    s := SkipSpaces(doc, p);
  }

  lemma NotAtEnd(es: seq<Entry>, doc: string, p: nat, q: nat)
    requires es != [] && Canonical(es[0].val) && Lays(doc, p, ElementLexemes(es), q)
    ensures p <= |doc| && At(doc, SkipSpaces(doc, p)) != ']'
  {
    FirstLexeme(es[0].val);
    var lexeme := Lexemes(es[0].val)[0];
    ElementLexemesUnfold(es);
    HasAtChar(doc, SkipSpaces(doc, p), lexeme, 0);
  }

  lemma {:induction false} ParseLaidElements(
    scan: string -> bool, es: seq<Entry>, doc: string, p: nat, q: nat,
    acc: seq<Entry>, stripped: seq<Entry>, index: nat)
    requires es != [] && CanonicalElements(es, index) && Lays(doc, p, ElementLexemes(es), q)
    requires stripped == StripEntries(acc)
    requires forall i :: 0 <= i < |acc| ==> KeyLess(acc[i].key, Index(index))
    ensures p <= |doc| && ReadsEntries(ParseElements(scan, doc, p, acc, index), stripped, es, q)
    decreases es, 0
  {
    hide TokenAt, ReadToken, NextToken, ParseValue, ParseElements, Put, Get, Lays, Lexemes, ElementLexemes, Canonical,
      Reoffset, ReoffsetEntries, SkipSpaces, CanonicalElements;
    var v := es[0].val;
    assert es[0].val < es[0];
    ElementLexemesUnfold(es);
    RestOfElements(es, index);
    var m := LaysSplit(doc, p, Lexemes(v), AfterElement(es), q);
    var e := Punctuation(doc, m, if |es| == 1 then ']' else ',', AfterElement(es)[1..], q);
    ParseLaid(scan, v, doc, p, m, NULL_VALUE);
    var r := ParseValue(scan, doc, p, NULL_VALUE);
    PutAppends(acc, Index(index), r.v);
    ElementStep(scan, doc, p, acc, index, r, NextToken(doc, m));
    var acc' := acc + [Entry(Index(index), r.v)];
    StripAppend(acc, Entry(Index(index), r.v));
    assert StripEntries(acc') == stripped + [es[0]];
    EntriesJoin(stripped, es);
    if |es| > 1 {
      ParseLaidElements(scan, es[1..], doc, e + 1, q, acc', StripEntries(acc'), index + 1);
    }
  }

  lemma {:induction false} StripAppend(es: seq<Entry>, e: Entry)
    ensures StripEntries(es + [e]) == StripEntries(es) + [Entry(e.key, Strip(e.val))]
  {
    if es != [] {
      assert (es + [e])[1..] == es[1..] + [e];
      StripAppend(es[1..], e);
    }
  }

  lemma {:induction false} ParseLaidObject(scan: string -> bool, v: Value, doc: string, p: nat, q: nat, cur: Value)
    requires v.data.Object? && Canonical(v) && Lays(doc, p, Lexemes(v), q)
    ensures p <= |doc| && Reads(ParseValue(scan, doc, p, cur), v, q)
    decreases v.data
  {
    hide TokenAt, ReadToken, NextToken, ParseValue, ParseMembers, MemberLexemes, Reoffset, ReoffsetEntries, SkipSpaces,
      Lays, Lexemes, Canonical, CanonicalMembers;
    var es := v.data.members;
    StripNothing();
    ObjectUnfold(v);
    if es == [] {
      var s := Punctuation(doc, p, '{', ["}"], q);
      var e := LastPunctuation(doc, s + 1, '}', q);
      ObjectStep(scan, doc, p, cur, NextToken(doc, p));
      EmptyObject(scan, doc, s + 1);
      StripObject([], s, q);
    } else {
      var s := Punctuation(doc, p, '{', MemberLexemes(es), q);
      LaysBounds(doc, s + 1, MemberLexemes(es), q);
      ObjectStep(scan, doc, p, cur, NextToken(doc, p));
      ParseLaidMembers(scan, es, doc, s + 1, q, [], [], "");
      assert [] + es == es;
      StripObject(ParseMembers(scan, doc, s + 1, [], "").entries, s, q);
    }
  }

  lemma EmptyObject(scan: string -> bool, doc: string, p: nat)
    requires p <= |doc| && NextToken(doc, p).typ == ObjectEnd
    ensures ParseMembers(scan, doc, p, [], "") == Container(true, [], NextToken(doc, p).limit, [])
  {
    hide NextToken;
  }

  lemma {:induction false} ParseLaidMembers(
    scan: string -> bool, es: seq<Entry>, doc: string, p: nat, q: nat,
    acc: seq<Entry>, stripped: seq<Entry>, name: string)
    requires es != [] && CanonicalMembers(es) && Lays(doc, p, MemberLexemes(es), q)
    requires stripped == StripEntries(acc)
    requires forall i, j :: 0 <= i < |acc| && 0 <= j < |es| ==> KeyLess(acc[i].key, es[j].key)
    ensures p <= |doc| && ReadsEntries(ParseMembers(scan, doc, p, acc, name), stripped, es, q)
    decreases es, 1
  {
    hide TokenAt, ReadToken, NextToken, ParseMembers, ParseMember, Lays, Lexemes, MemberLexemes, Canonical, KeyLess,
      Reoffset, ReoffsetEntries, SkipSpaces, CanonicalMembers;
    RestOfMembers(es);
    MemberLexemesUnfold(es);
    NameToken(doc, p, es[0].key.s, [":"] + (Lexemes(es[0].val) + AfterMember(es)), q);
    var t := NextToken(doc, p);
    MembersStep(scan, doc, p, acc, name, t);
    var e, w := ParseLaidMember(scan, es, doc, t, q, acc, stripped);
    var acc' := acc + [Entry(es[0].key, w)];
    EntriesJoin(stripped, es);
    if |es| > 1 {
      assert forall i, j :: 0 <= i < |acc'| && 0 <= j < |es[1..]| ==> KeyLess(acc'[i].key, es[1..][j].key);
      ParseLaidMembers(scan, es[1..], doc, e, q, acc', StripEntries(acc'), es[0].key.s);
    }
  }

  lemma NameToken(doc: string, p: nat, name: string, more: seq<string>, q: nat)
    requires NulFree(name) && Lays(doc, p, [Quote(name)] + more, q)
    ensures p <= |doc|
    ensures var t := NextToken(doc, p);
      t.typ == StringToken && DecodeString(doc, t) == Text(name) && Lays(doc, t.limit, more, q)
  {
    hide TokenAt, Escape, DecodeString, Lays, SkipSpaces;
    LaysOne(doc, p, Quote(name), more, q);
    QuotedToken(doc, SkipSpaces(doc, p), name);
  }

  /** One member, from its name token t on: w is its value, e where the parse goes on. */
  lemma {:induction false} ParseLaidMember(
    scan: string -> bool, es: seq<Entry>, doc: string, t: Token, q: nat,
    acc: seq<Entry>, stripped: seq<Entry>) returns (e: nat, w: Value)
    requires es != [] && es[0].key.Name? && NulFree(es[0].key.s) && Canonical(es[0].val)
    requires t.start + 2 <= t.limit <= |doc| && DecodeString(doc, t) == Text(es[0].key.s)
    requires Lays(doc, t.limit, [":"] + (Lexemes(es[0].val) + AfterMember(es)), q)
    requires stripped == StripEntries(acc)
    requires forall i :: 0 <= i < |acc| ==> KeyLess(acc[i].key, es[0].key)
    ensures var acc' := acc + [Entry(es[0].key, w)];
      && StripEntries(acc') == stripped + [es[0]]
      && ParseMember(scan, doc, t, acc) ==
         if |es| == 1 then Over(Container(true, acc', q, [])) else More(acc', e, es[0].key.s)
    ensures |es| > 1 ==> Lays(doc, e, MemberLexemes(es[1..]), q)
    decreases es, 0
  {
    hide TokenAt, ReadToken, NextToken, ParseValue, ParseMember, DecodeString, Put, Get, Lays, Lexemes, MemberLexemes,
      Canonical, KeyLess, Reoffset, ReoffsetEntries, SkipSpaces;
    var v := es[0].val;
    assert es[0].val < es[0];
    var colon := Punctuation(doc, t.limit, ':', Lexemes(v) + AfterMember(es), q);
    var m := LaysSplit(doc, colon + 1, Lexemes(v), AfterMember(es), q);
    var s := Punctuation(doc, m, if |es| == 1 then '}' else ',', AfterMember(es)[1..], q);
    e := s + 1;
    PutAppends(acc, es[0].key, NULL_VALUE);
    ParseLaid(scan, v, doc, colon + 1, m, NULL_VALUE);
    var r := ParseValue(scan, doc, colon + 1, NULL_VALUE);
    w := r.v;
    MemberStep(scan, doc, t, acc, es[0].key.s, ReadToken(doc, t.limit), r, ReadToken(doc, m));
    PutAppends(acc, es[0].key, w);
    StripAppend(acc, Entry(es[0].key, w));
  }
}
