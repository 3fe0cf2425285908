/** The language Json::Reader accepts, as a grammar over tokens, and that it accepts exactly that. */
module JsonSyntax {
  import opened JsonValue
  import opened JsonText
  import opened JsonGrammar
  import opened JsonQuirks

  // ---------- derivations ----------

  /** A value: comments, then a scalar, an empty array, an array or an object. */
  datatype Syntax =
    | Scalar(lead: seq<Token>, token: Token)
    | EmptyArray(lead: seq<Token>, open: Token, close: Token)
    | ArrayOf(lead: seq<Token>, open: Token, elements: Elements)
    | ObjectOf(lead: seq<Token>, open: Token, members: Members)

  /** An element, comments, and the bracket or the comma with the next element. */
  datatype Elements =
    | LastElement(value: Syntax, gap: seq<Token>, close: Token)
    | NextElement(value: Syntax, gap: seq<Token>, comma: Token, rest: Elements)

  /** The closing brace, or a member and the brace or what stands for the comma with the rest. */
  datatype Members =
    | NoMember(gap: seq<Token>, close: Token)
    | LastMember(gap: seq<Token>, name: Token, colon: Token, value: Syntax, between: seq<Token>, close: Token)
    | NextMember(
        gap: seq<Token>, name: Token, colon: Token, value: Syntax, between: seq<Token>, comma: Token, rest: Members)

  // ---------- which derivations are allowed ----------

  predicate Comments(gap: seq<Token>) {
    forall i | 0 <= i < |gap| :: gap[i].typ == CommentToken
  }

  predicate NameOk(doc: string, t: Token) {
    t.typ == StringToken && t.start + 2 <= t.limit <= |doc| && DecodeString(doc, t).Text?
  }

  predicate ScalarOk(scan: string -> bool, doc: string, t: Token) {
    t.typ in {TrueToken, FalseToken, NullToken} || NameOk(doc, t) ||
    (t.typ == NumberToken && t.start < t.limit <= |doc| && DecodeNumber(scan, TokenText(doc, t)).Decoded?)
  }

  predicate ValueOk(scan: string -> bool, doc: string, s: Syntax)
    decreases s, 0
  {
    Comments(s.lead) &&
    match s
    case Scalar(_, t) => ScalarOk(scan, doc, t)
    case EmptyArray(_, open, close) => open.typ == ArrayBegin && close.typ == ArrayEnd
    case ArrayOf(_, open, es) => open.typ == ArrayBegin && ElementsOk(scan, doc, es)
    case ObjectOf(_, open, ms) => open.typ == ObjectBegin && MembersOk(scan, doc, ms, "")
  }

  predicate ElementsOk(scan: string -> bool, doc: string, es: Elements)
    decreases es, 0
  {
    ValueOk(scan, doc, es.value) && Comments(es.gap) &&
    match es
    case LastElement(_, _, close) => close.typ == ArrayEnd
    case NextElement(_, _, comma, rest) => comma.typ == ArraySeparator && ElementsOk(scan, doc, rest)
  }

  /** `last` is the name of the member before: a brace may follow its comma only if that name is empty. Any token
      but a brace stands for the comma behind a comment. */
  predicate MembersOk(scan: string -> bool, doc: string, ms: Members, last: string)
    decreases ms, 0
  {
    Comments(ms.gap) &&
    match ms
    case NoMember(_, close) => last == "" && close.typ == ObjectEnd
    case LastMember(_, name, colon, value, between, close) =>
      MemberOk(scan, doc, name, colon, value, between) && close.typ == ObjectEnd
    case NextMember(_, name, colon, value, between, comma, rest) =>
      && MemberOk(scan, doc, name, colon, value, between)
      && comma.typ != CommentToken && comma.typ != ObjectEnd && (between != [] || comma.typ == ArraySeparator)
      && MembersOk(scan, doc, rest, DecodeString(doc, name).text)
  }

  predicate MemberOk(scan: string -> bool, doc: string, name: Token, colon: Token, value: Syntax, between: seq<Token>)
    decreases value, 1
  {
    NameOk(doc, name) && colon.typ == MemberSeparator && ValueOk(scan, doc, value) && Comments(between)
  }

  // ---------- the tokens of a derivation ----------

  function ValueTokens(s: Syntax): seq<Token>
    decreases s
  {
    match s
    case Scalar(lead, t) => lead + [t]
    case EmptyArray(lead, open, close) => lead + [open] + [close]
    case ArrayOf(lead, open, es) => lead + [open] + ElementTokens(es)
    case ObjectOf(lead, open, ms) => lead + [open] + MemberTokens(ms)
  }

  function ElementTokens(es: Elements): seq<Token>
    decreases es
  {
    match es
    case LastElement(value, gap, close) => ValueTokens(value) + (gap + [close])
    case NextElement(value, gap, comma, rest) => ValueTokens(value) + (gap + [comma] + ElementTokens(rest))
  }

  function MemberTokens(ms: Members): seq<Token>
    decreases ms
  {
    match ms
    case NoMember(gap, close) => gap + [close]
    case LastMember(gap, name, colon, value, between, close) =>
      (gap + [name]) + ([colon] + (ValueTokens(value) + (between + [close])))
    case NextMember(gap, name, colon, value, between, comma, rest) =>
      (gap + [name]) + ([colon] + (ValueTokens(value) + (between + [comma] + MemberTokens(rest))))
  }

  /** Reading tokens from p on gives exactly these, and ends at q. */
  predicate Lexed(doc: string, p: nat, ts: seq<Token>, q: nat)
    requires p <= |doc|
    decreases |ts|
  {
    if ts == [] then p == q
    else ts[0] == ReadToken(doc, p) && Lexed(doc, ts[0].limit, ts[1..], q)
  }

  lemma {:induction false} LexedJoin(doc: string, p: nat, a: seq<Token>, m: nat, b: seq<Token>, q: nat)
    requires p <= |doc| && m <= |doc| && Lexed(doc, p, a, m) && Lexed(doc, m, b, q)
    ensures Lexed(doc, p, a + b, q)
    decreases |a|
  {
    hide ReadToken;
    if a == [] {
      assert a + b == b;
    } else {
      assert (a + b)[0] == a[0] && (a + b)[1..] == a[1..] + b;
      LexedJoin(doc, a[0].limit, a[1..], m, b, q);
    }
  }

  lemma {:induction false} LexedSplit(doc: string, p: nat, a: seq<Token>, b: seq<Token>, q: nat) returns (m: nat)
    requires p <= |doc| && Lexed(doc, p, a + b, q)
    ensures p <= m <= |doc| && Lexed(doc, p, a, m) && Lexed(doc, m, b, q)
    decreases |a|
  {
    hide ReadToken;
    if a == [] {
      assert a + b == b;
      m := p;
    } else {
      assert (a + b)[0] == a[0] && (a + b)[1..] == a[1..] + b;
      m := LexedSplit(doc, a[0].limit, a[1..], b, q);
    }
  }

  // ---------- comments and the token behind them ----------

  /** Comments and then another token: that is the token found when comments are skipped. */
  lemma {:induction false} GapToken(doc: string, p: nat, gap: seq<Token>, t: Token, q: nat)
    requires p <= |doc| && Comments(gap) && t.typ != CommentToken
    requires Lexed(doc, p, gap + [t], q)
    ensures NextToken(doc, p) == t && q == t.limit
    decreases |gap|
  {
    hide ReadToken;
    var ts := gap + [t];
    if gap == [] {
      assert ts[1..] == [];
    } else {
      assert ts[1..] == gap[1..] + [t];
      GapToken(doc, gap[0].limit, gap[1..], t, q);
    }
  }

  lemma {:induction false} GapBefore(doc: string, p: nat) returns (gap: seq<Token>)
    requires p <= |doc|
    ensures Comments(gap) && Lexed(doc, p, gap + [NextToken(doc, p)], NextToken(doc, p).limit)
    decreases |doc| - p
  {
    hide SkipSpaces, TokenAt;
    var t := ReadToken(doc, p);
    if t.typ == CommentToken {
      var rest := GapBefore(doc, t.limit);
      gap := [t] + rest;
      assert (gap + [NextToken(doc, p)])[1..] == rest + [NextToken(doc, p)];
    } else {
      gap := [];
      assert (gap + [t])[1..] == [];
    }
  }

  lemma OneToken(doc: string, p: nat)
    requires p <= |doc|
    ensures Lexed(doc, p, [ReadToken(doc, p)], ReadToken(doc, p).limit)
  {
    hide ReadToken;
    assert [ReadToken(doc, p)][1..] == [];
  }

  /** A bracket closes an array at once exactly when its token comes next. */
  lemma BracketNext(doc: string, p: nat)
    requires p <= |doc|
    ensures var q := SkipSpaces(doc, p);
      && (At(doc, q) == ']' <==> ReadToken(doc, p).typ == ArrayEnd)
      && (At(doc, q) == ']' ==> ReadToken(doc, p).limit == q + 1)
  {
    hide SkipSpaces, ReadString, ReadNumber, ReadComment;
  }

  /** White space before the first element makes no difference. */
  lemma SpacesBeforeElements(scan: string -> bool, doc: string, p: nat)
    requires p <= |doc|
    ensures ParseElements(scan, doc, SkipSpaces(doc, p), [], 0) == ParseElements(scan, doc, p, [], 0)
  {
    SpacesBeforeToken(doc, p);
    var cur := Get([], Index(0));
    assert ParseValue(scan, doc, SkipSpaces(doc, p), cur) == ParseValue(scan, doc, p, cur) by {
      hide SkipSpaces, NextToken, ParseMembers, ParseElements;
    }
    hide SkipSpaces, NextToken, ParseValue;
  }

  // ---------- what is accepted is in the grammar ----------

  lemma {:induction false} DeriveValue(scan: string -> bool, doc: string, p: nat, cur: Value) returns (s: Syntax)
    requires p <= |doc| && ParseValue(scan, doc, p, cur).ok
    ensures ValueOk(scan, doc, s) && Lexed(doc, p, ValueTokens(s), ParseValue(scan, doc, p, cur).pos)
    decreases |doc| - p, 1
  {
    hide ReadToken, NextToken, SkipSpaces, ParseMembers, ParseElements, Recover, DecodeString, DecodeNumber, Lexed;
    var t := NextToken(doc, p);
    var lead := GapBefore(doc, p);
    if t.typ == ObjectBegin {
      var r := ParseMembers(scan, doc, t.limit, [], "");
      var ms := DeriveMembers(scan, doc, t.limit, [], "");
      s := ObjectOf(lead, t, ms);
      LexedJoin(doc, p, lead + [t], t.limit, MemberTokens(ms), r.pos);
    } else if t.typ == ArrayBegin {
      s := DeriveArray(scan, doc, p, lead, cur);
    } else {
      s := Scalar(lead, t);
    }
  }

  lemma {:induction false} DeriveArray(scan: string -> bool, doc: string, p: nat, lead: seq<Token>, cur: Value)
    returns (s: Syntax)
    requires p <= |doc| && ParseValue(scan, doc, p, cur).ok && NextToken(doc, p).typ == ArrayBegin
    requires Comments(lead) && Lexed(doc, p, lead + [NextToken(doc, p)], NextToken(doc, p).limit)
    ensures ValueOk(scan, doc, s) && Lexed(doc, p, ValueTokens(s), ParseValue(scan, doc, p, cur).pos)
    decreases |doc| - p, 0
  {
    hide ReadToken, NextToken, SkipSpaces, ParseElements, Recover, Lexed;
    var t := NextToken(doc, p);
    var close := ReadToken(doc, t.limit);
    BracketNext(doc, t.limit);
    if close.typ == ArrayEnd {
      s := EmptyArray(lead, t, close);
      OneToken(doc, t.limit);
      LexedJoin(doc, p, lead + [t], t.limit, [close], close.limit);
    } else {
      SpacesBeforeElements(scan, doc, t.limit);
      var es := DeriveElements(scan, doc, t.limit, [], 0);
      s := ArrayOf(lead, t, es);
      LexedJoin(doc, p, lead + [t], t.limit, ElementTokens(es), ParseElements(scan, doc, t.limit, [], 0).pos);
    }
  }

  lemma {:induction false} DeriveElements(scan: string -> bool, doc: string, p: nat, es: seq<Entry>, index: nat)
    returns (d: Elements)
    requires p <= |doc| && ParseElements(scan, doc, p, es, index).ok
    ensures ElementsOk(scan, doc, d)
    ensures Lexed(doc, p, ElementTokens(d), ParseElements(scan, doc, p, es, index).pos)
    decreases |doc| - p, 2
  {
    hide ReadToken, NextToken, ParseValue, Recover, Put, Get, Lexed;
    var cur := Get(es, Index(index));
    var r := ParseValue(scan, doc, p, cur);
    var value := DeriveValue(scan, doc, p, cur);
    var t := NextToken(doc, r.pos);
    var gap := GapBefore(doc, r.pos);
    if t.typ == ArrayEnd {
      d := LastElement(value, gap, t);
      LexedJoin(doc, p, ValueTokens(value), r.pos, gap + [t], t.limit);
    } else {
      var es' := Put(es, Index(index), r.v);
      var rest := DeriveElements(scan, doc, t.limit, es', index + 1);
      var q := ParseElements(scan, doc, t.limit, es', index + 1).pos;
      d := NextElement(value, gap, t, rest);
      LexedJoin(doc, r.pos, gap + [t], t.limit, ElementTokens(rest), q);
      LexedJoin(doc, p, ValueTokens(value), r.pos, gap + [t] + ElementTokens(rest), q);
    }
  }

  lemma {:induction false} DeriveMembers(scan: string -> bool, doc: string, p: nat, es: seq<Entry>, last: string)
    returns (d: Members)
    requires p <= |doc| && ParseMembers(scan, doc, p, es, last).ok
    ensures MembersOk(scan, doc, d, last)
    ensures Lexed(doc, p, MemberTokens(d), ParseMembers(scan, doc, p, es, last).pos)
    decreases |doc| - p, 0
  {
    hide ReadToken, NextToken, ParseValue, Recover, Put, Get, Lexed, DecodeString;
    var t := NextToken(doc, p);
    var gap := GapBefore(doc, p);
    if t.typ == ObjectEnd {
      d := NoMember(gap, t);
    } else {
      var m := ParseMember(scan, doc, t, es);
      var colon, value, between, comma := DeriveMember(scan, doc, t, es);
      if m.Over? {
        d := LastMember(gap, t, colon, value, between, comma);
        LexedJoin(doc, p, gap + [t], t.limit, [colon] + (ValueTokens(value) + (between + [comma])), comma.limit);
      } else {
        var rest := DeriveMembers(scan, doc, m.pos, m.entries, m.name);
        var q := ParseMembers(scan, doc, m.pos, m.entries, m.name).pos;
        d := NextMember(gap, t, colon, value, between, comma, rest);
        var member := [colon] + (ValueTokens(value) + (between + [comma]));
        LexedJoin(doc, t.limit, member, comma.limit, MemberTokens(rest), q);
        LexedJoin(doc, p, gap + [t], t.limit, member + MemberTokens(rest), q);
        assert member + MemberTokens(rest)
            == [colon] + (ValueTokens(value) + (between + [comma] + MemberTokens(rest)));
      }
    }
  }

  /** The member behind a name: its colon, its value and the token that ends it. */
  lemma {:induction false} DeriveMember(scan: string -> bool, doc: string, name: Token, es: seq<Entry>)
    returns (colon: Token, value: Syntax, between: seq<Token>, comma: Token)
    requires name.start + 2 <= name.limit <= |doc| && name.typ == StringToken
    requires var m := ParseMember(scan, doc, name, es); m.Over? ==> m.result.ok
    ensures MemberOk(scan, doc, name, colon, value, between)
    ensures comma.typ != CommentToken && (between != [] || comma.typ in {ArraySeparator, ObjectEnd})
    ensures Lexed(doc, name.limit, [colon] + (ValueTokens(value) + (between + [comma])), comma.limit)
    ensures match ParseMember(scan, doc, name, es)
      case Over(r) => comma.typ == ObjectEnd && r.pos == comma.limit
      case More(_, q, last) =>
        comma.typ != ObjectEnd && q == comma.limit && DecodeString(doc, name) == Text(last)
    decreases |doc| - name.limit, 3
  {
    hide ReadToken, NextToken, ParseValue, Recover, Put, Get, Lexed, DecodeString;
    colon := ReadToken(doc, name.limit);
    var cur := Get(es, Name(CString(DecodeString(doc, name).text)));
    var r := ParseValue(scan, doc, colon.limit, cur);
    value := DeriveValue(scan, doc, colon.limit, cur);
    between, comma := DeriveEnd(doc, r.pos);
    OneToken(doc, name.limit);
    LexedJoin(doc, colon.limit, ValueTokens(value), r.pos, between + [comma], comma.limit);
    LexedJoin(doc, name.limit, [colon], colon.limit, ValueTokens(value) + (between + [comma]), comma.limit);
  }

  lemma DeriveEnd(doc: string, p: nat) returns (between: seq<Token>, comma: Token)
    requires p <= |doc|
    requires ReadToken(doc, p).typ in {ObjectEnd, ArraySeparator, CommentToken}
    ensures var t := ReadToken(doc, p);
      comma == (if t.typ == CommentToken then NextToken(doc, t.limit) else t)
    ensures Comments(between) && comma.typ != CommentToken && (between == [] <==> ReadToken(doc, p).typ != CommentToken)
    ensures p <= comma.limit <= |doc| && Lexed(doc, p, between + [comma], comma.limit)
  {
    hide ReadToken, Lexed;
    var t := ReadToken(doc, p);
    comma := NextToken(doc, p);
    between := GapBefore(doc, p);
    LexedHead(doc, p, between + [comma], comma.limit);
  }

  lemma LexedHead(doc: string, p: nat, ts: seq<Token>, q: nat)
    requires p <= |doc| && ts != [] && Lexed(doc, p, ts, q)
    ensures ts[0] == ReadToken(doc, p)
    ensures Lexed(doc, ts[0].limit, ts[1..], q)
    ensures |ts| == 1 ==> q == ts[0].limit
  {
    hide ReadToken;
  }

  // ---------- what is in the grammar is accepted ----------

  lemma {:induction false} AcceptValue(scan: string -> bool, doc: string, p: nat, s: Syntax, q: nat, cur: Value)
    requires p <= |doc| && ValueOk(scan, doc, s) && Lexed(doc, p, ValueTokens(s), q)
    ensures var r := ParseValue(scan, doc, p, cur); r.ok && r.pos == q
    decreases s, 0
  {
    hide ReadToken, NextToken, SkipSpaces, ParseMembers, ParseElements, Recover, DecodeString, DecodeNumber, Lexed;
    match s
    case Scalar(lead, t) =>
      GapToken(doc, p, lead, t, q);
    case EmptyArray(lead, open, close) =>
      var m := LexedSplit(doc, p, lead + [open], [close], q);
      GapToken(doc, p, lead, open, m);
      LexedHead(doc, m, [close], q);
      BracketNext(doc, m);
    case ArrayOf(lead, open, es) =>
      var m := LexedSplit(doc, p, lead + [open], ElementTokens(es), q);
      GapToken(doc, p, lead, open, m);
      AcceptElements(scan, doc, m, es, q, [], 0);
      NotAtBracket(scan, doc, m);
      SpacesBeforeElements(scan, doc, m);
    case ObjectOf(lead, open, ms) =>
      var m := LexedSplit(doc, p, lead + [open], MemberTokens(ms), q);
      GapToken(doc, p, lead, open, m);
      AcceptMembers(scan, doc, m, ms, q, [], "");
  }

  lemma NotAtBracket(scan: string -> bool, doc: string, p: nat)
    requires p <= |doc| && ParseElements(scan, doc, p, [], 0).ok
    ensures At(doc, SkipSpaces(doc, p)) != ']'
  {
    hide ReadToken, SkipSpaces, ParseElements;
    BracketNext(doc, p);
    if NextToken(doc, p).typ == ArrayEnd {
      NoValueAtBracket(scan, doc, p);
    }
  }

  lemma {:induction false} AcceptElements(
    scan: string -> bool, doc: string, p: nat, d: Elements, q: nat, es: seq<Entry>, index: nat)
    requires p <= |doc| && ElementsOk(scan, doc, d) && Lexed(doc, p, ElementTokens(d), q)
    ensures var r := ParseElements(scan, doc, p, es, index); r.ok && r.pos == q
    decreases d, 0
  {
    hide ReadToken, NextToken, ParseValue, Recover, Put, Get, Lexed;
    var cur := Get(es, Index(index));
    match d
    case LastElement(value, gap, close) =>
      var m := LexedSplit(doc, p, ValueTokens(value), gap + [close], q);
      AcceptValue(scan, doc, p, value, m, cur);
      GapToken(doc, m, gap, close, q);
    case NextElement(value, gap, comma, rest) =>
      var m := LexedSplit(doc, p, ValueTokens(value), gap + [comma] + ElementTokens(rest), q);
      AcceptValue(scan, doc, p, value, m, cur);
      var k := LexedSplit(doc, m, gap + [comma], ElementTokens(rest), q);
      GapToken(doc, m, gap, comma, k);
      var es' := Put(es, Index(index), ParseValue(scan, doc, p, cur).v);
      AcceptElements(scan, doc, k, rest, q, es', index + 1);
  }

  lemma {:induction false} AcceptMembers(
    scan: string -> bool, doc: string, p: nat, d: Members, q: nat, es: seq<Entry>, last: string)
    requires p <= |doc| && MembersOk(scan, doc, d, last) && Lexed(doc, p, MemberTokens(d), q)
    ensures var r := ParseMembers(scan, doc, p, es, last); r.ok && r.pos == q
    decreases d, 0
  {
    hide ReadToken, NextToken, ParseValue, ParseMember, Recover, Put, Get, Lexed, DecodeString;
    match d
    case NoMember(gap, close) =>
      GapToken(doc, p, gap, close, q);
    case LastMember(gap, name, colon, value, between, close) =>
      var m := LexedSplit(doc, p, gap + [name], [colon] + (ValueTokens(value) + (between + [close])), q);
      GapToken(doc, p, gap, name, m);
      AcceptMember(scan, doc, name, colon, value, between, close, q, es);
    case NextMember(gap, name, colon, value, between, comma, rest) =>
      var member := [colon] + (ValueTokens(value) + (between + [comma]));
      assert MemberTokens(d) == (gap + [name]) + (member + MemberTokens(rest));
      var m := LexedSplit(doc, p, gap + [name], member + MemberTokens(rest), q);
      GapToken(doc, p, gap, name, m);
      var k := LexedSplit(doc, m, member, MemberTokens(rest), q);
      AcceptMember(scan, doc, name, colon, value, between, comma, k, es);
      var r := ParseMember(scan, doc, name, es);
      AcceptMembers(scan, doc, k, rest, q, r.entries, r.name);
  }

  lemma {:induction false} AcceptMember(
    scan: string -> bool, doc: string, name: Token, colon: Token, value: Syntax, between: seq<Token>, comma: Token,
    q: nat, es: seq<Entry>)
    requires MemberOk(scan, doc, name, colon, value, between)
    requires comma.typ != CommentToken && (between != [] || comma.typ in {ArraySeparator, ObjectEnd})
    requires Lexed(doc, name.limit, [colon] + (ValueTokens(value) + (between + [comma])), q)
    ensures match ParseMember(scan, doc, name, es)
      case Over(r) => comma.typ == ObjectEnd && r.ok && r.pos == q
      case More(_, pos, last) => comma.typ != ObjectEnd && pos == q && DecodeString(doc, name) == Text(last)
    decreases value, 1
  {
    hide ReadToken, NextToken, ParseValue, Recover, Put, Get, Lexed, DecodeString;
    var m := LexedSplit(doc, name.limit, [colon], ValueTokens(value) + (between + [comma]), q);
    LexedHead(doc, name.limit, [colon], m);
    var k := LexedSplit(doc, m, ValueTokens(value), between + [comma], q);
    var cur := Get(es, Name(CString(DecodeString(doc, name).text)));
    AcceptValue(scan, doc, m, value, k, cur);
    AcceptEnd(doc, k, between, comma, q);
  }

  lemma AcceptEnd(doc: string, p: nat, between: seq<Token>, comma: Token, q: nat)
    requires p <= |doc| && Comments(between) && Lexed(doc, p, between + [comma], q)
    requires comma.typ != CommentToken && (between != [] || comma.typ in {ArraySeparator, ObjectEnd})
    ensures var t := ReadToken(doc, p);
      && t.typ in {ObjectEnd, ArraySeparator, CommentToken}
      && comma == (if t.typ == CommentToken then NextToken(doc, t.limit) else t)
      && q == comma.limit
  {
    hide ReadToken, Lexed;
    LexedHead(doc, p, between + [comma], q);
    GapToken(doc, p, between, comma, q);
  }

  // ---------- recovery ----------

  /** Recovery reads tokens up to and including the first one of the wanted kind, or the end of the document. */
  lemma {:induction false} RecoverEnd(doc: string, p: nat, skipUntil: TokenType) returns (skipped: seq<Token>)
    requires p <= |doc|
    ensures Lexed(doc, p, skipped, Recover(doc, p, skipUntil)) && skipped != []
    ensures forall i | 0 <= i < |skipped| ::
              skipped[i].typ in {skipUntil, EndOfStream} <==> i == |skipped| - 1
    decreases |doc| - p
  {
    hide ReadToken;
    var t := ReadToken(doc, p);
    if t.typ == skipUntil || t.typ == EndOfStream {
      skipped := [t];
      OneToken(doc, p);
    } else {
      NotEmptyToken(doc, p);
      var rest := RecoverEnd(doc, t.limit, skipUntil);
      skipped := [t] + rest;
      assert skipped[1..] == rest;
      forall i | 0 <= i < |skipped|
        ensures skipped[i].typ in {skipUntil, EndOfStream} <==> i == |skipped| - 1
      {
        if i > 0 { assert skipped[i] == rest[i - 1]; }
      }
    }
  }

  /** Only the end of the document is an empty token. */
  lemma NotEmptyToken(doc: string, p: nat)
    requires p <= |doc| && ReadToken(doc, p).typ != EndOfStream
    ensures p < ReadToken(doc, p).limit
  {
  }

  // ---------- exact acceptance ----------

  /** The reader accepts exactly the documents that start with a value of the grammar, and stops behind it. */
  lemma AcceptedExactly(scan: string -> bool, doc: string, root: Value, q: nat)
    ensures var r := ParseDocument(scan, doc, root);
      r.ok && r.pos == q <==> exists s :: ValueOk(scan, doc, s) && Lexed(doc, 0, ValueTokens(s), q)
  {
    hide ParseValue, ValueOk, Lexed;
    var r := ParseDocument(scan, doc, root);
    if r.ok {
      var s := DeriveValue(scan, doc, 0, root);
      assert ValueOk(scan, doc, s) && Lexed(doc, 0, ValueTokens(s), r.pos);
    }
    forall s | ValueOk(scan, doc, s) && Lexed(doc, 0, ValueTokens(s), q) ensures r.ok && r.pos == q {
      AcceptValue(scan, doc, 0, s, q, root);
    }
  }
}
