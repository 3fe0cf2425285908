/** Where Json::Reader reports its error: the grammar of JsonSyntax is unambiguous, and the token an error names is the
    first one that no document of the grammar can have behind the tokens before it. */
module JsonErrors {
  import opened JsonValue
  import opened JsonText
  import opened JsonGrammar
  import opened JsonSyntax

  // ---------- the grammar is unambiguous ----------

  /** Comments end at the first other token. */
  lemma {:induction false} SameGap(g: seq<Token>, t: Token, x: seq<Token>, h: seq<Token>, u: Token, y: seq<Token>)
    requires Comments(g) && Comments(h) && t.typ != CommentToken && u.typ != CommentToken
    requires g + [t] + x == h + [u] + y
    ensures g == h && t == u && x == y
    decreases |g|
  {
    assert (g + [t] + x)[0] == (h + [u] + y)[0];
    if g != [] && h != [] {
      assert g[1..] + [t] + x == (g + [t] + x)[1..] == (h + [u] + y)[1..] == h[1..] + [u] + y;
      SameGap(g[1..], t, x, h[1..], u, y);
      assert g == [g[0]] + g[1..] && h == [h[0]] + h[1..];
    } else if g == [] && h == [] {
      assert x == (g + [t] + x)[1..] == (h + [u] + y)[1..] == y;
    }
  }

  /** The token behind the leading comments of a value. */
  function First(s: Syntax): Token {
    match s
    case Scalar(_, t) => t
    case EmptyArray(_, open, _) => open
    case ArrayOf(_, open, _) => open
    case ObjectOf(_, open, _) => open
  }

  /** The tokens behind that one. */
  function Inside(s: Syntax): seq<Token> {
    match s
    case Scalar(_, _) => []
    case EmptyArray(_, _, close) => [close]
    case ArrayOf(_, _, es) => ElementTokens(es)
    case ObjectOf(_, _, ms) => MemberTokens(ms)
  }

  lemma ValueParts(scan: string -> bool, doc: string, s: Syntax)
    requires ValueOk(scan, doc, s)
    ensures ValueTokens(s) == s.lead + [First(s)] + Inside(s) && Comments(s.lead)
    ensures First(s).typ !in {CommentToken, ArrayEnd}
    ensures s.Scalar? <==> First(s).typ !in {ArrayBegin, ObjectBegin}
    ensures s.ObjectOf? <==> First(s).typ == ObjectBegin
    ensures s.Scalar? ==> ScalarOk(scan, doc, First(s))
  {
    hide ElementTokens, MemberTokens, ElementsOk, MembersOk;
  }

  /** An array's elements do not start with its closing bracket. */
  lemma ElementsStart(scan: string -> bool, doc: string, es: Elements)
    requires ElementsOk(scan, doc, es)
    ensures ElementTokens(es) != [] && ElementTokens(es)[0].typ != ArrayEnd
  {
    hide ValueTokens, ValueOk;
    ValueParts(scan, doc, es.value);
    var v := es.value;
    assert ElementTokens(es)[0] == ValueTokens(v)[0];
    assert v.lead != [] ==> ValueTokens(v)[0] == v.lead[0];
  }

  /** No value's tokens are the beginning of another's, and equal tokens are one derivation. */
  lemma {:induction false} SameValue(
    scan: string -> bool, doc: string, a: Syntax, x: seq<Token>, b: Syntax, y: seq<Token>)
    requires ValueOk(scan, doc, a) && ValueOk(scan, doc, b) && ValueTokens(a) + x == ValueTokens(b) + y
    ensures a == b && x == y
    decreases a, 0
  {
    hide ValueOk, ValueTokens;
    ValueParts(scan, doc, a);
    ValueParts(scan, doc, b);
    Regroup(a.lead, First(a), Inside(a), x);
    Regroup(b.lead, First(b), Inside(b), y);
    SameGap(a.lead, First(a), Inside(a) + x, b.lead, First(b), Inside(b) + y);
    match a
    case Scalar(_, _) =>
      assert [] + x == x && [] + y == y;
    case ObjectOf(_, open, ms) =>
      InsideOk(scan, doc, a);
      InsideOk(scan, doc, b);
      SameMembers(scan, doc, ms, x, b.members, y, "");
    case ArrayOf(_, open, es) =>
      InsideOk(scan, doc, a);
      InsideOk(scan, doc, b);
      if b.EmptyArray? {
        NeverEmpty(scan, doc, es, x, b.close, y);
      } else {
        SameElements(scan, doc, es, x, b.elements, y);
      }
    case EmptyArray(_, open, close) =>
      InsideOk(scan, doc, a);
      InsideOk(scan, doc, b);
      if b.EmptyArray? {
        assert close == ([close] + x)[0] == ([b.close] + y)[0] == b.close;
        assert x == ([close] + x)[1..] == ([b.close] + y)[1..] == y;
      } else {
        NeverEmpty(scan, doc, b.elements, y, close, x);
      }
  }

  lemma NeverEmpty(scan: string -> bool, doc: string, es: Elements, x: seq<Token>, close: Token, y: seq<Token>)
    requires ElementsOk(scan, doc, es) && close.typ == ArrayEnd
    ensures ElementTokens(es) + x != [close] + y
  {
    hide ElementTokens, ElementsOk;
    ElementsStart(scan, doc, es);
    assert (ElementTokens(es) + x)[0] != ([close] + y)[0];
  }

  lemma Regroup(lead: seq<Token>, t: Token, inside: seq<Token>, x: seq<Token>)
    ensures lead + [t] + inside + x == lead + [t] + (inside + x)
  {
  }

  lemma InsideOk(scan: string -> bool, doc: string, s: Syntax)
    requires ValueOk(scan, doc, s)
    ensures s.EmptyArray? ==> s.close.typ == ArrayEnd
    ensures s.ArrayOf? ==> ElementsOk(scan, doc, s.elements)
    ensures s.ObjectOf? ==> MembersOk(scan, doc, s.members, "")
  {
    hide ElementsOk, MembersOk;
  }

  /** What follows an element: comments, and the comma or the bracket. */
  function AfterElement(es: Elements): (seq<Token>, Token, seq<Token>) {
    match es
    case LastElement(_, gap, close) => (gap, close, [])
    case NextElement(_, gap, comma, rest) => (gap, comma, ElementTokens(rest))
  }

  lemma ElementParts(scan: string -> bool, doc: string, es: Elements)
    requires ElementsOk(scan, doc, es)
    ensures var (gap, t, more) := AfterElement(es);
      && ElementTokens(es) == ValueTokens(es.value) + (gap + [t] + more)
      && ValueOk(scan, doc, es.value) && Comments(gap) && gap == es.gap
      && t.typ == (if es.LastElement? then ArrayEnd else ArraySeparator)
      && (es.NextElement? ==> ElementsOk(scan, doc, es.rest))
  {
    hide ValueOk, ValueTokens;
    if es.LastElement? { assert es.gap + [es.close] + [] == es.gap + [es.close]; }
  }

  lemma {:induction false} SameElements(
    scan: string -> bool, doc: string, a: Elements, x: seq<Token>, b: Elements, y: seq<Token>)
    requires ElementsOk(scan, doc, a) && ElementsOk(scan, doc, b) && ElementTokens(a) + x == ElementTokens(b) + y
    ensures a == b && x == y
    decreases a, 0
  {
    hide ValueOk, ValueTokens, ElementsOk, ElementTokens;
    ElementParts(scan, doc, a);
    ElementParts(scan, doc, b);
    var (g, t, m) := AfterElement(a);
    var (h, u, n) := AfterElement(b);
    assert ValueTokens(a.value) + (g + [t] + m) + x == ValueTokens(a.value) + (g + [t] + (m + x));
    assert ValueTokens(b.value) + (h + [u] + n) + y == ValueTokens(b.value) + (h + [u] + (n + y));
    SameValue(scan, doc, a.value, g + [t] + (m + x), b.value, h + [u] + (n + y));
    SameGap(g, t, m + x, h, u, n + y);
    if a.NextElement? {
      SameElements(scan, doc, a.rest, x, b.rest, y);
    } else {
      assert [] + x == x && [] + y == y;
    }
  }

  /** The first token of members behind the comments: the closing brace or a name. */
  function HeadOf(ms: Members): Token { if ms.NoMember? then ms.close else ms.name }

  /** The token that ends the first member, and what follows it. */
  function EndOf(ms: Members): (Token, seq<Token>)
    requires !ms.NoMember?
  {
    if ms.LastMember? then (ms.close, []) else (ms.comma, MemberTokens(ms.rest))
  }

  function BehindHead(ms: Members): seq<Token> {
    if ms.NoMember? then []
    else var (t, more) := EndOf(ms); [ms.colon] + (ValueTokens(ms.value) + (ms.between + [t] + more))
  }

  lemma MemberParts(scan: string -> bool, doc: string, ms: Members, last: string)
    requires MembersOk(scan, doc, ms, last)
    ensures MemberTokens(ms) == ms.gap + [HeadOf(ms)] + BehindHead(ms) && Comments(ms.gap)
    ensures if ms.NoMember? then HeadOf(ms).typ == ObjectEnd && last == "" else NameOk(doc, HeadOf(ms))
    ensures !ms.NoMember? ==>
              && ms.colon.typ == MemberSeparator && ValueOk(scan, doc, ms.value) && Comments(ms.between)
              && EndOf(ms).0.typ != CommentToken && (EndOf(ms).0.typ == ObjectEnd <==> ms.LastMember?)
              && (ms.between != [] || EndOf(ms).0.typ in {ArraySeparator, ObjectEnd})
    ensures ms.NextMember? ==> MembersOk(scan, doc, ms.rest, DecodeString(doc, ms.name).text)
  {
    hide ValueOk, ValueTokens, DecodeString;
    match ms
    case NoMember(gap, close) =>
      assert gap + [close] + [] == gap + [close];
    case LastMember(gap, name, colon, value, between, close) =>
      assert between + [close] + [] == between + [close];
    case NextMember(gap, name, colon, value, between, comma, rest) =>
  }

  lemma {:induction false} SameMembers(
    scan: string -> bool, doc: string, a: Members, x: seq<Token>, b: Members, y: seq<Token>, last: string)
    requires MembersOk(scan, doc, a, last) && MembersOk(scan, doc, b, last)
    requires MemberTokens(a) + x == MemberTokens(b) + y
    ensures a == b && x == y
    decreases a, 0
  {
    hide ValueOk, ValueTokens, MembersOk, MemberTokens, DecodeString;
    MemberParts(scan, doc, a, last);
    MemberParts(scan, doc, b, last);
    Regroup(a.gap, HeadOf(a), BehindHead(a), x);
    Regroup(b.gap, HeadOf(b), BehindHead(b), y);
    SameGap(a.gap, HeadOf(a), BehindHead(a) + x, b.gap, HeadOf(b), BehindHead(b) + y);
    if a.NoMember? {
      assert [] + x == x && [] + y == y;
    } else {
      var (t, m) := EndOf(a);
      var (u, n) := EndOf(b);
      Behind(a.colon, ValueTokens(a.value), a.between, t, m, x);
      Behind(b.colon, ValueTokens(b.value), b.between, u, n, y);
      SameValue(scan, doc, a.value, a.between + [t] + (m + x), b.value, b.between + [u] + (n + y));
      SameGap(a.between, t, m + x, b.between, u, n + y);
      if a.NextMember? {
        SameMembers(scan, doc, a.rest, x, b.rest, y, DecodeString(doc, a.name).text);
      } else {
        assert [] + x == x && [] + y == y;
      }
    }
  }

  /** The tokens behind a name, regrouped. */
  lemma Behind(colon: Token, value: seq<Token>, between: seq<Token>, t: Token, more: seq<Token>, x: seq<Token>)
    ensures var all := [colon] + (value + (between + [t] + more)) + x;
      && all[0] == colon && all[1..] == value + (between + [t] + (more + x))
      && all == [colon] + (value + (between + [t] + (more + x)))
  {
    assert [colon] + (value + (between + [t] + more)) + x == [colon] + (value + (between + [t] + (more + x)));
  }

  // ---------- what cannot begin a value, elements or members ----------

  ghost predicate Excludes(scan: string -> bool, doc: string, ts: seq<Token>) {
    forall s, x :: ValueOk(scan, doc, s) ==> !(ts <= ValueTokens(s) + x)
  }

  ghost predicate ExcludesElements(scan: string -> bool, doc: string, ts: seq<Token>) {
    forall es, x :: ElementsOk(scan, doc, es) ==> !(ts <= ElementTokens(es) + x)
  }

  ghost predicate ExcludesMembers(scan: string -> bool, doc: string, ts: seq<Token>, last: string) {
    forall ms, x :: MembersOk(scan, doc, ms, last) ==> !(ts <= MemberTokens(ms) + x)
  }

  /** Behind this name. */
  ghost predicate ExcludesBehind(scan: string -> bool, doc: string, ts: seq<Token>, name: Token) {
    forall ms, last, x ::
      MembersOk(scan, doc, ms, last) && HeadOf(ms) == name && !ms.NoMember? ==> !(ts <= BehindHead(ms) + x)
  }

  /** A prefix and what is missing. */
  lemma Missing(ts: seq<Token>, all: seq<Token>) returns (w: seq<Token>)
    requires ts <= all
    ensures ts + w == all
  {
    w := all[|ts|..];
  }

  lemma NoValue(scan: string -> bool, doc: string, gap: seq<Token>, t: Token)
    requires Comments(gap) && t.typ !in {CommentToken, ArrayBegin, ObjectBegin} && !ScalarOk(scan, doc, t)
    ensures Excludes(scan, doc, gap + [t])
  {
    forall s, x | ValueOk(scan, doc, s) && gap + [t] <= ValueTokens(s) + x ensures false {
      var w := Missing(gap + [t], ValueTokens(s) + x);
      hide ValueOk, ValueTokens, ScalarOk;
      ValueParts(scan, doc, s);
      Regroup(s.lead, First(s), Inside(s), x);
      SameGap(gap, t, w, s.lead, First(s), Inside(s) + x);
    }
  }

  /** The tokens begin the inside of the value. */
  lemma SameInside(
    scan: string -> bool, doc: string, gap: seq<Token>, t: Token, ts: seq<Token>, s: Syntax, x: seq<Token>)
    requires Comments(gap) && t.typ in {ArrayBegin, ObjectBegin} && ValueOk(scan, doc, s)
    requires gap + [t] + ts <= ValueTokens(s) + x
    ensures t.typ == ObjectBegin ==>
      s.ObjectOf? && MembersOk(scan, doc, s.members, "") && ts <= MemberTokens(s.members) + x
    ensures t.typ == ArrayBegin && ts != [] ==>
      if s.EmptyArray? then ts[0].typ == ArrayEnd
      else s.ArrayOf? && ElementsOk(scan, doc, s.elements) && ts <= ElementTokens(s.elements) + x
  {
    var w := Missing(gap + [t] + ts, ValueTokens(s) + x);
    hide ValueOk, ValueTokens, ElementTokens, MemberTokens;
    ValueParts(scan, doc, s);
    InsideOk(scan, doc, s);
    Regroup(s.lead, First(s), Inside(s), x);
    Regroup(gap, t, ts, w);
    SameGap(gap, t, ts + w, s.lead, First(s), Inside(s) + x);
    assert ts <= Inside(s) + x;
    if s.EmptyArray? && ts != [] { assert ts[0] == (ts + w)[0] == ([s.close] + x)[0]; }
  }

  lemma InObject(scan: string -> bool, doc: string, gap: seq<Token>, t: Token, ts: seq<Token>)
    requires Comments(gap) && t.typ == ObjectBegin && ExcludesMembers(scan, doc, ts, "")
    ensures Excludes(scan, doc, gap + [t] + ts)
  {
    hide ValueOk, ValueTokens, MembersOk, MemberTokens;
    forall s, x | ValueOk(scan, doc, s) && gap + [t] + ts <= ValueTokens(s) + x ensures false {
      SameInside(scan, doc, gap, t, ts, s, x);
    }
  }

  lemma InArray(scan: string -> bool, doc: string, gap: seq<Token>, t: Token, ts: seq<Token>)
    requires Comments(gap) && t.typ == ArrayBegin && ExcludesElements(scan, doc, ts)
    requires ts != [] && ts[0].typ != ArrayEnd
    ensures Excludes(scan, doc, gap + [t] + ts)
  {
    hide ValueOk, ValueTokens, ElementsOk, ElementTokens;
    forall s, x | ValueOk(scan, doc, s) && gap + [t] + ts <= ValueTokens(s) + x ensures false {
      SameInside(scan, doc, gap, t, ts, s, x);
    }
  }

  /** The tokens begin the first element. */
  lemma FirstElement(scan: string -> bool, doc: string, ts: seq<Token>, es: Elements, x: seq<Token>)
    returns (y: seq<Token>)
    requires ElementsOk(scan, doc, es) && ts <= ElementTokens(es) + x
    ensures ts <= ValueTokens(es.value) + y
  {
    hide ValueOk, ValueTokens, ElementTokens, ElementsOk;
    ElementParts(scan, doc, es);
    var (g, t, m) := AfterElement(es);
    y := (g + [t] + m) + x;
    assert ElementTokens(es) + x == ValueTokens(es.value) + y;
  }

  lemma NoFirstElement(scan: string -> bool, doc: string, ts: seq<Token>)
    requires Excludes(scan, doc, ts)
    ensures ExcludesElements(scan, doc, ts)
  {
    forall es, x | ElementsOk(scan, doc, es) && ts <= ElementTokens(es) + x ensures false {
      assert ValueOk(scan, doc, es.value);
      var y := FirstElement(scan, doc, ts, es, x);
    }
  }

  /** Behind the same value, the same comments and token. */
  lemma SameElement(
    scan: string -> bool, doc: string, v: Syntax, gap: seq<Token>, t: Token, ts: seq<Token>, es: Elements,
    x: seq<Token>)
    requires ValueOk(scan, doc, v) && Comments(gap) && t.typ != CommentToken && ElementsOk(scan, doc, es)
    requires ValueTokens(v) + (gap + [t] + ts) <= ElementTokens(es) + x
    ensures t == AfterElement(es).1 && ts <= AfterElement(es).2 + x
    ensures t.typ == (if es.LastElement? then ArrayEnd else ArraySeparator)
  {
    hide ValueOk, ValueTokens, ElementTokens, ElementsOk;
    var all := ValueTokens(v) + (gap + [t] + ts);
    var w := Missing(all, ElementTokens(es) + x);
    ElementParts(scan, doc, es);
    var (g, u, m) := AfterElement(es);
    assert all + w == ValueTokens(v) + (gap + [t] + (ts + w));
    assert ElementTokens(es) + x == ValueTokens(es.value) + (g + [u] + (m + x));
    SameValue(scan, doc, v, gap + [t] + (ts + w), es.value, g + [u] + (m + x));
    SameGap(gap, t, ts + w, g, u, m + x);
  }

  lemma BehindElement(
    scan: string -> bool, doc: string, v: Syntax, gap: seq<Token>, t: Token, ts: seq<Token>)
    requires ValueOk(scan, doc, v) && Comments(gap) && t.typ != CommentToken
    requires if t.typ == ArraySeparator then ExcludesElements(scan, doc, ts) else t.typ != ArrayEnd
    ensures ExcludesElements(scan, doc, ValueTokens(v) + (gap + [t] + ts))
  {
    var all := ValueTokens(v) + (gap + [t] + ts);
    hide ValueOk, ValueTokens, ElementTokens;
    forall es, x | ElementsOk(scan, doc, es) && all <= ElementTokens(es) + x ensures false {
      SameElement(scan, doc, v, gap, t, ts, es, x);
    }
  }

  lemma NoMemberHead(scan: string -> bool, doc: string, gap: seq<Token>, t: Token, last: string)
    requires Comments(gap) && t.typ != CommentToken && !NameOk(doc, t) && !(t.typ == ObjectEnd && last == "")
    ensures ExcludesMembers(scan, doc, gap + [t], last)
  {
    forall ms, x | MembersOk(scan, doc, ms, last) && gap + [t] <= MemberTokens(ms) + x ensures false {
      var w := Missing(gap + [t], MemberTokens(ms) + x);
      hide MembersOk, MemberTokens, BehindHead, NameOk;
      MemberParts(scan, doc, ms, last);
      Regroup(ms.gap, HeadOf(ms), BehindHead(ms), x);
      SameGap(gap, t, w, ms.gap, HeadOf(ms), BehindHead(ms) + x);
    }
  }

  lemma SameName(
    scan: string -> bool, doc: string, gap: seq<Token>, name: Token, ts: seq<Token>, ms: Members, last: string,
    x: seq<Token>)
    requires Comments(gap) && name.typ == StringToken && MembersOk(scan, doc, ms, last)
    requires gap + [name] + ts <= MemberTokens(ms) + x
    ensures HeadOf(ms) == name && !ms.NoMember? && ts <= BehindHead(ms) + x
  {
    var w := Missing(gap + [name] + ts, MemberTokens(ms) + x);
    hide MembersOk, MemberTokens, BehindHead;
    MemberParts(scan, doc, ms, last);
    Regroup(ms.gap, HeadOf(ms), BehindHead(ms), x);
    Regroup(gap, name, ts, w);
    SameGap(gap, name, ts + w, ms.gap, HeadOf(ms), BehindHead(ms) + x);
  }

  lemma BehindName(
    scan: string -> bool, doc: string, gap: seq<Token>, name: Token, ts: seq<Token>, last: string)
    requires Comments(gap) && name.typ == StringToken && ExcludesBehind(scan, doc, ts, name)
    ensures ExcludesMembers(scan, doc, gap + [name] + ts, last)
  {
    hide MembersOk, MemberTokens, BehindHead;
    forall ms, x | MembersOk(scan, doc, ms, last) && gap + [name] + ts <= MemberTokens(ms) + x ensures false {
      SameName(scan, doc, gap, name, ts, ms, last, x);
    }
  }

  lemma SameColon(
    scan: string -> bool, doc: string, colon: Token, ts: seq<Token>, ms: Members, last: string, x: seq<Token>)
    returns (y: seq<Token>)
    requires MembersOk(scan, doc, ms, last) && !ms.NoMember? && [colon] + ts <= BehindHead(ms) + x
    ensures colon.typ == MemberSeparator && ts <= ValueTokens(ms.value) + y
  {
    hide MembersOk, MemberTokens, ValueTokens, ValueOk;
    MemberParts(scan, doc, ms, last);
    var (t, m) := EndOf(ms);
    Behind(ms.colon, ValueTokens(ms.value), ms.between, t, m, x);
    y := ms.between + [t] + (m + x);
    assert ts == ([colon] + ts)[1..] <= (BehindHead(ms) + x)[1..];
  }

  lemma NoColon(scan: string -> bool, doc: string, t: Token, name: Token)
    requires t.typ != MemberSeparator
    ensures ExcludesBehind(scan, doc, [t], name)
  {
    forall ms, last, x | MembersOk(scan, doc, ms, last) && HeadOf(ms) == name && !ms.NoMember? &&
                         [t] <= BehindHead(ms) + x
      ensures false
    {
      assert [t] + [] == [t];
      var y := SameColon(scan, doc, t, [], ms, last, x);
    }
  }

  lemma BehindColon(scan: string -> bool, doc: string, colon: Token, ts: seq<Token>, name: Token)
    requires Excludes(scan, doc, ts)
    ensures ExcludesBehind(scan, doc, [colon] + ts, name)
  {
    hide MembersOk, BehindHead;
    forall ms, last, x | MembersOk(scan, doc, ms, last) && HeadOf(ms) == name && !ms.NoMember? &&
                         [colon] + ts <= BehindHead(ms) + x
      ensures false
    {
      ValueOfMember(scan, doc, ms, last);
      var y := SameColon(scan, doc, colon, ts, ms, last, x);
    }
  }

  lemma ValueOfMember(scan: string -> bool, doc: string, ms: Members, last: string)
    requires MembersOk(scan, doc, ms, last) && !ms.NoMember?
    ensures ValueOk(scan, doc, ms.value)
  {
  }

  /** Behind the same value, the same comments and token. */
  lemma SameMember(
    scan: string -> bool, doc: string, colon: Token, v: Syntax, between: seq<Token>, t: Token, ts: seq<Token>,
    ms: Members, last: string, x: seq<Token>)
    requires ValueOk(scan, doc, v) && Comments(between) && t.typ != CommentToken
    requires MembersOk(scan, doc, ms, last) && !ms.NoMember?
    requires [colon] + (ValueTokens(v) + (between + [t] + ts)) <= BehindHead(ms) + x
    ensures t == EndOf(ms).0 && (t.typ == ObjectEnd <==> ms.LastMember?)
    ensures between != [] || t.typ in {ArraySeparator, ObjectEnd}
    ensures ms.NextMember? ==>
      NameOk(doc, ms.name) && ts <= MemberTokens(ms.rest) + x &&
      MembersOk(scan, doc, ms.rest, DecodeString(doc, ms.name).text)
  {
    var all := [colon] + (ValueTokens(v) + (between + [t] + ts));
    var w := Missing(all, BehindHead(ms) + x);
    hide MembersOk, MemberTokens, ValueTokens, ValueOk, DecodeString;
    MemberParts(scan, doc, ms, last);
    var (u, m) := EndOf(ms);
    Behind(ms.colon, ValueTokens(ms.value), ms.between, u, m, x);
    Behind(colon, ValueTokens(v), between, t, ts, w);
    SameValue(scan, doc, v, between + [t] + (ts + w), ms.value, ms.between + [u] + (m + x));
    SameGap(between, t, ts + w, ms.between, u, m + x);
  }

  lemma BehindValue(
    scan: string -> bool, doc: string, colon: Token, v: Syntax, between: seq<Token>, t: Token, ts: seq<Token>,
    name: Token)
    requires ValueOk(scan, doc, v) && Comments(between) && NameOk(doc, name)
    requires t.typ != CommentToken && t.typ != ObjectEnd
    requires between != [] || t.typ == ArraySeparator ==>
               ExcludesMembers(scan, doc, ts, DecodeString(doc, name).text)
    ensures ExcludesBehind(scan, doc, [colon] + (ValueTokens(v) + (between + [t] + ts)), name)
  {
    hide ValueOk, ValueTokens, MembersOk, MemberTokens, BehindHead, DecodeString;
    var all := [colon] + (ValueTokens(v) + (between + [t] + ts));
    forall ms, last, x | MembersOk(scan, doc, ms, last) && HeadOf(ms) == name && !ms.NoMember? &&
                         all <= BehindHead(ms) + x
      ensures false
    {
      SameMember(scan, doc, colon, v, between, t, ts, ms, last, x);
    }
  }

  // ---------- what can begin a value, elements or members ----------

  ghost predicate Begins(scan: string -> bool, doc: string, ts: seq<Token>) {
    exists s :: ValueOk(scan, doc, s) && ts <= ValueTokens(s)
  }

  ghost predicate BeginsElements(scan: string -> bool, doc: string, ts: seq<Token>) {
    exists es :: ElementsOk(scan, doc, es) && ts <= ElementTokens(es)
  }

  ghost predicate BeginsMembers(scan: string -> bool, doc: string, ts: seq<Token>, last: string) {
    exists ms :: MembersOk(scan, doc, ms, last) && ts <= MemberTokens(ms)
  }

  /** Behind this name. */
  ghost predicate BeginsBehind(scan: string -> bool, doc: string, ts: seq<Token>, name: Token) {
    exists ms :: MembersOk(scan, doc, ms, "") && !ms.NoMember? && ms.name == name && ts <= BehindHead(ms)
  }

  const TRUE_TOKEN := Token(TrueToken, 0, 0)
  const COLON := Token(MemberSeparator, 0, 0)
  const COMMA := Token(ArraySeparator, 0, 0)
  const CLOSE_ARRAY := Token(ArrayEnd, 0, 0)
  const CLOSE_OBJECT := Token(ObjectEnd, 0, 0)

  lemma Prefixed(front: seq<Token>, ts: seq<Token>, all: seq<Token>, more: seq<Token>)
    requires ts <= all
    ensures front + ts <= front + (all + more) && front <= front + more
  {
    assert (all + more)[..|ts|] == ts;
  }

  lemma SomeValue(scan: string -> bool, doc: string, gap: seq<Token>)
    requires Comments(gap)
    ensures Begins(scan, doc, gap + [TRUE_TOKEN])
  {
    var s := Scalar(gap, TRUE_TOKEN);
    assert ValueOk(scan, doc, s) && gap + [TRUE_TOKEN] <= ValueTokens(s);
  }

  lemma ObjectBegins(scan: string -> bool, doc: string, gap: seq<Token>, t: Token, ts: seq<Token>)
    requires Comments(gap) && t.typ == ObjectBegin && BeginsMembers(scan, doc, ts, "")
    ensures Begins(scan, doc, gap + [t] + ts)
  {
    hide MembersOk, MemberTokens;
    var ms :| MembersOk(scan, doc, ms, "") && ts <= MemberTokens(ms);
    var s := ObjectOf(gap, t, ms);
    assert ValueOk(scan, doc, s) && gap + [t] + ts <= ValueTokens(s);
  }

  lemma ArrayBegins(scan: string -> bool, doc: string, gap: seq<Token>, t: Token, ts: seq<Token>)
    requires Comments(gap) && t.typ == ArrayBegin && BeginsElements(scan, doc, ts)
    ensures Begins(scan, doc, gap + [t] + ts)
  {
    hide ElementsOk, ElementTokens;
    var es :| ElementsOk(scan, doc, es) && ts <= ElementTokens(es);
    var s := ArrayOf(gap, t, es);
    assert ValueOk(scan, doc, s) && gap + [t] + ts <= ValueTokens(s);
  }

  lemma FirstBegins(scan: string -> bool, doc: string, ts: seq<Token>)
    requires Begins(scan, doc, ts)
    ensures BeginsElements(scan, doc, ts)
  {
    hide ValueOk, ValueTokens;
    var s :| ValueOk(scan, doc, s) && ts <= ValueTokens(s);
    var es := LastElement(s, [], CLOSE_ARRAY);
    assert ElementsOk(scan, doc, es) && ts <= ElementTokens(es);
  }

  lemma NextBegins(
    scan: string -> bool, doc: string, v: Syntax, gap: seq<Token>, t: Token, ts: seq<Token>)
    requires ValueOk(scan, doc, v) && Comments(gap)
    requires if t.typ == ArraySeparator then BeginsElements(scan, doc, ts) else t.typ == ArrayEnd && ts == []
    ensures BeginsElements(scan, doc, ValueTokens(v) + (gap + [t] + ts))
  {
    hide ValueOk, ValueTokens;
    var all := ValueTokens(v) + (gap + [t] + ts);
    if t.typ == ArraySeparator {
      var rest :| ElementsOk(scan, doc, rest) && ts <= ElementTokens(rest);
      var es := NextElement(v, gap, t, rest);
      assert ElementsOk(scan, doc, es) && all <= ElementTokens(es);
    } else {
      var es := LastElement(v, gap, t);
      assert ElementsOk(scan, doc, es) && all <= ElementTokens(es);
    }
  }

  lemma NameBegins(
    scan: string -> bool, doc: string, gap: seq<Token>, name: Token, ts: seq<Token>, last: string)
    requires Comments(gap) && BeginsBehind(scan, doc, ts, name)
    ensures BeginsMembers(scan, doc, gap + [name] + ts, last)
  {
    hide ValueOk, ValueTokens, DecodeString;
    var ms :| MembersOk(scan, doc, ms, "") && !ms.NoMember? && ms.name == name && ts <= BehindHead(ms);
    var d := if ms.LastMember? then LastMember(gap, name, ms.colon, ms.value, ms.between, ms.close)
             else NextMember(gap, name, ms.colon, ms.value, ms.between, ms.comma, ms.rest);
    assert MembersOk(scan, doc, d, last);
    MemberParts(scan, doc, d, last);
    assert BehindHead(d) == BehindHead(ms);
    assert gap + [name] + ts <= MemberTokens(d);
  }

  lemma ColonBegins(scan: string -> bool, doc: string, colon: Token, ts: seq<Token>, name: Token)
    requires NameOk(doc, name) && colon.typ == MemberSeparator && Begins(scan, doc, ts)
    ensures BeginsBehind(scan, doc, [colon] + ts, name)
  {
    hide ValueOk, ValueTokens;
    var s :| ValueOk(scan, doc, s) && ts <= ValueTokens(s);
    var ms := LastMember([], name, colon, s, [], CLOSE_OBJECT);
    Prefixed([colon], ts, ValueTokens(s), [] + [CLOSE_OBJECT] + []);
    assert MembersOk(scan, doc, ms, "") && [colon] + ts <= BehindHead(ms);
  }

  lemma MemberBegins(
    scan: string -> bool, doc: string, colon: Token, v: Syntax, between: seq<Token>, t: Token, ts: seq<Token>,
    name: Token)
    requires MemberOk(scan, doc, name, colon, v, between) && t.typ != CommentToken
    requires between != [] || t.typ in {ArraySeparator, ObjectEnd}
    requires if t.typ == ObjectEnd then ts == [] else BeginsMembers(scan, doc, ts, DecodeString(doc, name).text)
    ensures BeginsBehind(scan, doc, [colon] + (ValueTokens(v) + (between + [t] + ts)), name)
  {
    hide ValueOk, ValueTokens, DecodeString;
    var all := [colon] + (ValueTokens(v) + (between + [t] + ts));
    if t.typ == ObjectEnd {
      var ms := LastMember([], name, colon, v, between, t);
      assert MembersOk(scan, doc, ms, "") && all <= BehindHead(ms);
    } else {
      var rest :| MembersOk(scan, doc, rest, DecodeString(doc, name).text) && ts <= MemberTokens(rest);
      var ms := NextMember([], name, colon, v, between, t, rest);
      assert MembersOk(scan, doc, ms, "") && all <= BehindHead(ms);
    }
  }

  /** Where a name is expected: the closing brace if the last name was empty, else a name known to be good. */
  function Expected(last: string, known: Token): Token { if last == "" then CLOSE_OBJECT else known }

  lemma EndingBegins(scan: string -> bool, doc: string, gap: seq<Token>, last: string, known: Token)
    requires Comments(gap) && (last != "" ==> NameOk(doc, known))
    ensures BeginsMembers(scan, doc, gap + [Expected(last, known)], last)
  {
    hide NameOk;
    if last == "" {
      var ms := NoMember(gap, CLOSE_OBJECT);
      assert MembersOk(scan, doc, ms, last) && gap + [CLOSE_OBJECT] <= MemberTokens(ms);
    } else {
      var v := Scalar([], TRUE_TOKEN);
      var ms := LastMember(gap, known, COLON, v, [], CLOSE_OBJECT);
      Prefixed(gap + [known], [], [], [COLON] + (ValueTokens(v) + ([] + [CLOSE_OBJECT])));
      assert MembersOk(scan, doc, ms, last) && gap + [known] <= MemberTokens(ms);
    }
  }

  // ---------- the token an error names ----------

  /** There is one error, and its token is read behind these. */
  ghost predicate ReadUpTo(doc: string, p: nat, before: seq<Token>, errors: seq<ErrorInfo>)
    requires p <= |doc|
  {
    && |errors| == 1 && errors[0].token.limit <= |doc|
    && Lexed(doc, p, before + [errors[0].token], errors[0].token.limit)
  }

  /** The message says that one of these tokens was expected, or what is wrong with the token itself. */
  predicate Says(doc: string, error: ErrorInfo, expected: seq<Token>) {
    var (t, m) := (error.token, error.message);
    || (m == "Syntax error: value, object or array expected." && expected == [TRUE_TOKEN])
    || (m == "Missing ':' after object member name" && expected == [COLON])
    || (m == "Missing ',' or '}' in object declaration" && expected == [COMMA, CLOSE_OBJECT])
    || (m == "Missing '}' or object member name" && |expected| == 1 &&
        (expected[0] == CLOSE_OBJECT || NameOk(doc, expected[0])))
    || (m == "Missing ',' or ']' in array declaration" && expected == [COMMA, CLOSE_ARRAY])
    || (|expected| == 1 && t.typ == NumberToken && t.start <= t.limit <= |doc| &&
        m == "'" + doc[t.start..t.limit] + "' is not a number.")
    || (|expected| == 1 && t.typ == StringToken && t.start + 2 <= t.limit <= |doc| &&
        DecodeString(doc, t) == BadText(m))
  }

  /** Each of these tokens can follow. */
  ghost predicate AllBegin(scan: string -> bool, doc: string, before: seq<Token>, expected: seq<Token>) {
    expected != [] && forall k :: 0 <= k < |expected| ==> Begins(scan, doc, before + [expected[k]])
  }

  ghost predicate AllBeginElements(scan: string -> bool, doc: string, before: seq<Token>, expected: seq<Token>) {
    expected != [] && forall k :: 0 <= k < |expected| ==> BeginsElements(scan, doc, before + [expected[k]])
  }

  ghost predicate AllBeginMembers(
    scan: string -> bool, doc: string, before: seq<Token>, expected: seq<Token>, last: string)
  {
    expected != [] && forall k :: 0 <= k < |expected| ==> BeginsMembers(scan, doc, before + [expected[k]], last)
  }

  ghost predicate AllBeginBehind(
    scan: string -> bool, doc: string, before: seq<Token>, expected: seq<Token>, name: Token)
  {
    expected != [] && forall k :: 0 <= k < |expected| ==> BeginsBehind(scan, doc, before + [expected[k]], name)
  }

  /** More tokens in front. */
  lemma ReadBehind(doc: string, p: nat, front: seq<Token>, m: nat, before: seq<Token>, errors: seq<ErrorInfo>)
    requires p <= |doc| && m <= |doc| && Lexed(doc, p, front, m) && ReadUpTo(doc, m, before, errors)
    ensures ReadUpTo(doc, p, front + before, errors)
    ensures forall t :: front + (before + [t]) == front + before + [t]
  {
    hide Lexed;
    LexedJoin(doc, p, front, m, before + [errors[0].token], errors[0].token.limit);
    forall t ensures front + (before + [t]) == front + before + [t] {}
  }

  /** The tokens before the error begin some value, with its token they begin none, and with what its message expects
      they begin one. */
  lemma {:induction false} BlameValue(scan: string -> bool, doc: string, p: nat, cur: Value)
    returns (before: seq<Token>, expected: seq<Token>)
    requires p <= |doc| && !ParseValue(scan, doc, p, cur).ok
    ensures var errors := ParseValue(scan, doc, p, cur).errors;
      && ReadUpTo(doc, p, before, errors) && Says(doc, errors[0], expected)
      && AllBegin(scan, doc, before, expected) && Excludes(scan, doc, before + [errors[0].token])
    decreases |doc| - p, 1
  {
    hide ReadToken, NextToken, SkipSpaces, ParseMembers, ParseElements, Recover, DecodeString, DecodeNumber, Lexed,
      Excludes, ExcludesMembers, Begins, BeginsMembers;
    var t := NextToken(doc, p);
    var gap := GapBefore(doc, p);
    if t.typ == ObjectBegin {
      var errors := ParseMembers(scan, doc, t.limit, [], "").errors;
      var inside;
      inside, expected := BlameMembers(scan, doc, t.limit, [], "", t);
      before := gap + [t] + inside;
      ReadBehind(doc, p, gap + [t], t.limit, inside, errors);
      InObject(scan, doc, gap, t, inside + [errors[0].token]);
      forall k | 0 <= k < |expected| ensures Begins(scan, doc, before + [expected[k]]) {
        ObjectBegins(scan, doc, gap, t, inside + [expected[k]]);
      }
    } else if t.typ == ArrayBegin {
      before, expected := BlameArray(scan, doc, p, gap, cur);
    } else {
      before, expected := gap, [TRUE_TOKEN];
      NoValue(scan, doc, gap, t);
      SomeValue(scan, doc, gap);
    }
  }

  lemma {:induction false} BlameArray(scan: string -> bool, doc: string, p: nat, gap: seq<Token>, cur: Value)
    returns (before: seq<Token>, expected: seq<Token>)
    requires p <= |doc| && !ParseValue(scan, doc, p, cur).ok && NextToken(doc, p).typ == ArrayBegin
    requires Comments(gap) && Lexed(doc, p, gap + [NextToken(doc, p)], NextToken(doc, p).limit)
    ensures var errors := ParseValue(scan, doc, p, cur).errors;
      && ReadUpTo(doc, p, before, errors) && Says(doc, errors[0], expected)
      && AllBegin(scan, doc, before, expected) && Excludes(scan, doc, before + [errors[0].token])
    decreases |doc| - p, 0
  {
    hide ReadToken, NextToken, SkipSpaces, ParseElements, Recover, Lexed, Excludes, ExcludesElements, Begins,
      BeginsElements, Says;
    var t := NextToken(doc, p);
    BracketNext(doc, t.limit);
    SpacesBeforeElements(scan, doc, t.limit);
    var errors := ParseElements(scan, doc, t.limit, [], 0).errors;
    var inside;
    inside, expected := BlameElements(scan, doc, t.limit, [], 0);
    before := gap + [t] + inside;
    ReadBehind(doc, p, gap + [t], t.limit, inside, errors);
    LexedHead(doc, t.limit, inside + [errors[0].token], errors[0].token.limit);
    InArray(scan, doc, gap, t, inside + [errors[0].token]);
    forall k | 0 <= k < |expected| ensures Begins(scan, doc, before + [expected[k]]) {
      ArrayBegins(scan, doc, gap, t, inside + [expected[k]]);
    }
  }

  lemma {:induction false} BlameElements(scan: string -> bool, doc: string, p: nat, es: seq<Entry>, index: nat)
    returns (before: seq<Token>, expected: seq<Token>)
    requires p <= |doc| && !ParseElements(scan, doc, p, es, index).ok
    ensures var errors := ParseElements(scan, doc, p, es, index).errors;
      && ReadUpTo(doc, p, before, errors) && Says(doc, errors[0], expected)
      && AllBeginElements(scan, doc, before, expected)
      && ExcludesElements(scan, doc, before + [errors[0].token])
    decreases |doc| - p, 2
  {
    hide ReadToken, NextToken, ParseValue, Recover, Put, Get, Lexed, Excludes, ExcludesElements, ValueTokens, ValueOk,
      Begins, BeginsElements, DecodeString;
    var cur := Get(es, Index(index));
    var r := ParseValue(scan, doc, p, cur);
    if !r.ok {
      before, expected := BlameValue(scan, doc, p, cur);
      NoFirstElement(scan, doc, before + [r.errors[0].token]);
      forall k | 0 <= k < |expected| ensures BeginsElements(scan, doc, before + [expected[k]]) {
        FirstBegins(scan, doc, before + [expected[k]]);
      }
    } else {
      var value := DeriveValue(scan, doc, p, cur);
      var t := NextToken(doc, r.pos);
      var gap := GapBefore(doc, r.pos);
      if t.typ != ArraySeparator {
        before, expected := ValueTokens(value) + gap, [COMMA, CLOSE_ARRAY];
        LexedJoin(doc, p, ValueTokens(value), r.pos, gap + [t], t.limit);
        BehindElement(scan, doc, value, gap, t, []);
        ElementEnds(scan, doc, value, gap, t);
      } else {
        var es' := Put(es, Index(index), r.v);
        var errors := ParseElements(scan, doc, t.limit, es', index + 1).errors;
        var inside;
        inside, expected := BlameElements(scan, doc, t.limit, es', index + 1);
        before := ValueTokens(value) + (gap + [t] + inside);
        ReadBehind(doc, r.pos, gap + [t], t.limit, inside, errors);
        ReadBehind(doc, p, ValueTokens(value), r.pos, gap + [t] + inside, errors);
        BehindElement(scan, doc, value, gap, t, inside + [errors[0].token]);
        forall k | 0 <= k < |expected| ensures BeginsElements(scan, doc, before + [expected[k]]) {
          NextBegins(scan, doc, value, gap, t, inside + [expected[k]]);
        }
      }
    }
  }

  /** Behind an element a comma or the bracket may follow. */
  lemma ElementEnds(scan: string -> bool, doc: string, value: Syntax, gap: seq<Token>, t: Token)
    requires ValueOk(scan, doc, value) && Comments(gap)
    ensures AllBeginElements(scan, doc, ValueTokens(value) + gap, [COMMA, CLOSE_ARRAY])
    ensures ValueTokens(value) + gap + [t] == ValueTokens(value) + (gap + [t]) == ValueTokens(value) + (gap + [t] + [])
  {
    hide ValueOk, ValueTokens, BeginsElements;
    assert [] + [TRUE_TOKEN] == [TRUE_TOKEN];
    SomeValue(scan, doc, []);
    FirstBegins(scan, doc, [TRUE_TOKEN]);
    NextBegins(scan, doc, value, gap, COMMA, [TRUE_TOKEN]);
    Shorter(scan, doc, ValueTokens(value) + gap + [COMMA], ValueTokens(value) + (gap + [COMMA] + [TRUE_TOKEN]));
    NextBegins(scan, doc, value, gap, CLOSE_ARRAY, []);
    assert ValueTokens(value) + (gap + [CLOSE_ARRAY] + []) == ValueTokens(value) + gap + [CLOSE_ARRAY];
  }

  lemma Shorter(scan: string -> bool, doc: string, ts: seq<Token>, more: seq<Token>)
    requires BeginsElements(scan, doc, more) && ts <= more
    ensures BeginsElements(scan, doc, ts)
  {
    hide ElementsOk, ElementTokens;
    var es :| ElementsOk(scan, doc, es) && more <= ElementTokens(es);
    assert ts <= ElementTokens(es);
  }

  lemma {:induction false} BlameMembers(
    scan: string -> bool, doc: string, p: nat, es: seq<Entry>, last: string, known: Token)
    returns (before: seq<Token>, expected: seq<Token>)
    requires p <= |doc| && !ParseMembers(scan, doc, p, es, last).ok && (last != "" ==> NameOk(doc, known))
    ensures var errors := ParseMembers(scan, doc, p, es, last).errors;
      && ReadUpTo(doc, p, before, errors) && Says(doc, errors[0], expected)
      && AllBeginMembers(scan, doc, before, expected, last)
      && ExcludesMembers(scan, doc, before + [errors[0].token], last)
    decreases |doc| - p, 0
  {
    hide ReadToken, NextToken, ParseMember, Recover, Put, Get, Lexed, DecodeString, ExcludesMembers, ExcludesBehind,
      ValueTokens, ValueOk, BeginsMembers, BeginsBehind;
    var t := NextToken(doc, p);
    var gap := GapBefore(doc, p);
    if t.typ != StringToken || DecodeString(doc, t).BadText? {
      before, expected := gap, [Expected(last, known)];
      EndingBegins(scan, doc, gap, last, known);
      NoMemberHead(scan, doc, gap, t, last);
      if t.typ == StringToken { BadName(scan, doc, t, es); }
    } else {
      var m := ParseMember(scan, doc, t, es);
      if m.Over? {
        var inside;
        inside, expected := BlameMember(scan, doc, t, es);
        before := gap + [t] + inside;
        ReadBehind(doc, p, gap + [t], t.limit, inside, m.result.errors);
        BehindName(scan, doc, gap, t, inside + [m.result.errors[0].token], last);
        forall k | 0 <= k < |expected| ensures BeginsMembers(scan, doc, before + [expected[k]], last) {
          NameBegins(scan, doc, gap, t, inside + [expected[k]], last);
        }
      } else {
        var colon, value, between, comma := DeriveMember(scan, doc, t, es);
        var errors := ParseMembers(scan, doc, m.pos, m.entries, m.name).errors;
        var inside;
        inside, expected := BlameMembers(scan, doc, m.pos, m.entries, m.name, t);
        before := NextBlame(scan, doc, p, gap, t, colon, value, between, comma, inside, errors, expected, last);
      }
    }
  }

  lemma BadName(scan: string -> bool, doc: string, t: Token, es: seq<Entry>)
    requires t.start + 2 <= t.limit <= |doc| && DecodeString(doc, t).BadText?
    ensures var m := ParseMember(scan, doc, t, es);
      m.Over? && m.result.errors == [ErrorInfo(t, DecodeString(doc, t).message)]
  {
    hide DecodeString, Recover;
  }

  /** An error behind a whole member. */
  lemma NextBlame(
    scan: string -> bool, doc: string, p: nat, gap: seq<Token>, name: Token, colon: Token, value: Syntax,
    between: seq<Token>, comma: Token, inside: seq<Token>, errors: seq<ErrorInfo>, expected: seq<Token>, last: string)
    returns (before: seq<Token>)
    requires p <= |doc| && name.limit <= |doc| && comma.limit <= |doc| && Lexed(doc, p, gap + [name], name.limit)
    requires MemberOk(scan, doc, name, colon, value, between) && Comments(gap)
    requires Lexed(doc, name.limit, [colon] + (ValueTokens(value) + (between + [comma])), comma.limit)
    requires comma.typ != CommentToken && comma.typ != ObjectEnd && (between != [] || comma.typ == ArraySeparator)
    requires ReadUpTo(doc, comma.limit, inside, errors)
    requires AllBeginMembers(scan, doc, inside, expected, DecodeString(doc, name).text)
    requires ExcludesMembers(scan, doc, inside + [errors[0].token], DecodeString(doc, name).text)
    ensures ReadUpTo(doc, p, before, errors) && ExcludesMembers(scan, doc, before + [errors[0].token], last)
    ensures AllBeginMembers(scan, doc, before, expected, last)
  {
    hide Lexed, ValueTokens, ValueOk, ExcludesMembers, ExcludesBehind, DecodeString, ReadUpTo, BeginsMembers,
      BeginsBehind;
    var member := [colon] + (ValueTokens(value) + (between + [comma]));
    var behind := [colon] + (ValueTokens(value) + (between + [comma] + inside));
    before := gap + [name] + behind;
    assert |errors| == 1 by { OneReported(doc, comma.limit, inside, errors); }
    assert behind == member + inside;
    ReadBehind(doc, name.limit, member, comma.limit, inside, errors);
    ReadBehind(doc, p, gap + [name], name.limit, behind, errors);
    var t := errors[0].token;
    assert behind + [t] == [colon] + (ValueTokens(value) + (between + [comma] + (inside + [t])));
    BehindValue(scan, doc, colon, value, between, comma, inside + [t], name);
    BehindName(scan, doc, gap, name, behind + [t], last);
    forall k | 0 <= k < |expected| ensures BeginsMembers(scan, doc, before + [expected[k]], last) {
      var e := expected[k];
      MemberBegins(scan, doc, colon, value, between, comma, inside + [e], name);
      assert behind + [e] == [colon] + (ValueTokens(value) + (between + [comma] + (inside + [e])));
      NameBegins(scan, doc, gap, name, behind + [e], last);
    }
  }

  lemma OneReported(doc: string, p: nat, before: seq<Token>, errors: seq<ErrorInfo>)
    requires p <= |doc| && ReadUpTo(doc, p, before, errors)
    ensures |errors| == 1
  {
  }

  /** An error behind a name: at the colon, in the value, or at what should end the member. */
  lemma {:induction false} BlameMember(scan: string -> bool, doc: string, name: Token, es: seq<Entry>)
    returns (before: seq<Token>, expected: seq<Token>)
    requires NameOk(doc, name)
    requires var m := ParseMember(scan, doc, name, es); m.Over? && !m.result.ok
    ensures var errors := ParseMember(scan, doc, name, es).result.errors;
      && ReadUpTo(doc, name.limit, before, errors) && Says(doc, errors[0], expected)
      && AllBeginBehind(scan, doc, before, expected, name)
      && ExcludesBehind(scan, doc, before + [errors[0].token], name)
    decreases |doc| - name.limit, 3
  {
    hide ReadToken, NextToken, ParseValue, Recover, Put, Get, Lexed, DecodeString, ExcludesBehind, Excludes,
      ValueTokens, Begins, BeginsBehind;
    var next := ReadToken(doc, name.limit);
    OneToken(doc, name.limit);
    if next.typ != MemberSeparator {
      before, expected := [], [COLON];
      NoColon(scan, doc, next, name);
      ColonExpected(scan, doc, name);
      assert [] + [next] == [next];
    } else {
      var cur := Get(es, Name(CString(DecodeString(doc, name).text)));
      var r := ParseValue(scan, doc, next.limit, cur);
      if !r.ok {
        var inside;
        inside, expected := BlameValue(scan, doc, next.limit, cur);
        before := [next] + inside;
        ReadBehind(doc, name.limit, [next], next.limit, inside, r.errors);
        BehindColon(scan, doc, next, inside + [r.errors[0].token], name);
        forall k | 0 <= k < |expected| ensures BeginsBehind(scan, doc, before + [expected[k]], name) {
          ColonBegins(scan, doc, next, inside + [expected[k]], name);
        }
      } else {
        var value := DeriveValue(scan, doc, next.limit, cur);
        var t := ReadToken(doc, r.pos);
        before, expected := [next] + ValueTokens(value), [COMMA, CLOSE_OBJECT];
        OneToken(doc, r.pos);
        LexedJoin(doc, next.limit, ValueTokens(value), r.pos, [t], t.limit);
        LexedJoin(doc, name.limit, [next], next.limit, ValueTokens(value) + [t], t.limit);
        assert before + [t] == [next] + (ValueTokens(value) + [t]);
        assert [t] == [] + [t] + [];
        BehindValue(scan, doc, next, value, [], t, [], name);
        MemberEnds(scan, doc, name, next, value);
      }
    }
  }

  lemma ColonExpected(scan: string -> bool, doc: string, name: Token)
    requires NameOk(doc, name)
    ensures AllBeginBehind(scan, doc, [], [COLON], name)
  {
    hide NameOk;
    var none: seq<Token> := [];
    var ms := LastMember([], name, COLON, Scalar([], TRUE_TOKEN), [], CLOSE_OBJECT);
    assert MembersOk(scan, doc, ms, "") && none + [COLON] <= BehindHead(ms);
  }

  /** Behind a member a comma or the brace may follow. */
  lemma MemberEnds(scan: string -> bool, doc: string, name: Token, colon: Token, value: Syntax)
    requires MemberOk(scan, doc, name, colon, value, [])
    ensures AllBeginBehind(scan, doc, [colon] + ValueTokens(value), [COMMA, CLOSE_OBJECT], name)
  {
    hide ValueOk, ValueTokens, DecodeString, BeginsMembers, BeginsBehind;
    var before, text := [colon] + ValueTokens(value), DecodeString(doc, name).text;
    EndingBegins(scan, doc, [], text, name);
    var more := [] + [Expected(text, name)];
    MemberBegins(scan, doc, colon, value, [], COMMA, more, name);
    ShorterBehind(scan, doc, before + [COMMA], [colon] + (ValueTokens(value) + ([] + [COMMA] + more)), name);
    MemberBegins(scan, doc, colon, value, [], CLOSE_OBJECT, [], name);
    assert [colon] + (ValueTokens(value) + ([] + [CLOSE_OBJECT] + [])) == before + [CLOSE_OBJECT];
  }

  lemma ShorterBehind(scan: string -> bool, doc: string, ts: seq<Token>, more: seq<Token>, name: Token)
    requires BeginsBehind(scan, doc, more, name) && ts <= more
    ensures BeginsBehind(scan, doc, ts, name)
  {
    hide MembersOk, BehindHead;
    var ms :| MembersOk(scan, doc, ms, "") && !ms.NoMember? && ms.name == name && more <= BehindHead(ms);
    assert ts <= BehindHead(ms);
  }

  /** The one error of a rejected document names the first token that can stand in no document of the grammar behind
      the tokens before it, while each token its message expects can. */
  lemma ErrorIsEarliest(scan: string -> bool, doc: string, root: Value)
    returns (before: seq<Token>, expected: seq<Token>)
    requires !ParseDocument(scan, doc, root).ok
    ensures var errors := ParseDocument(scan, doc, root).errors;
      && ReadUpTo(doc, 0, before, errors) && Says(doc, errors[0], expected) && expected != []
      && (forall e | e in expected :: Begins(scan, doc, before + [e]))
      && !Begins(scan, doc, before + [errors[0].token])
  {
    hide ParseValue, ValueOk, ValueTokens, Lexed, Says;
    before, expected := BlameValue(scan, doc, 0, root);
    var t := ParseDocument(scan, doc, root).errors[0].token;
    forall o | ValueOk(scan, doc, o) ensures !(before + [t] <= ValueTokens(o)) {
      assert ValueTokens(o) + [] == ValueTokens(o);
    }
    forall e | e in expected ensures Begins(scan, doc, before + [e]) {
      var k :| 0 <= k < |expected| && expected[k] == e;
    }
  }
}
