/** The printed form of a value, up to white space: its lexemes in order. Any document that lays
    these lexemes out, with white space between them as it pleases, parses back to the value. */
module JsonLayout {
  import opened JsonValue
  import opened Decimals
  import opened JsonText
  import opened JsonGrammar

  // ---------- values as a reader rebuilds them ----------

  /** What the writers are specified for: no reals, no NUL characters, entries in key order, and
      integers in range; the most negative one is out, its negation overflows. */
  ghost predicate Writable(v: Value)
    decreases v
  {
    match v.data
    case Null => true
    case Bool(_) => true
    case Int(i) => -MAX_LARGEST_INT <= i <= MAX_LARGEST_INT
    case UInt(u) => u <= MAX_LARGEST_UINT
    case Real(_) => false
    case Str(s) => NulFree(s)
    case Array(es) => Sorted(es) && (forall i :: 0 <= i < |es| ==> es[i].key.Index? && Writable(es[i].val))
    case Object(es) =>
      Sorted(es) && (forall i :: 0 <= i < |es| ==> es[i].key.Name? && NulFree(es[i].key.s) && Writable(es[i].val))
  }

  function IntData(i: int): Data { if i <= MAX_INT then Int(i) else UInt(i) }

  /** v as a parse of its printed form rebuilds it: no offsets, integers tagged as decodeNumber tags
      them, array gaps filled with nulls. */
  ghost function Norm(v: Value): Value
    decreases Height(v), 0
  {
    Plain(match v.data
          case Int(i) => IntData(i)
          case UInt(u) => IntData(u)
          case Array(es) => Array(NormElements(es, ArraySize(es)))
          case Object(es) => Object(NormMembers(es))
          case d => d)
  }

  /** The elements 0..n, read through operator[]. */
  ghost function NormElements(es: seq<Entry>, n: nat): (r: seq<Entry>)
    ensures |r| == n
    decreases EntriesHeight(es), 1 + n
  {
    if n == 0 then []
    else
      GetHeight(es, Index(n - 1));
      NormElements(es, n - 1) + [Entry(Index(n - 1), Norm(Get(es, Index(n - 1))))]
  }

  ghost function NormMembers(es: seq<Entry>): (r: seq<Entry>)
    ensures |r| == |es|
    decreases EntriesHeight(es), 1 + |es|
  {
    if es == [] then []
    else
      var last := |es| - 1;
      PrefixHeight(es, last);
      EntryHeight(es, last);
      NormMembers(es[..last]) + [Entry(es[last].key, Norm(es[last].val))]
  }

  lemma {:induction false} PrefixHeight(es: seq<Entry>, n: nat)
    requires n <= |es|
    ensures EntriesHeight(es[..n]) <= EntriesHeight(es)
    decreases n
  {
    if n > 0 {
      assert es[..n][1..] == es[1..][..n - 1];
      PrefixHeight(es[1..], n - 1);
    }
  }

  /** Values that a parse can return and a writer can print: exactly the fixed points of Norm. */
  ghost predicate Canonical(v: Value)
    decreases v
  {
    && v.start == 0 && v.limit == 0
    && match v.data
       case Null => true
       case Bool(_) => true
       case Int(i) => -MAX_LARGEST_INT <= i <= MAX_INT
       case UInt(u) => MAX_INT < u <= MAX_LARGEST_UINT
       case Real(_) => false
       case Str(s) => NulFree(s)
       case Array(es) =>
         forall i :: 0 <= i < |es| ==> es[i].key == Index(i) && Canonical(es[i].val)
       case Object(es) =>
         Sorted(es) && (forall i :: 0 <= i < |es| ==> es[i].key.Name? && NulFree(es[i].key.s) && Canonical(es[i].val))
  }

  lemma {:induction false} NormElementsAt(es: seq<Entry>, n: nat, i: nat)
    requires i < n
    ensures NormElements(es, n)[i] == Entry(Index(i), Norm(Get(es, Index(i))))
  {
    if i < n - 1 { NormElementsAt(es, n - 1, i); }
  }

  lemma {:induction false} NormMembersAt(es: seq<Entry>, i: nat)
    requires i < |es|
    ensures NormMembers(es)[i] == Entry(es[i].key, Norm(es[i].val))
  {
    var last := |es| - 1;
    if i < last {
      NormMembersAt(es[..last], i);
      assert es[..last][i] == es[i];
    }
  }

  lemma {:induction false} GetWritable(es: seq<Entry>, k: Key)
    requires forall i :: 0 <= i < |es| ==> Writable(es[i].val)
    ensures Writable(Get(es, k))
  {
    if es != [] && es[0].key != k {
      forall i | 0 <= i < |es[1..]| ensures Writable(es[1..][i].val) { assert es[1..][i] == es[i + 1]; }
      GetWritable(es[1..], k);
    }
  }

  /** What can be printed normalises to what a parse returns. */
  lemma {:induction false} NormCanonical(v: Value)
    requires Writable(v)
    ensures Canonical(Norm(v))
    decreases Height(v)
  {
    match v.data
    case Array(es) =>
      var n := ArraySize(es);
      forall i | 0 <= i < n
        ensures var e := NormElements(es, n)[i]; e.key == Index(i) && Canonical(e.val)
      {
        NormElementsAt(es, n, i);
        GetHeight(es, Index(i));
        GetWritable(es, Index(i));
        NormCanonical(Get(es, Index(i)));
      }
    case Object(es) =>
      var ms := NormMembers(es);
      forall i | 0 <= i < |ms| ensures ms[i].key == es[i].key && Canonical(ms[i].val) {
        NormMembersAt(es, i);
        EntryHeight(es, i);
        NormCanonical(es[i].val);
      }
      assert Sorted(ms);
    case _ =>
  }

  predicate HoldsNumber(d: Data, n: int) { (d.Int? && d.i == n) || (d.UInt? && d.u == n) }

  /** w says what v says: the same number in either tag, the same elements with null in the gaps, the same members. */
  ghost predicate Means(v: Value, w: Value)
    decreases Height(v)
  {
    match v.data
    case Int(i) => HoldsNumber(w.data, i)
    case UInt(u) => HoldsNumber(w.data, u)
    case Array(es) =>
      && w.data.Array? && |w.data.elems| == ArraySize(es)
      && (forall k: nat | k < ArraySize(es) ::
            w.data.elems[k].key == Index(k) && (!Stored(es, Index(k)) ==> w.data.elems[k].val.data.Null?) &&
            (GetHeight(es, Index(k)); Means(Get(es, Index(k)), w.data.elems[k].val)))
    case Object(es) =>
      && w.data.Object? && |w.data.members| == |es|
      && (forall k: nat | k < |es| ::
            w.data.members[k].key == es[k].key && (EntryHeight(es, k); Means(es[k].val, w.data.members[k].val)))
    case d => w.data == d
  }

  lemma {:induction false} NormMeans(v: Value)
    ensures Means(v, Norm(v))
    decreases Height(v)
  {
    match v.data
    case Array(es) =>
      var n := ArraySize(es);
      forall k: nat | k < n
        ensures NormElements(es, n)[k].key == Index(k)
        ensures !Stored(es, Index(k)) ==> NormElements(es, n)[k].val.data.Null?
        ensures Means(Get(es, Index(k)), NormElements(es, n)[k].val)
      {
        NormElementsAt(es, n, k);
        GetHeight(es, Index(k));
        NormMeans(Get(es, Index(k)));
        if !Stored(es, Index(k)) { GetOfMissing(es, Index(k)); }
      }
    case Object(es) =>
      forall k: nat | k < |es|
        ensures NormMembers(es)[k].key == es[k].key
        ensures Means(es[k].val, NormMembers(es)[k].val)
      {
        NormMembersAt(es, k);
        EntryHeight(es, k);
        NormMeans(es[k].val);
      }
    case _ =>
  }

  // ---------- lexemes ----------

  /** The lexemes of a value. */
  function Lexemes(v: Value): (r: seq<string>)
    ensures r != []
    decreases v
  {
    match v.data
    case Null => ["null"]
    case Bool(b) => [if b then "true" else "false"]
    case Int(i) => [IntText(i)]
    case UInt(u) => [Decimal(u)]
    case Real(t) => [t]
    case Str(s) => [Quote(s)]
    case Array(es) => ["["] + if es == [] then ["]"] else ElementLexemes(es)
    case Object(es) => ["{"] + if es == [] then ["}"] else MemberLexemes(es)
  }

  function ElementLexemes(es: seq<Entry>): (r: seq<string>)
    requires es != []
    ensures r != []
    decreases es
  {
    assert es[0].val < es[0];
    Lexemes(es[0].val) + if |es| == 1 then ["]"] else [","] + ElementLexemes(es[1..])
  }

  function NameText(k: Key): string { if k.Name? then Quote(k.s) else [] }

  function MemberLexemes(es: seq<Entry>): seq<string>
    requires es != []
    decreases es
  {
    assert es[0].val < es[0];
    [NameText(es[0].key), ":"] + Lexemes(es[0].val) + if |es| == 1 then ["}"] else [","] + MemberLexemes(es[1..])
  }

  // ---------- layouts ----------

  ghost predicate HasAt(doc: string, p: nat, s: string) {
    p + |s| <= |doc| && doc[p..p + |s|] == s
  }

  /** doc[p..q] is the given lexemes, each behind any amount of white space. */
  ghost predicate Lays(doc: string, p: nat, lexemes: seq<string>, q: nat)
    decreases |lexemes|
  {
    if lexemes == [] then p == q <= |doc|
    else
      p <= |doc| &&
      var s := SkipSpaces(doc, p);
      HasAt(doc, s, lexemes[0]) && Lays(doc, s + |lexemes[0]|, lexemes[1..], q)
  }

  lemma {:induction false} LaysJoin(doc: string, p: nat, a: seq<string>, m: nat, b: seq<string>, q: nat)
    requires Lays(doc, p, a, m) && Lays(doc, m, b, q)
    ensures Lays(doc, p, a + b, q)
    decreases |a|
  {
    if a == [] {
      assert a + b == b;
    } else {
      assert (a + b)[1..] == a[1..] + b;
      LaysJoin(doc, SkipSpaces(doc, p) + |a[0]|, a[1..], m, b, q);
    }
  }

  lemma {:induction false} LaysSplit(doc: string, p: nat, a: seq<string>, b: seq<string>, q: nat) returns (m: nat)
    requires Lays(doc, p, a + b, q)
    ensures Lays(doc, p, a, m) && Lays(doc, m, b, q) && p <= m <= |doc|
    decreases |a|
  {
    if a == [] {
      assert a + b == b;
      m := p;
      LaysBounds(doc, p, b, q);
    } else {
      assert (a + b)[1..] == a[1..] + b;
      m := LaysSplit(doc, SkipSpaces(doc, p) + |a[0]|, a[1..], b, q);
    }
  }

  lemma {:induction false} LaysBounds(doc: string, p: nat, a: seq<string>, q: nat)
    requires Lays(doc, p, a, q)
    ensures p <= q <= |doc|
    decreases |a|
  {
    if a != [] { LaysBounds(doc, SkipSpaces(doc, p) + |a[0]|, a[1..], q); }
  }

  lemma HasAtSplit(doc: string, p: nat, a: string, b: string)
    requires HasAt(doc, p, a + b)
    ensures HasAt(doc, p, a) && HasAt(doc, p + |a|, b)
  {
    var s := doc[p..p + |a + b|];
    assert doc[p..p + |a|] == s[..|a|] && s[..|a|] == a;
    assert doc[p + |a|..p + |a| + |b|] == s[|a|..] && s[|a|..] == b;
  }

  lemma HasAtChar(doc: string, p: nat, s: string, i: nat)
    requires HasAt(doc, p, s) && i < |s|
    ensures p + i < |doc| && doc[p + i] == s[i]
  {
    assert doc[p..p + |s|][i] == s[i];
  }

  /** A layout of one lexeme, and what the lexer sees there. */
  lemma LaysOne(doc: string, p: nat, lexeme: string, rest: seq<string>, q: nat)
    requires Lays(doc, p, [lexeme] + rest, q) && lexeme != []
    ensures p <= |doc|
    ensures var s := SkipSpaces(doc, p);
      && s < |doc| && doc[s] == lexeme[0] && HasAt(doc, s, lexeme)
      && Lays(doc, s + |lexeme|, rest, q)
      && ReadToken(doc, p) == TokenAt(doc, s)
  {
    hide TokenAt;
    assert ([lexeme] + rest)[1..] == rest;
    HasAtChar(doc, SkipSpaces(doc, p), lexeme, 0);
  }

  // ---------- lexing printed scalars ----------

  lemma DecodeShortEscape(doc: string, c: char, cur: nat, end: nat)
    requires HasShortEscape(c) && HasAt(doc, cur, EscapeChar(c)) && cur + 2 <= end < |doc|
    ensures |EscapeChar(c)| == 2
    ensures DecodeText(doc, cur, end) == DecodeText(doc, cur + 2, end).After([c])
    ensures ReadString(doc, cur) == ReadString(doc, cur + 2)
  {
    HasAtChar(doc, cur, EscapeChar(c), 0);
    HasAtChar(doc, cur, EscapeChar(c), 1);
  }

  lemma DecodePlainChar(doc: string, c: char, cur: nat, end: nat)
    requires !HasShortEscape(c) && cur < end < |doc| && doc[cur] == c
    ensures DecodeText(doc, cur, end) == DecodeText(doc, cur + 1, end).After([c])
    ensures ReadString(doc, cur) == ReadString(doc, cur + 1)
  {
    assert '\"' in "\"\\\U{8}\U{c}\n\r\t" && '\\' in "\"\\\U{8}\U{c}\n\r\t";
  }

  lemma ControlEscape(c: char)
    requires IsControl(c) && !HasShortEscape(c)
    ensures var n := c as int;
      EscapeChar(c) == ['\\', 'u', '0', '0', HexChar(n / 16), HexChar(n % 16)]
  {
    var n := c as int;
    assert n / 4096 == 0 && n / 256 % 16 == 0 && n / 16 % 16 == n / 16;
  }

  lemma DecodeControl(doc: string, c: char, cur: nat, end: nat)
    requires IsControl(c) && cur + 6 <= end < |doc|
    requires doc[cur] == '\\' && doc[cur + 1] == 'u' && doc[cur + 2] == '0' && doc[cur + 3] == '0'
    requires doc[cur + 4] == HexChar((c as int) / 16) && doc[cur + 5] == HexChar((c as int) % 16)
    ensures DecodeText(doc, cur, end) == DecodeText(doc, cur + 6, end).After([c])
    ensures ReadString(doc, cur) == ReadString(doc, cur + 6)
  {
    var n := c as int;
    var p := cur + 2;
    assert HexDigits(doc, p, 4, 0) == CodePoint(n, p + 4) by {
      assert HexDigits(doc, p, 4, 0) == HexDigits(doc, p + 1, 3, 0);
      assert HexDigits(doc, p + 1, 3, 0) == HexDigits(doc, p + 2, 2, 0);
      assert HexDigits(doc, p + 2, 2, 0) == HexDigits(doc, p + 3, 1, n / 16);
    }
    assert DecodeCodePoint(doc, p, end) == CodePoint(n, p + 4);
    assert CodePointToUtf8(n) == [c];
    assert ReadString(doc, cur) == ReadString(doc, p);
    assert ReadString(doc, p) == ReadString(doc, p + 1);
    assert ReadString(doc, p + 1) == ReadString(doc, p + 2);
    assert ReadString(doc, p + 2) == ReadString(doc, p + 3);
  }

  /** The decoder sees, in a printed character, the character itself. */
  lemma DecodeEscapedChar(doc: string, c: char, cur: nat, end: nat)
    requires c != '\0' && HasAt(doc, cur, EscapeChar(c)) && cur + |EscapeChar(c)| <= end < |doc|
    ensures DecodeText(doc, cur, end) == DecodeText(doc, cur + |EscapeChar(c)|, end).After([c])
    ensures ReadString(doc, cur) == ReadString(doc, cur + |EscapeChar(c)|)
  {
    hide DecodeText, ReadString;
    var e := EscapeChar(c);
    if HasShortEscape(c) {
      DecodeShortEscape(doc, c, cur, end);
    } else if IsControl(c) {
      ControlEscape(c);
      HasAtChar(doc, cur, e, 0);
      HasAtChar(doc, cur, e, 1);
      HasAtChar(doc, cur, e, 2);
      HasAtChar(doc, cur, e, 3);
      HasAtChar(doc, cur, e, 4);
      HasAtChar(doc, cur, e, 5);
      DecodeControl(doc, c, cur, end);
    } else {
      PlainEscape(c);
      HasAtChar(doc, cur, e, 0);
      DecodePlainChar(doc, c, cur, end);
    }
  }

  lemma PlainEscape(c: char)
    requires !IsControl(c) && !HasShortEscape(c)
    ensures EscapeChar(c) == [c]
  {
    EscapeOfPlain([c]);
    assert Escape([c]) == EscapeChar(c) + Escape([]);
  }

  lemma ReadClosingQuote(doc: string, cur: nat)
    requires HasAt(doc, cur, "\"")
    ensures ReadString(doc, cur) == Scan(true, cur + 1) && DecodeText(doc, cur, cur) == Text([])
  {
    HasAtChar(doc, cur, "\"", 0);
  }

  /** A printed string is one string token, and decodes to what was printed. */
  lemma {:induction false} ReadQuoted(doc: string, s: string, cur: nat)
    requires NulFree(s) && HasAt(doc, cur, Escape(s) + "\"")
    ensures var end := cur + |Escape(s)|;
      && end < |doc|
      && ReadString(doc, cur) == Scan(true, end + 1)
      && DecodeText(doc, cur, end) == Text(s)
  {
    hide EscapeChar, DecodeText, ReadString;
    HasAtSplit(doc, cur, Escape(s), "\"");
    var end := cur + |Escape(s)|;
    if s == [] {
      ReadClosingQuote(doc, cur);
    } else {
      var e, rest := EscapeChar(s[0]), Escape(s[1..]);
      assert s[0] in s;
      assert Escape(s) + "\"" == e + (rest + "\"");
      HasAtSplit(doc, cur, e, rest + "\"");
      ReadQuoted(doc, s[1..], cur + |e|);
      DecodeEscapedChar(doc, s[0], cur, end);
      assert [s[0]] + s[1..] == s;
    }
  }

  lemma {:induction false} ReadDigits(doc: string, p: nat, s: string)
    requires AllDigits(s) && HasAt(doc, p, s)
    requires p + |s| < |doc| ==> !IsNumberChar(doc[p + |s|])
    ensures ReadNumber(doc, p) == p + |s|
    decreases |s|
  {
    if s != [] {
      HasAtChar(doc, p, s, 0);
      assert s == [s[0]] + s[1..];
      HasAtSplit(doc, p, [s[0]], s[1..]);
      ReadDigits(doc, p + 1, s[1..]);
    }
  }
}
