/** What Json::Reader computes, as functions of a document and a position: the tokens, and the
    recursive descent with its error recovery (default features, no comment collection).
    JsonReader proves the reader's methods equal to these functions. */
module JsonGrammar {
  import opened JsonValue
  import opened Decimals
  import opened JsonText

  datatype TokenType =
    | ObjectBegin | ObjectEnd | ArrayBegin | ArrayEnd | StringToken | NumberToken
    | TrueToken | FalseToken | NullToken | ArraySeparator | MemberSeparator
    | CommentToken | EndOfStream | ErrorToken

  datatype Token = Token(typ: TokenType, start: nat, limit: nat)

  datatype ErrorInfo = ErrorInfo(token: Token, message: string)

  // ---------- characters ----------

  /** *p for a pointer into the NUL-terminated document. */
  function At(doc: string, p: nat): char { if p < |doc| then doc[p] else '\0' }

  predicate IsSpace(c: char) { c == ' ' || c == '\t' || c == '\r' || c == '\n' }

  /** What readNumber takes, after its first character, as part of the number. */
  predicate IsNumberChar(c: char) { IsDigit(c) || c in ".eE+-" }

  // ---------- lexer ----------

  function SkipSpaces(doc: string, p: nat): (q: nat)
    requires p <= |doc|
    ensures p <= q <= |doc|
    ensures q < |doc| ==> !IsSpace(doc[q])
    decreases |doc| - p
  {
    if p < |doc| && IsSpace(doc[p]) then SkipSpaces(doc, p + 1) else p
  }

  function ReadNumber(doc: string, p: nat): (q: nat)
    requires p <= |doc|
    ensures p <= q <= |doc|
    decreases |doc| - p
  {
    if p < |doc| && IsNumberChar(doc[p]) then ReadNumber(doc, p + 1) else p
  }

  /** A scan that may fail: the flag, and where it stopped. */
  datatype Scan = Scan(ok: bool, pos: nat)

  /** readString from p, the last character read before p not being a quote. */
  function ReadString(doc: string, p: nat): (r: Scan)
    requires p <= |doc|
    ensures p <= r.pos <= |doc|
    ensures r.ok ==> p < r.pos && doc[r.pos - 1] == '\"'
    decreases |doc| - p
  {
    if p == |doc| then Scan(false, p)
    else if doc[p] == '\\' then ReadString(doc, if p + 1 < |doc| then p + 2 else p + 1)
    else if doc[p] == '\"' then Scan(true, p + 1)
    else ReadString(doc, p + 1)
  }

  function ReadCStyleComment(doc: string, p: nat): (r: Scan)
    requires p <= |doc|
    ensures p <= r.pos <= |doc|
    decreases |doc| - p
  {
    if p == |doc| then Scan(false, p)
    else if doc[p] == '*' && At(doc, p + 1) == '/' then Scan(true, p + 2)
    else ReadCStyleComment(doc, p + 1)
  }

  function ReadCppStyleComment(doc: string, p: nat): (q: nat)
    requires p <= |doc|
    ensures p <= q <= |doc|
    decreases |doc| - p
  {
    if p == |doc| then p
    else if doc[p] == '\r' || doc[p] == '\n' then p + 1
    else ReadCppStyleComment(doc, p + 1)
  }

  /** readComment, p just after the first slash. */
  function ReadComment(doc: string, p: nat): (r: Scan)
    requires p <= |doc|
    ensures p <= r.pos <= |doc|
  {
    if p == |doc| then Scan(false, p)
    else if doc[p] == '*' then ReadCStyleComment(doc, p + 1)
    else if doc[p] == '/' then Scan(true, ReadCppStyleComment(doc, p + 1))
    else Scan(false, p + 1)
  }

  predicate Matches(doc: string, p: nat, pattern: string)
    requires p <= |doc|
  {
    |pattern| <= |doc| - p && doc[p..p + |pattern|] == pattern
  }

  function MatchToken(doc: string, start: nat, pattern: string, typ: TokenType): Token
    requires start < |doc|
  {
    if Matches(doc, start + 1, pattern) then Token(typ, start, start + 1 + |pattern|)
    else Token(ErrorToken, start, start + 1)
  }

  function ScanToken(start: nat, scan: Scan, typ: TokenType): Token {
    Token(if scan.ok then typ else ErrorToken, start, scan.pos)
  }

  /** The token that starts exactly at p. */
  function TokenAt(doc: string, p: nat): (t: Token)
    requires p < |doc|
    ensures t.start == p && p < t.limit <= |doc|
  {
    match doc[p]
    case '{' => Token(ObjectBegin, p, p + 1)
    case '}' => Token(ObjectEnd, p, p + 1)
    case '[' => Token(ArrayBegin, p, p + 1)
    case ']' => Token(ArrayEnd, p, p + 1)
    case ',' => Token(ArraySeparator, p, p + 1)
    case ':' => Token(MemberSeparator, p, p + 1)
    case '\0' => Token(EndOfStream, p, p + 1)
    case '\"' => ScanToken(p, ReadString(doc, p + 1), StringToken)
    case '/' => ScanToken(p, ReadComment(doc, p + 1), CommentToken)
    case 't' => MatchToken(doc, p, "rue", TrueToken)
    case 'f' => MatchToken(doc, p, "alse", FalseToken)
    case 'n' => MatchToken(doc, p, "ull", NullToken)
    case c =>
      if IsDigit(c) || c == '-' then Token(NumberToken, p, ReadNumber(doc, p + 1))
      else Token(ErrorToken, p, p + 1)
  }

  function ReadToken(doc: string, p: nat): (t: Token)
    requires p <= |doc|
    ensures p <= t.start <= t.limit <= |doc|
    ensures t.start == t.limit ==> t.typ == EndOfStream && t.limit == |doc|
    ensures t.typ == StringToken ==> t.start + 2 <= t.limit
  {
    var q := SkipSpaces(doc, p);
    if q == |doc| then Token(EndOfStream, q, q) else TokenAt(doc, q)
  }

  /** skipCommentTokens: the first token from p that is not a comment. */
  function NextToken(doc: string, p: nat): (t: Token)
    requires p <= |doc|
    ensures p <= t.start <= t.limit <= |doc|
    ensures t.typ != CommentToken
    ensures t.start == t.limit ==> t.typ == EndOfStream && t.limit == |doc|
    ensures t.typ == StringToken ==> t.start + 2 <= t.limit
    decreases |doc| - p
  {
    var t := ReadToken(doc, p);
    if t.typ == CommentToken then NextToken(doc, t.limit) else t
  }

  /** recoverFromError: skips through the next token of the given type. */
  function Recover(doc: string, p: nat, skipUntil: TokenType): (q: nat)
    requires p <= |doc|
    ensures p <= q <= |doc|
    decreases |doc| - p
  {
    var t := ReadToken(doc, p);
    if t.typ == skipUntil || t.typ == EndOfStream then t.limit else Recover(doc, t.limit, skipUntil)
  }

  // ---------- parser ----------

  const VALUE_EXPECTED := "Syntax error: value, object or array expected."
  const COLON_EXPECTED := "Missing ':' after object member name"
  const MEMBER_END_EXPECTED := "Missing ',' or '}' in object declaration"
  const NAME_EXPECTED := "Missing '}' or object member name"
  const ELEMENT_END_EXPECTED := "Missing ',' or ']' in array declaration"

  function NotANumberMessage(t: string): string { "'" + t + "' is not a number." }

  /** Outcome of reading a value: success, the current value, the position, the errors recorded. */
  datatype Parse = Parse(ok: bool, v: Value, pos: nat, errors: seq<ErrorInfo>)

  function TokenText(doc: string, t: Token): string
    requires t.start <= t.limit <= |doc|
  {
    doc[t.start..t.limit]
  }

  /** decodeString(Token&, std::string&): the text between the quotes of a string token. */
  function DecodeString(doc: string, t: Token): Text
    requires t.start + 2 <= t.limit <= |doc|
  {
    DecodeText(doc, t.start + 1, t.limit - 1)
  }

  /** readValue, `cur` being what the current value holds before. */
  function ParseValue(scan: string -> bool, doc: string, p: nat, cur: Value): (r: Parse)
    requires p <= |doc|
    ensures p <= r.pos <= |doc|
    decreases |doc| - p, 1
  {
    var t := NextToken(doc, p);
    match t.typ
    case ObjectBegin =>
      var r := ParseMembers(scan, doc, t.limit, [], "");
      Parse(r.ok, Value(Object(r.entries), t.start, r.pos), r.pos, r.errors)
    case ArrayBegin =>
      var q := SkipSpaces(doc, t.limit);
      if At(doc, q) == ']' then
        Parse(true, Value(Array([]), t.start, q + 1), q + 1, [])
      else
        var r := ParseElements(scan, doc, q, [], 0);
        Parse(r.ok, Value(Array(r.entries), t.start, r.pos), r.pos, r.errors)
    case NumberToken =>
      (match DecodeNumber(scan, TokenText(doc, t))
       case Decoded(d) => Parse(true, Value(d, t.start, t.limit), t.limit, [])
       case NotANumber =>
         Parse(false, cur, t.limit, [ErrorInfo(t, NotANumberMessage(TokenText(doc, t)))]))
    case StringToken =>
      (match DecodeString(doc, t)
       case Text(s) => Parse(true, Value(Str(CString(s)), t.start, t.limit), t.limit, [])
       case BadText(m) => Parse(false, cur, t.limit, [ErrorInfo(t, m)]))
    case TrueToken => Parse(true, Value(Bool(true), t.start, t.limit), t.limit, [])
    case FalseToken => Parse(true, Value(Bool(false), t.start, t.limit), t.limit, [])
    case NullToken => Parse(true, Value(Null, t.start, t.limit), t.limit, [])
    case _ =>
      Parse(false, cur.(start := t.start, limit := t.limit), t.limit, [ErrorInfo(t, VALUE_EXPECTED)])
  }

  /** Outcome of reading the members or elements of a container. */
  datatype Container = Container(ok: bool, entries: seq<Entry>, pos: nat, errors: seq<ErrorInfo>)

  /** addErrorAndRecover */
  function FailContainer(
    doc: string, es: seq<Entry>, token: Token, message: string, skipUntil: TokenType): (r: Container)
    requires token.limit <= |doc|
    ensures token.limit <= r.pos <= |doc|
  {
    Container(false, es, Recover(doc, token.limit, skipUntil), [ErrorInfo(token, message)])
  }

  /** One round of readObject's loop: over, or another member may follow at pos. */
  datatype Member = Over(result: Container) | More(entries: seq<Entry>, pos: nat, name: string)

  /** readObject's loop: `es` is what was read so far, `name` the name read last. */
  function ParseMembers(scan: string -> bool, doc: string, p: nat, es: seq<Entry>, name: string): (r: Container)
    requires p <= |doc|
    ensures p <= r.pos <= |doc|
    decreases |doc| - p, 0
  {
    var t := NextToken(doc, p);
    if t.typ == ObjectEnd && name == "" then Container(true, es, t.limit, [])
    else if t.typ != StringToken then FailContainer(doc, es, t, NAME_EXPECTED, ObjectEnd)
    else
      match ParseMember(scan, doc, t, es)
      case Over(r) => r
      case More(es', q, name') => ParseMembers(scan, doc, q, es', name')
  }

  /** The member whose name is the string token t, through the token that ends it. */
  function ParseMember(scan: string -> bool, doc: string, t: Token, es: seq<Entry>): (r: Member)
    requires t.start + 2 <= t.limit <= |doc|
    ensures var q := match r case Over(c) => c.pos case More(_, q, _) => q; t.limit <= q <= |doc|
    decreases |doc| - t.limit, 3
  {
    match DecodeString(doc, t)
    case BadText(m) => Over(Container(false, es, Recover(doc, t.limit, ObjectEnd), [ErrorInfo(t, m)]))
    case Text(name) =>
      var colon := ReadToken(doc, t.limit);
      if colon.typ != MemberSeparator then Over(FailContainer(doc, es, colon, COLON_EXPECTED, ObjectEnd))
      else
        var key := Name(CString(name));
        var r := ParseValue(scan, doc, colon.limit, Get(es, key));
        var es' := Put(es, key, r.v);
        if !r.ok then Over(Container(false, es', Recover(doc, r.pos, ObjectEnd), r.errors))
        else EndMember(doc, r.pos, es', name)
  }

  /** The token after a member's value ends the object or lets another member follow. */
  function EndMember(doc: string, p: nat, es: seq<Entry>, name: string): (r: Member)
    requires p <= |doc|
    ensures var q := match r case Over(c) => c.pos case More(_, q, _) => q; p <= q <= |doc|
  {
    var comma := ReadToken(doc, p);
    if comma.typ != ObjectEnd && comma.typ != ArraySeparator && comma.typ != CommentToken then
      Over(FailContainer(doc, es, comma, MEMBER_END_EXPECTED, ObjectEnd))
    else
      // after a comment, whatever token follows takes the place of the comma
      var last := if comma.typ == CommentToken then NextToken(doc, comma.limit) else comma;
      if last.typ == ObjectEnd then Over(Container(true, es, last.limit, []))
      else More(es, last.limit, name)
  }

  /** readArray's loop: element `index` is next. */
  function ParseElements(scan: string -> bool, doc: string, p: nat, es: seq<Entry>, index: nat): (r: Container)
    requires p <= |doc|
    ensures p <= r.pos <= |doc|
    decreases |doc| - p, 2
  {
    var key := Index(index);
    var r := ParseValue(scan, doc, p, Get(es, key));
    var es' := Put(es, key, r.v);
    if !r.ok then Container(false, es', Recover(doc, r.pos, ArrayEnd), r.errors)
    else
      var t := NextToken(doc, r.pos);
      if t.typ == ArrayEnd then Container(true, es', t.limit, [])
      else if t.typ != ArraySeparator then FailContainer(doc, es', t, ELEMENT_END_EXPECTED, ArrayEnd)
      else ParseElements(scan, doc, t.limit, es', index + 1)
  }

  /** parse: the first value of the document, whatever follows it. */
  function ParseDocument(scan: string -> bool, doc: string, root: Value): Parse {
    ParseValue(scan, doc, 0, root)
  }

  // ---------- parse outcome ----------

  /** A parse succeeds with no error or fails with exactly one, however deep the recovery. */
  lemma {:induction false} OneError(scan: string -> bool, doc: string, p: nat, cur: Value)
    requires p <= |doc|
    ensures var r := ParseValue(scan, doc, p, cur); |r.errors| == if r.ok then 0 else 1
    decreases |doc| - p, 1
  {
    var t := NextToken(doc, p);
    if t.typ == ObjectBegin {
      OneErrorMembers(scan, doc, t.limit, [], "");
    } else if t.typ == ArrayBegin {
      OneErrorElements(scan, doc, SkipSpaces(doc, t.limit), [], 0);
    }
  }

  lemma {:induction false} OneErrorMembers(scan: string -> bool, doc: string, p: nat, es: seq<Entry>, name: string)
    requires p <= |doc|
    ensures var r := ParseMembers(scan, doc, p, es, name); |r.errors| == if r.ok then 0 else 1
    decreases |doc| - p, 0
  {
    var t := NextToken(doc, p);
    if t.typ == StringToken {
      if DecodeString(doc, t).Text? {
        var colon := ReadToken(doc, t.limit);
        OneError(scan, doc, colon.limit, Get(es, Name(CString(DecodeString(doc, t).text))));
      }
      var m := ParseMember(scan, doc, t, es);
      if m.More? { OneErrorMembers(scan, doc, m.pos, m.entries, m.name); }
    }
  }

  lemma {:induction false} OneErrorElements(scan: string -> bool, doc: string, p: nat, es: seq<Entry>, index: nat)
    requires p <= |doc|
    ensures var r := ParseElements(scan, doc, p, es, index); |r.errors| == if r.ok then 0 else 1
    decreases |doc| - p, 2
  {
    var r := ParseValue(scan, doc, p, Get(es, Index(index)));
    OneError(scan, doc, p, Get(es, Index(index)));
    var t := NextToken(doc, r.pos);
    if t.typ == ArraySeparator {
      OneErrorElements(scan, doc, t.limit, Put(es, Index(index), r.v), index + 1);
    }
  }
}
