/** Json::Reader. Pointers into the document are offsets; nodes_ is a stack of values, a popped
    value being written back into the container it was taken from. */
module JsonReader {
  import opened JsonValue
  import opened Decimals
  import opened JsonText
  import opened JsonGrammar

  /** nodes_, the current value on top. */
  datatype Stack = Empty | Push(top: Value, below: Stack)

  class Reader {
    const scan: string -> bool  // which number texts sscanf("%lf") accepts
    var document: string
    var current: nat
    var nodes: Stack
    var errors: seq<ErrorInfo>

    constructor (scan: string -> bool)
      ensures this.scan == scan
    {
      this.scan := scan;
      document, current, nodes, errors := [], 0, Empty, [];
    }

    ghost predicate Valid()
      reads this
    {
      current <= |document| && nodes.Push?
    }

    function CurrentValue(): Value
      requires nodes.Push?
      reads this
    {
      nodes.top
    }

    method SetCurrentValue(v: Value)
      requires nodes.Push?
      modifies this`nodes
      ensures nodes == old(nodes).(top := v)
    {
      nodes := nodes.(top := v);
    }

    /** parse(document, root): `root` is the caller's value before and after. True iff no error was
        recorded; a failure records exactly one. The stack is left holding the root alone. */
    method ParseRoot(doc: string, root: Value) returns (ok: bool, root': Value)
      modifies this
      ensures document == doc && current <= |document|
      ensures nodes == Push(root', Empty)
      ensures var r := ParseDocument(scan, doc, root);
        ok == r.ok && root' == r.v && errors == r.errors
      ensures ok <==> errors == []
      ensures !ok ==> |errors| == 1
    {
      document := doc;
      current := 0;
      errors := [];
      while nodes.Push?
        invariant document == doc && current == 0 && errors == []
        decreases nodes
      {
        nodes := nodes.below;
      }
      nodes := Push(root, nodes);
      ok := ReadValue();
      var _ := SkipCommentTokens();
      root' := CurrentValue();
      OneError(scan, doc, 0, root);
    }

    method ReadValue() returns (ok: bool)
      requires Valid()
      modifies this`current, this`nodes, this`errors
      ensures Valid()
      ensures var r := ParseValue(scan, document, old(current), old(CurrentValue()));
        && ok == r.ok && current == r.pos
        && nodes == old(nodes).(top := r.v)
        && errors == old(errors) + r.errors
      decreases |document| - current, 1
    {
      hide NextToken, ParseMembers, ParseElements, DecodeNumber, DecodeText, SkipSpaces;
      var token := SkipCommentTokens();
      ok := true;
      if token.typ == ObjectBegin {
        ok := ReadObject(token);
        SetCurrentValue(CurrentValue().(limit := current));
      } else if token.typ == ArrayBegin {
        ok := ReadArray(token);
        SetCurrentValue(CurrentValue().(limit := current));
      } else if token.typ == NumberToken {
        ok := DecodeNumberToken(token);
      } else if token.typ == StringToken {
        ok := DecodeStringToken(token);
      } else if token.typ == TrueToken {
        SetCurrentValue(Value(Bool(true), token.start, token.limit));
      } else if token.typ == FalseToken {
        SetCurrentValue(Value(Bool(false), token.start, token.limit));
      } else if token.typ == NullToken {
        SetCurrentValue(Value(Null, token.start, token.limit));
      } else {
        SetCurrentValue(CurrentValue().(start := token.start, limit := token.limit));
        ok := AddError(VALUE_EXPECTED, token);
      }
    }

    /** Reads a value into the child of the current container under `key`: pushes the child, reads
        it, pops it. */
    method ReadChild(key: Key) returns (ok: bool)
      requires Valid() && IsContainer(CurrentValue())
      modifies this`current, this`nodes, this`errors
      ensures Valid()
      ensures var es := Entries(old(CurrentValue()));
        var r := ParseValue(scan, document, old(current), Get(es, key));
        && ok == r.ok && current == r.pos
        && nodes == old(nodes).(top := WithEntries(old(CurrentValue()), Put(es, key, r.v)))
        && errors == old(errors) + r.errors
      ensures ok ==> errors == old(errors)
      decreases |document| - current, 2
    {
      OneError(scan, document, current, Get(Entries(CurrentValue()), key));
      nodes := Push(Get(Entries(CurrentValue()), key), nodes);
      ok := ReadValue();
      var child := CurrentValue();
      nodes := nodes.below;
      SetCurrentValue(WithEntries(CurrentValue(), Put(Entries(CurrentValue()), key, child)));
    }

    method SkipCommentTokens() returns (token: Token)
      requires Valid()
      modifies this`current
      ensures token == NextToken(document, old(current)) && current == token.limit
    {
      token := ReadOneToken();
      while token.typ == CommentToken
        invariant current == token.limit <= |document|
        invariant token.typ == CommentToken ==> token.start < token.limit
        invariant NextToken(document, old(current)) ==
          if token.typ == CommentToken then NextToken(document, current) else token
        decreases |document| - current, token.typ == CommentToken
      {
        token := ReadOneToken();
      }
    }

    /** readToken, which always returns true. */
    method ReadOneToken() returns (token: Token)
      requires Valid()
      modifies this`current
      ensures token == ReadToken(document, old(current)) && current == token.limit
    {
      SkipSpacesInput();
      var start := current;
      var c := GetNextChar();
      var typ := ErrorToken;
      var ok := true;
      match c {
        case '{' => typ := ObjectBegin;
        case '}' => typ := ObjectEnd;
        case '[' => typ := ArrayBegin;
        case ']' => typ := ArrayEnd;
        case '\"' => typ := StringToken; ok := ReadStringBody();
        case '/' => typ := CommentToken; ok := ReadCommentBody();
        case 't' => typ := TrueToken; ok := Match("rue");
        case 'f' => typ := FalseToken; ok := Match("alse");
        case 'n' => typ := NullToken; ok := Match("ull");
        case ',' => typ := ArraySeparator;
        case ':' => typ := MemberSeparator;
        case '\0' => typ := EndOfStream;
        case _ =>
          if IsDigit(c) || c == '-' {
            typ := NumberToken;
            ReadNumberBody();
          } else {
            ok := false;
          }
      }
      token := Token(if ok then typ else ErrorToken, start, current);
    }

    method GetNextChar() returns (c: char)
      requires current <= |document|
      modifies this`current
      ensures c == At(document, old(current))
      ensures current == if old(current) < |document| then old(current) + 1 else old(current)
    {
      if current == |document| { return '\0'; }
      c := document[current];
      current := current + 1;
    }

    method SkipSpacesInput()
      requires current <= |document|
      modifies this`current
      ensures current == SkipSpaces(document, old(current))
    {
      while current != |document|
        invariant current <= |document|
        invariant SkipSpaces(document, old(current)) == SkipSpaces(document, current)
        decreases |document| - current
      {
        if !IsSpace(document[current]) { break; }
        current := current + 1;
      }
    }

    method Match(pattern: string) returns (ok: bool)
      requires current <= |document|
      modifies this`current
      ensures ok == Matches(document, old(current), pattern)
      ensures current == if ok then old(current) + |pattern| else old(current)
    {
      if |document| - current < |pattern| { return false; }
      var index := |pattern|;
      while index > 0
        invariant 0 <= index <= |pattern| && current == old(current)
        invariant document[current + index..current + |pattern|] == pattern[index..]
      {
        index := index - 1;
        if document[current + index] != pattern[index] {
          assert document[current..current + |pattern|][index] != pattern[index];
          return false;
        }
        assert document[current + index..current + |pattern|] ==
          [document[current + index]] + document[current + index + 1..current + |pattern|];
        assert pattern[index..] == [pattern[index]] + pattern[index + 1..];
      }
      current := current + |pattern|;
      ok := true;
    }

    method ReadCommentBody() returns (ok: bool)
      requires current <= |document|
      modifies this`current
      ensures Scan(ok, current) == ReadComment(document, old(current))
    {
      var c := GetNextChar();
      ok := false;
      if c == '*' {
        ok := ReadCStyleCommentBody();
      } else if c == '/' {
        ReadCppStyleCommentBody();
        ok := true;
      }
    }

    method ReadCStyleCommentBody() returns (ok: bool)
      requires current <= |document|
      modifies this`current
      ensures Scan(ok, current) == ReadCStyleComment(document, old(current))
    {
      while current != |document|
        invariant current <= |document|
        invariant ReadCStyleComment(document, old(current)) == ReadCStyleComment(document, current)
        decreases |document| - current
      {
        var c := GetNextChar();
        if c == '*' && At(document, current) == '/' { break; }
      }
      var last := GetNextChar();
      ok := last == '/';
    }

    method ReadCppStyleCommentBody()
      requires current <= |document|
      modifies this`current
      ensures current == ReadCppStyleComment(document, old(current))
    {
      while current != |document|
        invariant current <= |document|
        invariant ReadCppStyleComment(document, old(current)) == ReadCppStyleComment(document, current)
        decreases |document| - current
      {
        var c := GetNextChar();
        if c == '\r' || c == '\n' { break; }
      }
    }

    method ReadNumberBody()
      requires current <= |document|
      modifies this`current
      ensures current == ReadNumber(document, old(current))
    {
      while current != |document|
        invariant current <= |document|
        invariant ReadNumber(document, old(current)) == ReadNumber(document, current)
        decreases |document| - current
      {
        if !IsNumberChar(document[current]) { break; }
        current := current + 1;
      }
    }

    method ReadStringBody() returns (ok: bool)
      requires current <= |document|
      modifies this`current
      ensures Scan(ok, current) == ReadString(document, old(current))
    {
      var c := '\0';
      while current != |document|
        invariant current <= |document| && c != '\"'
        invariant ReadString(document, old(current)) == ReadString(document, current)
        decreases |document| - current
      {
        c := GetNextChar();
        if c == '\\' {
          var _ := GetNextChar();
        } else if c == '\"' {
          break;
        }
      }
      ok := c == '\"';
    }

    method ReadObject(tokenStart: Token) returns (ok: bool)
      requires Valid()
      modifies this`current, this`nodes, this`errors
      ensures Valid()
      ensures var r := ParseMembers(scan, document, old(current), [], "");
        && ok == r.ok && current == r.pos
        && nodes == old(nodes).(top := Value(Object(r.entries), tokenStart.start, 0))
        && errors == old(errors) + r.errors
      decreases |document| - current, 5
    {
      var name := "";
      SetCurrentValue(Value(Object([]), tokenStart.start, 0));
      ghost var r := ParseMembers(scan, document, current, [], "");
      ghost var es: seq<Entry> := [];
      while true
        invariant Valid() && old(current) <= current
        invariant nodes == old(nodes).(top := Value(Object(es), tokenStart.start, 0))
        invariant errors == old(errors)
        invariant r == ParseMembers(scan, document, current, es, name)
        decreases |document| - current
      {
        var tokenName := SkipCommentTokens();
        if tokenName.typ == ObjectEnd && name == "" { return true; }
        if tokenName.typ != StringToken {
          ok := AddErrorAndRecover(NAME_EXPECTED, tokenName, ObjectEnd);
          return;
        }
        var more;
        more, ok, name := ReadMember(tokenName);
        es := Entries(CurrentValue());
        if !more { return; }
      }
    }

    /** One round of readObject's loop, from a name token on: `more` when the loop goes on. */
    method ReadMember(tokenName: Token) returns (more: bool, ok: bool, name: string)
      requires Valid() && CurrentValue().data.Object? && current == tokenName.limit
      requires tokenName.start + 2 <= tokenName.limit
      modifies this`current, this`nodes, this`errors
      ensures Valid()
      ensures match ParseMember(scan, document, tokenName, old(CurrentValue().data.members))
        case Over(r) =>
          !more && ok == r.ok && current == r.pos && errors == old(errors) + r.errors &&
          nodes == old(nodes).(top := WithEntries(old(CurrentValue()), r.entries))
        case More(es, q, n) =>
          more && current == q && name == n && errors == old(errors) &&
          nodes == old(nodes).(top := WithEntries(old(CurrentValue()), es))
      decreases |document| - current, 4
    {
      hide TokenAt, DecodeText, ReadToken, NextToken, ParseValue, Put, Get, EndMember, Recover;
      more, name := false, "";
      var decoded := DecodeStringText(tokenName);
      if decoded.BadText? {
        ok := RecoverFromError(ObjectEnd);
        return;
      }
      name := decoded.text;
      var colon := ReadOneToken();
      if colon.typ != MemberSeparator {
        ok := AddErrorAndRecover(COLON_EXPECTED, colon, ObjectEnd);
        return;
      }
      ok := ReadChild(Name(CString(name)));
      if !ok {
        ok := RecoverFromError(ObjectEnd);
        return;
      }
      more, ok := ReadMemberEnd(name);
    }

    method ReadMemberEnd(ghost name: string) returns (more: bool, ok: bool)
      requires Valid() && CurrentValue().data.Object?
      modifies this`current, this`errors
      ensures Valid()
      ensures match EndMember(document, old(current), CurrentValue().data.members, name)
        case Over(r) =>
          !more && ok == r.ok && current == r.pos && errors == old(errors) + r.errors &&
          r.entries == CurrentValue().data.members
        case More(es, q, n) =>
          more && current == q && n == name && errors == old(errors) && es == CurrentValue().data.members
    {
      more, ok := false, true;
      var comma := ReadOneToken();
      if comma.typ != ObjectEnd && comma.typ != ArraySeparator && comma.typ != CommentToken {
        ok := AddErrorAndRecover(MEMBER_END_EXPECTED, comma, ObjectEnd);
        return;
      }
      if comma.typ == CommentToken {
        comma := SkipCommentTokens();
      }
      more := comma.typ != ObjectEnd;
    }

    method ReadArray(tokenStart: Token) returns (ok: bool)
      requires Valid()
      modifies this`current, this`nodes, this`errors
      ensures Valid()
      ensures var q := SkipSpaces(document, old(current));
        var r := if At(document, q) == ']' then Container(true, [], q + 1, [])
                 else ParseElements(scan, document, q, [], 0);
        && ok == r.ok && current == r.pos
        && nodes == old(nodes).(top := Value(Array(r.entries), tokenStart.start, 0))
        && errors == old(errors) + r.errors
      decreases |document| - current, 3
    {
      SetCurrentValue(Value(Array([]), tokenStart.start, 0));
      SkipSpacesInput();
      if At(document, current) == ']' {
        var _ := ReadOneToken();
        return true;
      }
      var index := 0;
      ghost var r := ParseElements(scan, document, current, [], 0);
      ghost var es: seq<Entry> := [];
      while true
        invariant Valid() && old(current) <= current
        invariant nodes == old(nodes).(top := Value(Array(es), tokenStart.start, 0))
        invariant errors == old(errors)
        invariant r == ParseElements(scan, document, current, es, index)
        decreases |document| - current
      {
        var key := Index(index);
        index := index + 1;
        ok := ReadChild(key);
        es := Entries(CurrentValue());
        if !ok {
          ok := RecoverFromError(ArrayEnd);
          return;
        }
        var token := SkipCommentTokens();
        if token.typ != ArraySeparator && token.typ != ArrayEnd {
          ok := AddErrorAndRecover(ELEMENT_END_EXPECTED, token, ArrayEnd);
          return;
        }
        if token.typ == ArrayEnd { return true; }
      }
    }

    /** decodeNumber(Token&) */
    method DecodeNumberToken(token: Token) returns (ok: bool)
      requires nodes.Push? && token.start < token.limit <= |document|
      modifies this`nodes, this`errors
      ensures var n := DecodeNumber(scan, TokenText(document, token));
        ok == n.Decoded? &&
        (match n
         case Decoded(d) =>
           nodes == old(nodes).(top := Value(d, token.start, token.limit)) && errors == old(errors)
         case NotANumber =>
           nodes == old(nodes) &&
           errors == old(errors) + [ErrorInfo(token, NotANumberMessage(TokenText(document, token)))])
    {
      var decoded := DecodeNumberText(TokenText(document, token));
      match decoded {
        case Decoded(d) =>
          SetCurrentValue(Value(d, token.start, token.limit));
          ok := true;
        case NotANumber =>
          ok := AddError(NotANumberMessage(TokenText(document, token)), token);
      }
    }

    /** decodeNumber(Token&, Value&); every number computed on the way is at most 2^64 - 1. */
    method DecodeNumberText(text: string) returns (decoded: Number)
      requires text != []
      ensures decoded == DecodeNumber(scan, text)
    {
      var isDouble := false;
      for inspect := 0 to |text|
        invariant isDouble <==> exists i :: 0 <= i < inspect && (text[i] in ".eE+" || (text[i] == '-' && i != 0))
      {
        isDouble := isDouble || text[inspect] in ".eE+" || (text[inspect] == '-' && inspect != 0);
      }
      if isDouble { return DecodeReal(scan, text); }
      var isNegative := text[0] == '-';
      var inspect := if isNegative then 1 else 0;
      var maxIntegerValue := IntegerLimit(isNegative);
      var threshold := maxIntegerValue / 10;
      var value: nat := 0;
      ghost var all := Accumulate(text[inspect..], maxIntegerValue, 0);
      while inspect < |text|
        invariant inspect <= |text| && value <= maxIntegerValue <= MAX_LARGEST_UINT
        invariant all == Accumulate(text[inspect..], maxIntegerValue, value)
      {
        var c := text[inspect];
        assert text[inspect..][1..] == text[inspect + 1..];
        inspect := inspect + 1;
        if !IsDigit(c) { return NotANumber; }
        var digit := DigitValue(c);
        if value >= threshold {
          if value > threshold || inspect != |text| || digit > maxIntegerValue % 10 {
            return DecodeReal(scan, text);
          }
        }
        value := value * 10 + digit;
      }
      assert text[0..] == text;
      assert text[|text|..] == [];
      decoded := Decoded(if isNegative then Int(0 - value) else if value <= MAX_INT then Int(value) else UInt(value));
    }

    /** decodeString(Token&) */
    method DecodeStringToken(token: Token) returns (ok: bool)
      requires nodes.Push? && token.start + 2 <= token.limit <= |document|
      modifies this`nodes, this`errors
      ensures match DecodeString(document, token)
        case Text(s) =>
          ok && nodes == old(nodes).(top := Value(Str(CString(s)), token.start, token.limit)) &&
          errors == old(errors)
        case BadText(m) =>
          !ok && nodes == old(nodes) && errors == old(errors) + [ErrorInfo(token, m)]
    {
      var decoded := DecodeStringText(token);
      ok := decoded.Text?;
      if ok { SetCurrentValue(Value(Str(CString(decoded.text)), token.start, token.limit)); }
    }

    /** decodeString(Token&, std::string&) */
    method DecodeStringText(token: Token) returns (decoded: Text)
      requires token.start + 2 <= token.limit <= |document|
      modifies this`errors
      ensures decoded == DecodeString(document, token)
      ensures errors == old(errors) + match decoded case Text(_) => [] case BadText(m) => [ErrorInfo(token, m)]
    {
      hide DecodeCodePoint, CodePointToUtf8;
      var text := "";
      var inspect := token.start + 1;
      var end := token.limit - 1;
      ghost var all := DecodeText(document, inspect, end);
      while inspect != end
        invariant token.start < inspect <= end && errors == old(errors)
        invariant all == DecodeText(document, inspect, end).After(text)
        decreases end - inspect
      {
        var c := document[inspect];
        inspect := inspect + 1;
        if c == '\"' {
          break;
        } else if c == '\\' {
          if inspect == end {
            var _ := AddError(EMPTY_ESCAPE, token);
            return BadText(EMPTY_ESCAPE);
          }
          var escape := document[inspect];
          inspect := inspect + 1;
          if escape == 'u' {
            match DecodeCodePoint(document, inspect, end) {
              case BadCodePoint(m) =>
                var _ := AddError(m, token);
                return BadText(m);
              case CodePoint(cp, next) =>
                AfterAppends(DecodeText(document, next, end), text, CodePointToUtf8(cp));
                text := text + CodePointToUtf8(cp);
                inspect := next;
            }
          } else if ShortEscape(escape) == [] {
            var _ := AddError(BAD_ESCAPE, token);
            return BadText(BAD_ESCAPE);
          } else {
            AfterAppends(DecodeText(document, inspect, end), text, ShortEscape(escape));
            text := text + ShortEscape(escape);
          }
        } else {
          AfterAppends(DecodeText(document, inspect, end), text, [c]);
          text := text + [c];
        }
      }
      assert text + [] == text;
      decoded := Text(text);
    }

    method AddError(message: string, token: Token) returns (ok: bool)
      modifies this`errors
      ensures !ok && errors == old(errors) + [ErrorInfo(token, message)]
    {
      errors := errors + [ErrorInfo(token, message)];
      ok := false;
    }

    method RecoverFromError(skipUntil: TokenType) returns (ok: bool)
      requires Valid()
      modifies this`current, this`errors
      ensures !ok && Valid() && errors == old(errors)
      ensures current == Recover(document, old(current), skipUntil)
    {
      var errorCount := |errors|;
      while true
        invariant current <= |document| && errors == old(errors)
        invariant Recover(document, old(current), skipUntil) == Recover(document, current, skipUntil)
        decreases |document| - current
      {
        var skip := ReadOneToken();
        if skip.typ == skipUntil || skip.typ == EndOfStream { break; }
      }
      errors := errors[..errorCount];
      ok := false;
    }

    method AddErrorAndRecover(message: string, token: Token, skipUntil: TokenType) returns (ok: bool)
      requires Valid()
      modifies this`current, this`errors
      ensures !ok && Valid() && errors == old(errors) + [ErrorInfo(token, message)]
      ensures current == Recover(document, old(current), skipUntil)
    {
      var _ := AddError(message, token);
      ok := RecoverFromError(skipUntil);
    }
  }

  predicate IsContainer(v: Value) { v.data.Array? || v.data.Object? }

  function Entries(v: Value): seq<Entry>
    requires IsContainer(v)
  {
    if v.data.Array? then v.data.elems else v.data.members
  }

  function WithEntries(v: Value, es: seq<Entry>): (r: Value)
    requires IsContainer(v)
    ensures IsContainer(r) && Entries(r) == es
  {
    v.(data := if v.data.Array? then Array(es) else Object(es))
  }

  lemma AfterAppends(rest: Text, text: string, more: string)
    ensures rest.After(more).After(text) == rest.After(text + more)
  {
    if rest.Text? { assert text + (more + rest.text) == (text + more) + rest.text; }
  }
}
