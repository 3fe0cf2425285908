/** What the scanning functions of the lexical grammar find. */
module JsonLexical {
  import opened Decimals
  import opened JsonGrammar

  /** White space is skipped to its end and not beyond. */
  lemma {:induction false} SpacesEnd(doc: string, p: nat)
    requires p <= |doc|
    ensures var q := SkipSpaces(doc, p);
      && (forall i | p <= i < q :: doc[i] in " \t\r\n")
      && (q < |doc| ==> doc[q] !in " \t\r\n")
    decreases |doc| - p
  {
    if p < |doc| && IsSpace(doc[p]) {
      SpacesEnd(doc, p + 1);
    }
  }

  /** A number takes every number character up to the first other one. */
  lemma {:induction false} NumberEnd(doc: string, p: nat)
    requires p <= |doc|
    ensures var q := ReadNumber(doc, p);
      && (forall i | p <= i < q :: doc[i] in "0123456789.eE+-")
      && (q < |doc| ==> doc[q] !in "0123456789.eE+-")
    decreases |doc| - p
  {
    if p < |doc| && IsNumberChar(doc[p]) {
      NumberEnd(doc, p + 1);
    }
  }

  /** A C-style comment ends with the first star-slash, and is bad iff there is none. */
  lemma {:induction false} CStyleCommentEnd(doc: string, p: nat)
    requires p <= |doc|
    ensures ReadCStyleComment(doc, p).ok || ReadCStyleComment(doc, p).pos == |doc|
    ensures var r := ReadCStyleComment(doc, p);
      && (r.ok <==> exists i :: p <= i < |doc| - 1 && doc[i] == '*' && doc[i + 1] == '/')
      && (r.ok ==> p + 2 <= r.pos && doc[r.pos - 2] == '*' && doc[r.pos - 1] == '/')
      && (forall i | p <= i < (if r.ok then r.pos - 2 else |doc| - 1) :: !(doc[i] == '*' && doc[i + 1] == '/'))
    decreases |doc| - p
  {
    if p < |doc| && !(doc[p] == '*' && At(doc, p + 1) == '/') {
      CStyleCommentEnd(doc, p + 1);
    }
  }

  /** A C++-style comment ends after the first line end, or with the document. */
  lemma {:induction false} CppStyleCommentEnd(doc: string, p: nat)
    requires p <= |doc|
    ensures var q := ReadCppStyleComment(doc, p);
      && (forall i | p <= i < q - 1 :: doc[i] != '\r' && doc[i] != '\n')
      && (q < |doc| ==> p < q && (doc[q - 1] == '\r' || doc[q - 1] == '\n'))
    decreases |doc| - p
  {
    if p < |doc| && doc[p] != '\r' && doc[p] != '\n' {
      CppStyleCommentEnd(doc, p + 1);
    }
  }

  /** A star or a second slash makes a comment of either kind; anything else is bad, one character on. */
  lemma CommentKinds(doc: string, p: nat)
    requires p <= |doc|
    ensures var r, next := ReadComment(doc, p), At(doc, p);
      && (p < |doc| && next == '*' ==> r == ReadCStyleComment(doc, p + 1))
      && (p < |doc| && next == '/' ==> r.ok && r.pos == ReadCppStyleComment(doc, p + 1))
      && (p == |doc| || next !in "*/" ==> !r.ok && r.pos == if p == |doc| then p else p + 1)
  {
  }

  /** Position k is reached from p by stepping over single characters and over a backslash with its successor. */
  ghost predicate Steps(doc: string, p: nat, k: nat)
    requires p <= |doc|
    decreases |doc| - p
  {
    p == k ||
    (p < |doc| && doc[p] != '"' &&
     Steps(doc, if doc[p] == '\\' && p + 1 < |doc| then p + 2 else p + 1, k))
  }

  /** A string ends with the first quote that no backslash escapes, and is bad iff there is none. */
  lemma {:induction false} StringEnd(doc: string, p: nat)
    requires p <= |doc|
    ensures var r := ReadString(doc, p);
      && (r.ok ==> p < r.pos && doc[r.pos - 1] == '"' && Steps(doc, p, r.pos - 1))
      && (!r.ok ==> r.pos == |doc| && forall k: nat | k < |doc| && Steps(doc, p, k) :: doc[k] != '"')
    decreases |doc| - p
  {
    if p < |doc| && doc[p] != '"' {
      StringEnd(doc, if doc[p] == '\\' && p + 1 < |doc| then p + 2 else p + 1);
    }
  }

  const PUNCTUATION := "{}[],:"
  const PUNCTUATION_TYPES := [ObjectBegin, ObjectEnd, ArrayBegin, ArrayEnd, ArraySeparator, MemberSeparator]

  const LITERALS := ["true", "false", "null"]
  const LITERAL_TYPES := [TrueToken, FalseToken, NullToken]

  /** The text stands at position p. */
  ghost predicate StandsAt(doc: string, p: nat, s: string) { p + |s| <= |doc| && doc[p..p + |s|] == s }

  /** Where a token ends that starts at s < |doc|. */
  function TokenLimit(doc: string, s: nat, typ: TokenType): nat
    requires s < |doc|
  {
    match doc[s]
    case '\"' => ReadString(doc, s + 1).pos
    case '/' => ReadComment(doc, s + 1).pos
    case _ =>
      match typ
      case TrueToken => s + 4
      case FalseToken => s + 5
      case NullToken => s + 4
      case NumberToken => ReadNumber(doc, s + 1)
      case _ => s + 1
  }

  /** The next token starts behind the white space, is of the kind its first characters say, and ends where that kind
      ends; an error is one character, or a string or comment that does not end. */
  lemma TokenExactly(doc: string, p: nat)
    requires p <= |doc|
    ensures var t := ReadToken(doc, p); var s := t.start;
      && s == SkipSpaces(doc, p) && t.limit == (if s == |doc| then s else TokenLimit(doc, s, t.typ))
      && (t.typ == EndOfStream <==> At(doc, s) == '\0')
      && (forall k | 0 <= k < 6 :: t.typ == PUNCTUATION_TYPES[k] <==> s < |doc| && doc[s] == PUNCTUATION[k])
      && (forall k | 0 <= k < 3 :: t.typ == LITERAL_TYPES[k] <==> StandsAt(doc, s, LITERALS[k]))
      && (t.typ == NumberToken <==> s < |doc| && doc[s] in "-0123456789")
      && (t.typ == StringToken <==> s < |doc| && doc[s] == '\"' && ReadString(doc, s + 1).ok)
      && (t.typ == CommentToken <==> s < |doc| && doc[s] == '/' && ReadComment(doc, s + 1).ok)
  {
    hide SkipSpaces, ReadNumber, ReadString, ReadComment, TokenAt, IsDigit;
    var s := SkipSpaces(doc, p);
    if s < |doc| {
      PunctuationExactly(doc, s);
      LiteralsExactly(doc, s);
      OthersExactly(doc, s);
      FirstOfNumber(doc[s]);
    } else {
      assert forall k | 0 <= k < 3 :: |LITERALS[k]| > 0;
    }
  }

  lemma PunctuationExactly(doc: string, s: nat)
    requires s < |doc|
    ensures forall k | 0 <= k < 6 :: TokenAt(doc, s).typ == PUNCTUATION_TYPES[k] <==> doc[s] == PUNCTUATION[k]
  {
    hide ReadNumber, ReadString, ReadComment, Matches;
  }

  lemma LiteralsExactly(doc: string, s: nat)
    requires s < |doc|
    ensures forall k | 0 <= k < 3 :: TokenAt(doc, s).typ == LITERAL_TYPES[k] <==> StandsAt(doc, s, LITERALS[k])
  {
    hide ReadNumber, ReadString, ReadComment;
    LiteralAt(doc, s, "true");
    LiteralAt(doc, s, "false");
    LiteralAt(doc, s, "null");
  }

  lemma LiteralAt(doc: string, s: nat, literal: string)
    requires s < |doc| && literal != ""
    ensures StandsAt(doc, s, literal) <==> doc[s] == literal[0] && Matches(doc, s + 1, literal[1..])
  {
    if s + |literal| <= |doc| {
      assert doc[s..s + |literal|] == [doc[s]] + doc[s + 1..s + |literal|];
      assert literal == [literal[0]] + literal[1..];
      assert doc[s..s + |literal|][1..] == doc[s + 1..s + |literal|];
    }
  }

  lemma OthersExactly(doc: string, s: nat)
    requires s < |doc|
    ensures var t := TokenAt(doc, s);
      && t.start == s && t.limit == TokenLimit(doc, s, t.typ)
      && (t.typ == EndOfStream <==> doc[s] == '\0')
      && (t.typ == NumberToken <==> doc[s] == '-' || IsDigit(doc[s]))
      && (t.typ == StringToken <==> doc[s] == '\"' && ReadString(doc, s + 1).ok)
      && (t.typ == CommentToken <==> doc[s] == '/' && ReadComment(doc, s + 1).ok)
  {
    hide ReadNumber, ReadString, ReadComment, Matches;
  }

  lemma FirstOfNumber(c: char)
    ensures c in "-0123456789" <==> c == '-' || IsDigit(c)
  {
    hide IsDigit;
    DigitTable(c);
    assert "-0123456789" == ['-'] + "0123456789";
  }
}
