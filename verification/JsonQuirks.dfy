/** Where Json::Reader departs from the JSON grammar, each with the exact condition. */
module JsonQuirks {
  import opened Decimals
  import opened JsonValue
  import opened JsonText
  import opened JsonGrammar
  import opened JsonUnicode

  /** A closing brace where a member name is expected ends the object exactly when the name read last is empty:
      no member was read yet, or the last one was named "". */
  lemma BraceForName(scan: string -> bool, doc: string, p: nat, es: seq<Entry>, name: string)
    requires p <= |doc| && NextToken(doc, p).typ == ObjectEnd
    ensures var r := ParseMembers(scan, doc, p, es, name);
      && (r.ok <==> name == "")
      && (r.ok ==> r.entries == es && r.pos == NextToken(doc, p).limit)
  {
  }

  /** After a member another one may follow exactly when a comma comes next, or a comment and then anything but a
      closing brace. */
  lemma TokenForComma(doc: string, p: nat, es: seq<Entry>, name: string)
    requires p <= |doc|
    ensures var t := ReadToken(doc, p);
      EndMember(doc, p, es, name).More? <==>
      t.typ == ArraySeparator || (t.typ == CommentToken && NextToken(doc, t.limit).typ != ObjectEnd)
  {
    hide ReadToken, NextToken, Recover;
  }

  /** A number token without a digit is the integer 0 exactly when it is a lone minus sign, and is rejected
      otherwise. */
  lemma MinusIsZero(scan: string -> bool, t: string)
    requires t != "" && !LooksReal(t) && forall i | 0 <= i < |t| :: !IsDigit(t[i])
    ensures DecodeNumber(scan, t) == if t == "-" then Decoded(Int(0)) else NotANumber
  {
    var negative := t[0] == '-';
    var digits := if negative then t[1..] else t;
    if digits != "" {
      assert !IsDigit(digits[0]) by {
        assert digits[0] == t[if negative then 1 else 0];
      }
    } else {
      assert t == ['-'];
    }
  }

  /** An array with no element in it is accepted exactly when its bracket follows with no comment between. */
  lemma CommentOnlyArray(scan: string -> bool, doc: string, p: nat, cur: Value)
    requires p <= |doc| && NextToken(doc, p).typ == ArrayBegin
    requires NextToken(doc, NextToken(doc, p).limit).typ == ArrayEnd
    ensures var q := SkipSpaces(doc, NextToken(doc, p).limit);
      ParseValue(scan, doc, p, cur).ok <==> At(doc, q) == ']'
  {
    var from := NextToken(doc, p).limit;
    var q := SkipSpaces(doc, from);
    SpacesBeforeToken(doc, from);
    NoValueAtBracket(scan, doc, q);
    hide SkipSpaces, Recover, NextToken;
  }

  lemma NoValueAtBracket(scan: string -> bool, doc: string, q: nat)
    requires q <= |doc| && NextToken(doc, q).typ == ArrayEnd
    ensures !ParseElements(scan, doc, q, [], 0).ok
  {
    hide Recover, NextToken;
    assert !ParseValue(scan, doc, q, Get([], Index(0))).ok;
  }

  /** Skipping the white space beforehand finds the same token. */
  lemma SpacesBeforeToken(doc: string, p: nat)
    requires p <= |doc|
    ensures NextToken(doc, SkipSpaces(doc, p)) == NextToken(doc, p)
  {
    SkipTwice(doc, p);
  }

  lemma {:induction false} SkipTwice(doc: string, p: nat)
    requires p <= |doc|
    ensures SkipSpaces(doc, SkipSpaces(doc, p)) == SkipSpaces(doc, p)
    decreases |doc| - p
  {
    if p < |doc| && IsSpace(doc[p]) {
      SkipTwice(doc, p + 1);
    }
  }

  /** The end of the document is read exactly at its end or at a NUL; no value starts there. */
  lemma NulEndsDocument(scan: string -> bool, doc: string, p: nat, cur: Value)
    requires p <= |doc|
    ensures var q := SkipSpaces(doc, p);
      && (ReadToken(doc, p).typ == EndOfStream <==> q == |doc| || doc[q] == '\0')
      && (ReadToken(doc, p).typ == EndOfStream ==> !ParseValue(scan, doc, p, cur).ok)
  {
    hide SkipSpaces, ReadString, ReadNumber, ReadComment;
  }

  /** A high surrogate followed by any second escape decodes, and to the pair's own code point exactly when the
      second one is a low surrogate. */
  lemma SecondHalfUnchecked(doc: string, cur: nat, end: nat, hi: nat, next: nat, lo: nat, last: nat)
    requires cur <= end <= |doc| && 0xD800 <= hi <= 0xDBFF
    requires DecodeUnicodeEscape(doc, cur, end) == CodePoint(hi, next)
    requires end - next >= 6 && doc[next] == '\\' && doc[next + 1] == 'u'
    requires DecodeUnicodeEscape(doc, next + 2, end) == CodePoint(lo, last)
    ensures var r := DecodeCodePoint(doc, cur, end);
      && r.CodePoint? && r.next == last && 0x10000 <= r.cp <= 0x10FFFF
      && ((High(r.cp) == hi && Low(r.cp) == lo) <==> 0xDC00 <= lo <= 0xDFFF)
  {
    hide DecodeUnicodeEscape;
    EscapeBound(doc, next + 2, end);
  }

  /** Four hexadecimal digits never exceed 16 bits. */
  lemma EscapeBound(doc: string, cur: nat, end: nat)
    requires cur <= end <= |doc| && DecodeUnicodeEscape(doc, cur, end).CodePoint?
    ensures DecodeUnicodeEscape(doc, cur, end).cp <= 0xFFFF
  {
  }

  /** An instance: a comma before the brace is accepted behind a member named "", and behind no other. */
  lemma CommaBeforeBrace(scan: string -> bool, root: Value)
    ensures ParseDocument(scan, "{\"\":1,}", root).ok
    ensures !ParseDocument(scan, "{\"a\":1,}", root).ok
  {
    OneMember(scan, "{\"\":1,}", 3, root);
    OneMember(scan, "{\"a\":1,}", 4, root);
  }

  /** The document {"...":1,} whose name ends before position n. */
  lemma OneMember(scan: string -> bool, doc: string, n: nat, root: Value)
    requires (doc == "{\"\":1,}" && n == 3) || (doc == "{\"a\":1,}" && n == 4)
    ensures ParseDocument(scan, doc, root).ok <==> n == 3
  {
    TokensOfOneMember(doc, n);
    var name := doc[2..n - 1];
    NameOfOneMember(doc, n);
    assert TokenText(doc, Token(NumberToken, n + 1, n + 2)) == "1";
    OneDecodes(scan);
    hide ReadToken, NextToken, DecodeString, DecodeNumber, Recover, Put, Get;
    var key := Name(CString(name));
    var one := ParseValue(scan, doc, n + 1, Get([], key));
    assert one.ok && one.pos == n + 2;
    var es := Put([], key, one.v);
    assert ParseMember(scan, doc, Token(StringToken, 1, n), []) == More(es, n + 3, name);
    NextMember(scan, doc, 1, [], "", es, n + 3, name);
    BraceForName(scan, doc, n + 3, es, name);
    ObjectOf(scan, doc, 0, root);
  }

  lemma ObjectOf(scan: string -> bool, doc: string, p: nat, cur: Value)
    requires p <= |doc| && NextToken(doc, p).typ == ObjectBegin
    ensures ParseValue(scan, doc, p, cur).ok == ParseMembers(scan, doc, NextToken(doc, p).limit, [], "").ok
  {
    hide ParseMembers, NextToken;
  }

  lemma NextMember(
    scan: string -> bool, doc: string, p: nat, es: seq<Entry>, name: string, es': seq<Entry>, q: nat, name': string)
    requires p <= |doc| && NextToken(doc, p).typ == StringToken && q <= |doc|
    requires ParseMember(scan, doc, NextToken(doc, p), es) == More(es', q, name')
    ensures ParseMembers(scan, doc, p, es, name) == ParseMembers(scan, doc, q, es', name')
  {
    hide ParseMember, NextToken;
  }

  lemma TokensOfOneMember(doc: string, n: nat)
    requires (doc == "{\"\":1,}" && n == 3) || (doc == "{\"a\":1,}" && n == 4)
    ensures |doc| == n + 4
    ensures NextToken(doc, 0) == Token(ObjectBegin, 0, 1) && NextToken(doc, 1) == Token(StringToken, 1, n)
    ensures ReadToken(doc, n) == Token(MemberSeparator, n, n + 1)
    ensures NextToken(doc, n + 1) == Token(NumberToken, n + 1, n + 2)
    ensures ReadToken(doc, n + 2) == Token(ArraySeparator, n + 2, n + 3)
    ensures NextToken(doc, n + 3) == Token(ObjectEnd, n + 3, n + 4)
  {
    assert ReadString(doc, 2) == Scan(true, n) by {
      assert ReadString(doc, n - 1) == Scan(true, n);
    }
    assert ReadNumber(doc, n + 2) == n + 2;
    assert SkipSpaces(doc, 0) == 0 && SkipSpaces(doc, 1) == 1 && SkipSpaces(doc, n) == n;
    assert SkipSpaces(doc, n + 1) == n + 1 && SkipSpaces(doc, n + 2) == n + 2 && SkipSpaces(doc, n + 3) == n + 3;
  }

  lemma NameOfOneMember(doc: string, n: nat)
    requires (doc == "{\"\":1,}" && n == 3) || (doc == "{\"a\":1,}" && n == 4)
    ensures DecodeString(doc, Token(StringToken, 1, n)) == Text(doc[2..n - 1])
    ensures doc[2..n - 1] == "" <==> n == 3
  {
    assert DecodeText(doc, n - 1, n - 1) == Text("");
    if n == 4 {
      assert doc[2..3] == ['a'] + "";
    }
  }

  lemma OneDecodes(scan: string -> bool)
    ensures DecodeNumber(scan, "1") == Decoded(Int(1))
  {
    var t := "1";
    assert !LooksReal(t);
    assert t[1..] == "";
  }
}
