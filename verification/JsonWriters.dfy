/** Json::FastWriter and Json::StyledWriter, and the scalar printers both use. Each writer prints the
    lexemes of the normalised value: the fast one with nothing between them, the styled one with
    white space of its choosing. */
module JsonWriters {
  import opened JsonValue
  import opened Decimals
  import opened JsonText
  import opened JsonGrammar
  import opened JsonLayout
  import opened JsonLexical
  import opened JsonRoundTrip

  // ---------- printed lexemes ----------

  /** The lexemes with nothing between them. */
  function Flat(lexemes: seq<string>): string {
    if lexemes == [] then [] else lexemes[0] + Flat(lexemes[1..])
  }

  lemma {:induction false} FlatAppend(a: seq<string>, b: seq<string>)
    ensures Flat(a + b) == Flat(a) + Flat(b)
  {
    if a == [] {
      assert a + b == b;
    } else {
      assert (a + b)[1..] == a[1..] + b;
      FlatAppend(a[1..], b);
    }
  }

  lemma FlatOne(s: string)
    ensures Flat([s]) == s
  {
    assert [s][1..] == [];
  }

  /** No lexeme is empty or starts with white space. */
  ghost predicate Solid(lexemes: seq<string>) {
    forall i :: 0 <= i < |lexemes| ==> lexemes[i] != [] && !IsSpace(lexemes[i][0])
  }

  ghost predicate AllSpaces(s: string) { forall i :: 0 <= i < |s| ==> IsSpace(s[i]) }

  /** text is the lexemes, white space before any of them, none after the last. */
  ghost predicate Prints(text: string, lexemes: seq<string>) {
    Lays(text, 0, lexemes, |text|)
  }

  lemma {:induction false} SkipAllSpaces(doc: string, p: nat, s: nat)
    requires p <= s < |doc| && !IsSpace(doc[s])
    requires forall i :: p <= i < s ==> IsSpace(doc[i])
    ensures SkipSpaces(doc, p) == s
    decreases s - p
  {
    if p < s { SkipAllSpaces(doc, p + 1, s); }
  }

  /** A layout stays one inside a longer document. */
  lemma {:induction false} LaysEmbed(pre: string, text: string, post: string, p: nat, lexemes: seq<string>, q: nat)
    requires Solid(lexemes) && Lays(text, p, lexemes, q)
    ensures Lays(pre + text + post, |pre| + p, lexemes, |pre| + q)
    decreases |lexemes|
  {
    hide SkipSpaces;
    LaysBounds(text, p, lexemes, q);
    if lexemes != [] {
      var s := SkipSpaces(text, p);
      var x := lexemes[0];
      HasAtChar(text, s, x, 0);
      SpacesEmbed(pre, text, post, p, s);
      SliceEmbed(pre, text, post, s, |x|);
      LaysEmbed(pre, text, post, s + |x|, lexemes[1..], q);
    }
  }

  lemma SpacesEmbed(pre: string, text: string, post: string, p: nat, s: nat)
    requires p <= s < |text| && s == SkipSpaces(text, p) && !IsSpace(text[s])
    ensures SkipSpaces(pre + text + post, |pre| + p) == |pre| + s
  {
    var doc := pre + text + post;
    SpacesEnd(text, p);
    forall i | |pre| + p <= i < |pre| + s ensures IsSpace(doc[i]) { assert doc[i] == text[i - |pre|]; }
    assert doc[|pre| + s] == text[s];
    SkipAllSpaces(doc, |pre| + p, |pre| + s);
  }

  lemma SliceEmbed(pre: string, text: string, post: string, s: nat, n: nat)
    requires s + n <= |text|
    ensures (pre + text + post)[|pre| + s..|pre| + s + n] == text[s..s + n]
  {
  }

  lemma EmptyEnds(a: string, b: string)
    ensures [] + a + b == a + b && a + b + [] == a + b
  {
  }

  lemma PrintsConcat(a: string, x: seq<string>, b: string, y: seq<string>)
    requires Solid(x) && Solid(y) && Prints(a, x) && Prints(b, y)
    ensures Prints(a + b, x + y)
  {
    hide Lays, SkipSpaces;
    LaysEmbed([], a, b, 0, x, |a|);
    LaysEmbed(a, b, [], 0, y, |b|);
    EmptyEnds(a, b);
    LaysJoin(a + b, 0, x, |a|, y, |a + b|);
  }

  lemma LaysHead(doc: string, p: nat, lexemes: seq<string>, q: nat)
    requires lexemes != [] && Lays(doc, p, lexemes, q)
    ensures p <= |doc| && HasAt(doc, SkipSpaces(doc, p), lexemes[0])
  {
  }

  lemma LaysEarlier(doc: string, p: nat, later: nat, lexemes: seq<string>, q: nat)
    requires lexemes != [] && p <= |doc| && Lays(doc, later, lexemes, q)
    requires SkipSpaces(doc, p) == SkipSpaces(doc, later)
    ensures Lays(doc, p, lexemes, q)
  {
  }

  lemma PrintsAfterSpaces(spaces: string, text: string, lexemes: seq<string>)
    requires AllSpaces(spaces) && lexemes != [] && Solid(lexemes) && Prints(text, lexemes)
    ensures Prints(spaces + text, lexemes)
  {
    var doc := spaces + text;
    var s := SkipSpaces(text, 0);
    LaysHead(text, 0, lexemes, |text|);
    HasAtChar(text, s, lexemes[0], 0);
    SpacesEnd(text, 0);
    LaysEmbed(spaces, text, [], 0, lexemes, |text|);
    hide Lays, SkipSpaces, HasAt;
    assert doc + [] == doc;
    forall i | 0 <= i < |spaces| + s ensures IsSpace(doc[i]) {
      if i >= |spaces| { assert doc[i] == text[i - |spaces|]; }
    }
    assert doc[|spaces| + s] == text[s];
    SkipAllSpaces(doc, 0, |spaces| + s);
    SkipAllSpaces(doc, |spaces|, |spaces| + s);
    LaysEarlier(doc, 0, |spaces|, lexemes, |doc|);
  }

  lemma {:induction false} PrintsFlat(lexemes: seq<string>)
    requires Solid(lexemes)
    ensures Prints(Flat(lexemes), lexemes)
  {
    if lexemes != [] {
      PrintsFlat(lexemes[1..]);
      PrintsLexeme(lexemes[0]);
      PrintsConcat(lexemes[0], [lexemes[0]], Flat(lexemes[1..]), lexemes[1..]);
      assert [lexemes[0]] + lexemes[1..] == lexemes;
    }
  }

  lemma PrintsLexeme(x: string)
    requires x != [] && !IsSpace(x[0])
    ensures Prints(x, [x])
  {
    assert x[0..|x|] == x;
  }

  lemma {:induction false} LexemesSolid(v: Value)
    requires Canonical(v)
    ensures Solid(Lexemes(v))
    decreases v
  {
    match v.data
    case Array(es) => if es != [] { ElementLexemesSolid(es, 0); }
    case Object(es) => if es != [] { MemberLexemesSolid(es); }
    case _ => FirstLexeme(v);
  }

  lemma {:induction false} ElementLexemesSolid(es: seq<Entry>, index: nat)
    requires es != [] && CanonicalElements(es, index)
    ensures Solid(ElementLexemes(es))
    decreases es
  {
    assert es[0].val < es[0];
    RestOfElements(es, index);
    LexemesSolid(es[0].val);
    if |es| > 1 { ElementLexemesSolid(es[1..], index + 1); }
  }

  lemma {:induction false} MemberLexemesSolid(es: seq<Entry>)
    requires es != [] && CanonicalMembers(es)
    ensures Solid(MemberLexemes(es))
    decreases es
  {
    assert es[0].val < es[0];
    RestOfMembers(es);
    LexemesSolid(es[0].val);
    if |es| > 1 { MemberLexemesSolid(es[1..]); }
  }

  // ---------- the round trip ----------

  /** A document that prints a value's lexemes and ends in a line feed parses to that value. */
  lemma ParsePrinted(scan: string -> bool, v: Value, text: string, root: Value)
    requires Writable(v) && Prints(text, Lexemes(Norm(v)))
    ensures var r := ParseDocument(scan, text + "\n", root);
      r.ok && r.errors == [] && Strip(r.v) == Norm(v)
  {
    hide Norm, Lexemes, ParseValue, Reoffset, Writable, Canonical, Lays;
    NormCanonical(v);
    LexemesSolid(Norm(v));
    LaysEmbed([], text, "\n", 0, Lexemes(Norm(v)), |text|);
    assert [] + text + "\n" == text + "\n";
    ParseLaid(scan, Norm(v), text + "\n", 0, |text|, root);
    OneError(scan, text + "\n", 0, root);
  }

  // ---------- lexemes still to be printed ----------

  /** What is left of an array's lexemes once i elements are printed. */
  function ElementsFrom(es: seq<Entry>, i: nat): seq<string>
    requires i <= |es|
    decreases |es| - i
  {
    if i == |es| then ["]"]
    else (if i > 0 then [","] else []) + Lexemes(es[i].val) + ElementsFrom(es, i + 1)
  }

  function MembersFrom(es: seq<Entry>, i: nat): seq<string>
    requires i <= |es|
    decreases |es| - i
  {
    if i == |es| then ["}"]
    else (if i > 0 then [","] else []) + [NameText(es[i].key), ":"] + Lexemes(es[i].val) + MembersFrom(es, i + 1)
  }

  lemma {:induction false} ElementsFromRest(es: seq<Entry>, i: nat)
    requires 0 < i <= |es|
    ensures ElementsFrom(es, i) == AfterElement(es[i - 1..])
    decreases |es| - i
  {
    hide Lexemes;
    if i < |es| {
      ElementsFromRest(es, i + 1);
      assert es[i - 1..][1..] == es[i..];
      ElementLexemesUnfold(es[i..]);
    }
  }

  lemma {:induction false} MembersFromRest(es: seq<Entry>, i: nat)
    requires 0 < i <= |es| && forall j :: 0 <= j < |es| ==> es[j].key.Name?
    ensures MembersFrom(es, i) == AfterMember(es[i - 1..])
    decreases |es| - i
  {
    hide Lexemes;
    if i < |es| {
      MembersFromRest(es, i + 1);
      assert es[i - 1..][1..] == es[i..];
      MemberLexemesUnfold(es[i..]);
    }
  }

  lemma ArrayLexemes(v: Value)
    requires v.data.Array? && Canonical(v)
    ensures Lexemes(v) == [['[']] + ElementsFrom(v.data.elems, 0)
  {
    hide Lexemes, Canonical;
    var es := v.data.elems;
    ArrayUnfold(v);
    if es != [] {
      ElementsFromRest(es, 1);
      assert es[0..] == es;
      ElementLexemesUnfold(es);
      assert [] + Lexemes(es[0].val) + ElementsFrom(es, 1) == Lexemes(es[0].val) + ElementsFrom(es, 1);
    }
  }

  lemma ObjectLexemes(v: Value)
    requires v.data.Object? && Canonical(v)
    ensures Lexemes(v) == [['{']] + MembersFrom(v.data.members, 0)
  {
    hide Lexemes, Canonical;
    var es := v.data.members;
    ObjectUnfold(v);
    if es != [] {
      assert es[0].key.Name?;
      MembersFromRest(es, 1);
      assert es[0..] == es;
      MemberLexemesUnfold(es);
    }
  }

  // ---------- scalar printers ----------

  const BUFFER_SIZE := 25  // uintToStringBufferSize

  /** uintToString: writes the digits of value and a NUL backwards from buffer[current]. */
  method UIntToString(value: nat, buffer: array<char>, current: nat) returns (first: nat)
    requires value <= MAX_LARGEST_UINT
    requires current == buffer.Length == BUFFER_SIZE
    modifies buffer
    ensures 4 <= first < BUFFER_SIZE && buffer[BUFFER_SIZE - 1] == '\0'
    ensures buffer[first..BUFFER_SIZE - 1] == Decimal(value)
  {
    hide Decimal, Pow10;
    first := current - 1;
    buffer[first] := '\0';
    var rest: nat := value;
    var more := true;
    assert Pow10(20) > value by { TwentyDigits(); }
    while more
      invariant 4 <= first < BUFFER_SIZE && buffer[BUFFER_SIZE - 1] == '\0'
      invariant rest < Pow10(first - 4)
      invariant more ==> Decimal(value) == Decimal(rest) + buffer[first..BUFFER_SIZE - 1]
      invariant more ==> first > 4
      invariant !more ==> Decimal(value) == buffer[first..BUFFER_SIZE - 1]
      decreases more, rest
    {
      ghost var printed := buffer[first..BUFFER_SIZE - 1];
      first := first - 1;
      buffer[first] := DigitChar(rest % 10);
      assert buffer[first..BUFFER_SIZE - 1] == [DigitChar(rest % 10)] + printed;
      DigitStep(rest, printed, first - 4);
      rest := rest / 10;
      more := rest != 0;
    }
  }

  /** One digit less to print. */
  lemma DigitStep(n: nat, printed: string, k: nat)
    requires n < Pow10(k + 1)
    ensures n / 10 < Pow10(k) && (n / 10 != 0 ==> k > 0)
    ensures Decimal(n) + printed ==
      if n / 10 == 0 then [DigitChar(n % 10)] + printed else Decimal(n / 10) + ([DigitChar(n % 10)] + printed)
  {
    assert Pow10(k + 1) == 10 * Pow10(k);
    if n >= 10 {
      assert Decimal(n / 10) + [DigitChar(n % 10)] + printed == Decimal(n / 10) + ([DigitChar(n % 10)] + printed);
    }
  }

  lemma TwentyDigits()
    ensures Pow10(20) == 100000000000000000000
  {
    assert Pow10(5) == 100000;
    assert Pow10(10) == 10000000000;
    assert Pow10(15) == 1000000000000000;
  }

  /** valueToString(LargestInt) and valueToString(LargestUInt): the result fits its buffer. */
  method ValueToString(value: int) returns (text: string)
    requires -MAX_LARGEST_INT <= value <= MAX_LARGEST_UINT
    ensures text == IntText(value)
  {
    var buffer := new char[BUFFER_SIZE];
    var isNegative := value < 0;
    var current := UIntToString(if isNegative then -value else value, buffer, BUFFER_SIZE);
    if isNegative {
      ghost var digits := buffer[current..BUFFER_SIZE - 1];
      current := current - 1;
      buffer[current] := '-';
      assert buffer[current..BUFFER_SIZE - 1] == "-" + digits;
    }
    text := buffer[current..BUFFER_SIZE - 1];
  }

  lemma EmptyEscape()
    ensures Escape([]) == []
  {
  }

  /** valueToQuotedString of a non-null C string. */
  method ValueToQuotedString(value: string) returns (text: string)
    requires NulFree(value)
    ensures text == Quote(value)
  {
    hide EscapeChar;
    EmptyEscape();
    hide Escape;
    if forall i :: 0 <= i < |value| ==> !HasShortEscape(value[i]) && !IsControl(value[i]) {
      EscapeOfPlain(value);
      return "\"" + value + "\"";
    }
    text := "\"";
    for i := 0 to |value|
      invariant text == "\"" + Escape(value[..i])
    {
      assert value[..i + 1] == value[..i] + [value[i]];
      EscapeAppends(value[..i], value[i]);
      text := text + EscapeChar(value[i]);
    }
    assert value[..|value|] == value;
    text := text + "\"";
  }

  /** The lexeme of a scalar. */
  method ScalarText(v: Value) returns (text: string)
    requires Writable(v) && !v.data.Array? && !v.data.Object?
    ensures Lexemes(Norm(v)) == [text]
  {
    match v.data {
      case Null => text := "null";
      case Int(i) => text := ValueToString(i);
      case UInt(u) => text := ValueToString(u);
      case Str(s) => text := ValueToQuotedString(s);
      case Bool(b) => text := if b then "true" else "false";
    }
  }

  // ---------- FastWriter ----------

  class FastWriter {
    var document: string

    /** write: the lexemes, nothing between them, and a line feed. */
    method Write(root: Value) returns (text: string)
      requires Writable(root)
      modifies this
      ensures text == document == Flat(Lexemes(Norm(root))) + "\n"
    {
      document := "";
      WriteValue(root);
      document := document + "\n";
      text := document;
    }

    method WriteValue(value: Value)
      requires Writable(value)
      modifies this
      ensures document == old(document) + Flat(Lexemes(Norm(value)))
      decreases Height(value), 1
    {
      if value.data.Array? {
        WriteArray(value);
      } else if value.data.Object? {
        WriteObject(value);
      } else {
        var text := ScalarText(value);
        FlatOne(text);
        document := document + text;
      }
    }

    method WriteArray(value: Value)
      requires Writable(value) && value.data.Array?
      modifies this
      ensures document == old(document) + Flat(Lexemes(Norm(value)))
      decreases Height(value), 0
    {
      hide Norm, NormElements, Lexemes, Flat, Height, EntriesHeight, Canonical, ElementsFrom, Writable;
      var es := value.data.elems;
      var size := ArraySize(es);
      ghost var ns := NormElements(es, size);
      ArrayParts(value);
      NormCanonical(value);
      ArrayLexemes(Norm(value));
      ghost var all := old(document) + Flat(Lexemes(Norm(value)));
      FlatAppend(["["], ElementsFrom(ns, 0));
      FlatOne("[");
      document := document + "[";
      assert all == document + Flat(ElementsFrom(ns, 0));
      for index := 0 to size
        invariant all == document + Flat(ElementsFrom(ns, index))
      {
        ghost var before := document;
        var comma := if index > 0 then "," else "";
        document := document + comma;
        ElementParts(value, index);
        WriteValue(Get(es, Index(index)));
        FlatElements(ns, index);
        assert before + comma + Flat(Lexemes(ns[index].val)) + Flat(ElementsFrom(ns, index + 1)) ==
          before + (comma + Flat(Lexemes(ns[index].val)) + Flat(ElementsFrom(ns, index + 1)));
      }
      ElementsFromEnd(ns);
      FlatOne("]");
      document := document + "]";
    }

    method WriteObject(value: Value)
      requires Writable(value) && value.data.Object?
      modifies this
      ensures document == old(document) + Flat(Lexemes(Norm(value)))
      decreases Height(value), 0
    {
      hide Norm, NormMembers, Lexemes, Flat, Height, EntriesHeight, Canonical, MembersFrom, Writable, Quote;
      var es := value.data.members;
      ghost var ns := NormMembers(es);
      ObjectParts(value);
      NormCanonical(value);
      ObjectLexemes(Norm(value));
      ghost var all := old(document) + Flat(Lexemes(Norm(value)));
      FlatAppend(["{"], MembersFrom(ns, 0));
      FlatOne("{");
      document := document + "{";
      assert all == document + Flat(MembersFrom(ns, 0));
      for index := 0 to |es|
        invariant all == document + Flat(MembersFrom(ns, index))
      {
        ghost var before := document;
        var comma := if index > 0 then "," else "";
        var name := es[index].key;
        MemberParts(value, index);
        var quoted := ValueToQuotedString(name.s);
        document := document + comma + quoted + ":";
        WriteValue(Get(es, name));
        FlatMembers(ns, index);
        assert before + comma + quoted + ":" + Flat(Lexemes(ns[index].val)) + Flat(MembersFrom(ns, index + 1)) ==
          before + (comma + quoted + ":" + Flat(Lexemes(ns[index].val)) + Flat(MembersFrom(ns, index + 1)));
      }
      MembersFromEnd(ns);
      FlatOne("}");
      document := document + "}";
    }
  }

  lemma ElementsFromEnd(es: seq<Entry>)
    ensures ElementsFrom(es, |es|) == [[']']]
  {
  }

  lemma MembersFromEnd(es: seq<Entry>)
    ensures MembersFrom(es, |es|) == [['}']]
  {
  }

  lemma ArrayParts(v: Value)
    requires v.data.Array?
    ensures Norm(v) == Plain(Array(NormElements(v.data.elems, ArraySize(v.data.elems))))
    ensures Height(v) == 1 + EntriesHeight(v.data.elems)
  {
    hide NormElements;
  }

  lemma ObjectParts(v: Value)
    requires v.data.Object?
    ensures Norm(v) == Plain(Object(NormMembers(v.data.members)))
    ensures Height(v) == 1 + EntriesHeight(v.data.members)
  {
    hide NormMembers;
  }

  lemma ElementParts(v: Value, i: nat)
    requires v.data.Array? && Writable(v) && i < ArraySize(v.data.elems)
    ensures var es := v.data.elems; var e := Get(es, Index(i));
      && NormElements(es, ArraySize(es))[i] == Entry(Index(i), Norm(e))
      && Writable(e) && Height(e) < Height(v)
  {
    hide Norm, NormElements, Height, EntriesHeight;
    var es := v.data.elems;
    ArrayParts(v);
    NormElementsAt(es, ArraySize(es), i);
    GetHeight(es, Index(i));
    GetWritable(es, Index(i));
  }

  lemma MemberParts(v: Value, i: nat)
    requires v.data.Object? && Writable(v) && i < |v.data.members|
    ensures var es := v.data.members; var e := Get(es, es[i].key);
      && es[i].key.Name? && NulFree(es[i].key.s)
      && NormMembers(es)[i] == Entry(es[i].key, Norm(e))
      && Writable(e) && Height(e) < Height(v)
  {
    hide Norm, NormMembers, Height, EntriesHeight;
    var es := v.data.members;
    ObjectParts(v);
    NormMembersAt(es, i);
    GetOfEntry(es, i);
    EntryHeight(es, i);
  }

  lemma FlatElements(es: seq<Entry>, i: nat)
    requires i < |es|
    ensures Flat(ElementsFrom(es, i)) ==
      (if i > 0 then "," else "") + Flat(Lexemes(es[i].val)) + Flat(ElementsFrom(es, i + 1))
  {
    hide Lexemes;
    var comma: seq<string> := if i > 0 then [","] else [];
    if i > 0 { FlatOne(","); }
    FlatAppend(comma + Lexemes(es[i].val), ElementsFrom(es, i + 1));
    FlatAppend(comma, Lexemes(es[i].val));
  }

  lemma FlatMembers(es: seq<Entry>, i: nat)
    requires i < |es|
    ensures Flat(MembersFrom(es, i)) ==
      (if i > 0 then "," else "") + NameText(es[i].key) + ":" + Flat(Lexemes(es[i].val)) + Flat(MembersFrom(es, i + 1))
  {
    hide Lexemes, NameText;
    var comma: seq<string> := if i > 0 then [","] else [];
    if i > 0 { FlatOne(","); }
    var name := NameText(es[i].key);
    FlatAppend(comma + [name, ":"] + Lexemes(es[i].val), MembersFrom(es, i + 1));
    FlatAppend(comma + [name, ":"], Lexemes(es[i].val));
    FlatAppend(comma, [name, ":"]);
    assert [name, ":"][1..] == [":"];
    FlatOne(":");
  }

  /** Reader and FastWriter undo each other: a written document parses, without error, to the value
      written, up to the integer tag and the filling of array gaps with nulls. */
  lemma FastRoundTrip(scan: string -> bool, v: Value, root: Value)
    requires Writable(v)
    ensures var r := ParseDocument(scan, Flat(Lexemes(Norm(v))) + "\n", root);
      r.ok && r.errors == [] && Strip(r.v) == Norm(v)
  {
    NormCanonical(v);
    LexemesSolid(Norm(v));
    PrintsFlat(Lexemes(Norm(v)));
    ParsePrinted(scan, v, Flat(Lexemes(Norm(v))), root);
  }
}
