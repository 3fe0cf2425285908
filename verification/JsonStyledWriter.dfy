/** Json::StyledWriter on values without comments. It prints the same lexemes as FastWriter, spread
    over lines and indented, so both outputs parse to the same value. */
module JsonStyledWriter {
  import opened JsonValue
  import opened JsonText
  import opened JsonGrammar
  import opened JsonLayout
  import opened JsonStyledText
  import opened JsonWriters

  /** texts[i] prints the i-th element of the array es. */
  ghost predicate ChildrenPrinted(texts: seq<string>, es: seq<Entry>) {
    |texts| == |es| && forall i :: 0 <= i < |es| ==> Prints(texts[i], Lexemes(es[i].val))
  }

  /** texts are the leaf texts of the elements of the array es. */
  ghost predicate LeafTexts(texts: seq<string>, es: seq<Entry>) {
    |texts| == ArraySize(es) && AllLeaves(es, |texts|) &&
    forall i: nat | i < |texts| :: texts[i] == LeafText(ElementAt(es, i))
  }

  /** One more piece of text behind what is already printed. */
  lemma PrintsMore(text: string, done: seq<string>, spaces: string, piece: string, lexemes: seq<string>)
    requires Solid(done) && Prints(text, done)
    requires AllSpaces(spaces) && Solid(lexemes) && lexemes != [] && Prints(piece, lexemes)
    ensures Solid(done + lexemes) && Prints(text + spaces + piece, done + lexemes)
  {
    hide Lays;
    PrintsAfterSpaces(spaces, piece, lexemes);
    PrintsConcat(text, done, spaces + piece, lexemes);
    assert text + spaces + piece == text + (spaces + piece);
  }

  lemma PrintsNothing()
    ensures Prints("", []) && Solid([]) && AllSpaces("") && AllSpaces(" ")
  {
  }

  /** One more punctuation character. */
  lemma PrintsPunctuation(text: string, done: seq<string>, spaces: string, c: string)
    requires Solid(done) && Prints(text, done) && AllSpaces(spaces)
    requires c != [] && !IsSpace(c[0])
    ensures Solid(done + [c]) && Prints(text + spaces + c, done + [c])
  {
    hide Lays;
    PrintsLexeme(c);
    PrintsMore(text, done, spaces, c, [c]);
  }

  lemma NormSolid(v: Value)
    requires Writable(v)
    ensures Solid(Lexemes(Norm(v)))
  {
    hide Norm, Lexemes;
    NormCanonical(v);
    LexemesSolid(Norm(v));
  }

  /** A leaf's text: its lexemes side by side. */
  lemma LeafPrints(v: Value, text: string)
    requires Writable(v) && text == Flat(Lexemes(Norm(v)))
    ensures Prints(text, Lexemes(Norm(v)))
  {
    hide Norm, Lexemes;
    NormSolid(v);
    PrintsFlat(Lexemes(Norm(v)));
  }

  lemma LeafTextPrints(v: Value)
    requires Writable(v)
    ensures Prints(LeafText(v), Lexemes(Norm(v)))
  {
    LeafPrints(v, LeafText(v));
  }

  lemma EmptyArrayFlat(v: Value)
    requires v.data.Array? && SizeOf(v) == 0
    ensures Flat(Lexemes(Norm(v))) == "[]"
  {
    ArrayParts(v);
    assert Lexemes(Norm(v)) == ["[", "]"];
    assert ["[", "]"][1..] == ["]"];
    FlatOne("]");
  }

  lemma EmptyObjectFlat(v: Value)
    requires v.data.Object? && SizeOf(v) == 0
    ensures Flat(Lexemes(Norm(v))) == "{}"
  {
    ObjectParts(v);
    assert Lexemes(Norm(v)) == ["{", "}"];
    assert ["{", "}"][1..] == ["}"];
    FlatOne("}");
  }

  /** The lexemes of element i, and what follows it. */
  lemma ElementsStep(es: seq<Entry>, i: nat, done: seq<string>, all: seq<string>)
    requires i < |es| && done + ElementsFrom(es, i) == all
    ensures (if i > 0 then done + [","] else done) + Lexemes(es[i].val) + ElementsFrom(es, i + 1) == all
  {
    hide Lexemes;
    var comma: seq<string> := if i > 0 then [","] else [];
    AssociateElement(done, comma, Lexemes(es[i].val), ElementsFrom(es, i + 1));
    assert done + [] == done;
  }

  lemma MembersStepLexemes(es: seq<Entry>, i: nat, done: seq<string>, all: seq<string>)
    requires i < |es| && done + MembersFrom(es, i) == all
    ensures (if i > 0 then done + [","] else done) + [NameText(es[i].key)] + [":"] + Lexemes(es[i].val) +
      MembersFrom(es, i + 1) == all
  {
    hide Lexemes, NameText;
    var comma: seq<string> := if i > 0 then [","] else [];
    Associate(done, comma, NameText(es[i].key), Lexemes(es[i].val), MembersFrom(es, i + 1));
    assert done + [] == done;
  }

  lemma AssociateElement(done: seq<string>, comma: seq<string>, value: seq<string>, rest: seq<string>)
    ensures done + (comma + value + rest) == done + comma + value + rest
  {
  }

  lemma Associate(done: seq<string>, comma: seq<string>, name: string, value: seq<string>, rest: seq<string>)
    ensures done + (comma + [name, ":"] + value + rest) == done + comma + [name] + [":"] + value + rest
  {
    assert [name, ":"] == [name] + [":"];
  }

  /** Element i behind the text printed so far, after a comma if it is not the first. */
  lemma NextElement(
    es: seq<Entry>, i: nat, text: string, done: seq<string>, all: seq<string>, spaces: string, child: string)
    returns (text': string, done': seq<string>)
    requires i < |es| && Solid(done) && Prints(text, done) && done + ElementsFrom(es, i) == all
    requires AllSpaces(spaces) && Solid(Lexemes(es[i].val)) && Prints(child, Lexemes(es[i].val))
    requires Lexemes(es[i].val) != []
    ensures text' == text + (if i > 0 then "," else "") + spaces + child
    ensures Solid(done') && Prints(text', done') && done' + ElementsFrom(es, i + 1) == all
  {
    hide Lexemes, Lays, ElementsFrom;
    ElementsStep(es, i, done, all);
    text', done' := text, done;
    if i > 0 {
      PrintsNothing();
      PrintsPunctuation(text, done, "", ",");
      assert text + "" + "," == text + ",";
      text', done' := text + ",", done + [","];
    }
    PrintsMore(text', done', spaces, child, Lexemes(es[i].val));
    text', done' := text' + spaces + child, done' + Lexemes(es[i].val);
    assert text + "" == text;
  }

  lemma QuotedName(name: Key)
    requires name.Name?
    ensures NameText(name) == Quote(name.s) && NameText(name) != "" && !IsSpace(NameText(name)[0])
  {
    hide Escape;
  }

  /** A member behind what is already printed: name, colon and value. */
  lemma MemberPrints(text: string, done: seq<string>, spaces: string, quoted: string, child: string, value: Value)
    requires Solid(done) && Prints(text, done) && AllSpaces(spaces) && quoted != "" && !IsSpace(quoted[0])
    requires Writable(value) && Prints(child, Lexemes(Norm(value)))
    ensures var done' := done + [quoted] + [":"] + Lexemes(Norm(value));
            Solid(done') && Prints(text + spaces + quoted + " " + ":" + " " + child, done')
  {
    hide Norm, Lexemes, Lays, Solid, Prints, AllSpaces, Writable;
    PrintsNothing();
    PrintsPunctuation(text, done, spaces, quoted);
    PrintsPunctuation(text + spaces + quoted, done + [quoted], " ", ":");
    NormSolid(value);
    PrintsMore(text + spaces + quoted + " " + ":", done + [quoted] + [":"], " ", child, Lexemes(Norm(value)));
  }

  lemma MemberText(before: string, text: string, spaces: string, quoted: string, child: string)
    ensures before + text + spaces + quoted + " : " + child ==
            before + (text + spaces + quoted + " " + ":" + " " + child)
  {
    assert " : " == " " + ":" + " ";
  }

  lemma ElementText(before: string, text: string, comma: string, spaces: string, child: string)
    ensures before + text + comma + spaces + child == before + (text + comma + spaces + child)
  {
  }

  class StyledWriter {
    var document: string
    var childValues: seq<string>
    var indentString: string
    var addChildValues: bool

    /** write: some layout of the lexemes, and a line feed. */
    method Write(root: Value) returns (text: string)
      requires Writable(root)
      modifies this
      ensures text == document
      ensures text != [] && text[|text| - 1] == '\n' && Prints(text[..|text| - 1], Lexemes(Norm(root)))
      ensures text == Styled(root, "", "") + "\n"
      ensures indentString == "" && !addChildValues
    {
      document := "";
      addChildValues := false;
      indentString := "";
      ghost var printed := WriteValue(root);
      assert document == printed;
      document := document + "\n";
      text := document;
    }

    /** writeValue: prints the value at the end of the document or, while an array's elements are
        being measured, as one more child value. Indentation is as before. */
    method WriteValue(value: Value) returns (ghost printed: string)
      requires Writable(value) && AllSpaces(indentString)
      requires addChildValues ==> IsLeaf(value)
      modifies this
      ensures Prints(printed, Lexemes(Norm(value)))
      ensures indentString == old(indentString) && addChildValues == old(addChildValues)
      ensures if addChildValues then document == old(document) && childValues == old(childValues) + [printed]
              else document == old(document) + printed
      ensures if addChildValues then printed == LeafText(value)
              else document == Styled(value, old(document), indentString)
      decreases Height(value), 2
    {
      hide Styled;
      if value.data.Array? {
        printed := WriteArrayValue(value);
      } else if value.data.Object? {
        printed := WriteObjectValue(value);
      } else {
        var text := ScalarText(value);
        FlatOne(text);
        printed := text;
        LeafPrints(value, printed);
        StyledLeaf(value, document, indentString);
        PushValue(text);
      }
    }

    method PushValue(value: string)
      modifies this`document, this`childValues
      ensures if addChildValues then document == old(document) && childValues == old(childValues) + [value]
              else document == old(document) + value && childValues == old(childValues)
    {
      if addChildValues {
        childValues := childValues + [value];
      } else {
        document := document + value;
      }
    }

    method WriteObjectValue(value: Value) returns (ghost printed: string)
      requires Writable(value) && value.data.Object? && AllSpaces(indentString)
      requires addChildValues ==> IsLeaf(value)
      modifies this
      ensures Prints(printed, Lexemes(Norm(value)))
      ensures indentString == old(indentString) && addChildValues == old(addChildValues)
      ensures if addChildValues then document == old(document) && childValues == old(childValues) + [printed]
              else document == old(document) + printed
      ensures if addChildValues then printed == LeafText(value)
              else document == Styled(value, old(document), indentString)
      decreases Height(value), 1
    {
      hide Norm, NormMembers, Lexemes, Flat, Height, EntriesHeight, Canonical, MembersFrom, Writable, Quote, Lays;
      hide Styled, StyledMembers, Indented, NameText, Get;
      var es := value.data.members;
      if |es| == 0 {
        EmptyObjectFlat(value);
        StyledLeaf(value, document, indentString);
        LeafPrints(value, "{}");
        printed := "{}";
        PushValue("{}");
        return;
      }
      ghost var ns := NormMembers(es);
      ghost var all := Lexemes(Norm(value));
      ghost var start := Indented(document, indentString) + "{";
      StyledObject(value, document, indentString);
      MembersNext(value, 0, start, indentString + INDENT);
      ObjectParts(value);
      NormCanonical(value);
      ObjectLexemes(Norm(value));
      PrintsNothing();
      ghost var spaces := WriteWithIndent("{");
      PrintsPunctuation("", [], spaces, "{");
      printed := "" + spaces + "{";
      ghost var done := [] + ["{"];
      Indent();
      var index := 0;
      while index < |es|
        invariant 0 <= index <= |es|
        invariant Solid(done) && Prints(printed, done) && done + MembersFrom(ns, index) == all
        invariant document == old(document) + printed == StyledMembers(value, index, start, indentString)
        invariant indentString == old(indentString) + "   " && AllSpaces(indentString) && !addChildValues
      {
        MembersNext(value, index, start, indentString);
        MembersStepLexemes(ns, index, done, all);
        if index > 0 {
          document := document + ",";
          PrintsPunctuation(printed, done, "", ",");
          assert printed + "" + "," == printed + ",";
          printed, done := printed + ",", done + [","];
        }
        MemberParts(value, index);
        assert document == StyledMembers(value, index, start, indentString) + (if index > 0 then "," else "");
        printed, done := WriteMember(es[index].key, Get(es, es[index].key), old(document), printed, done);
        index := index + 1;
      }
      MembersFromEnd(ns);
      Unindent();
      assert indentString == old(indentString);
      spaces := WriteWithIndent("}");
      PrintsPunctuation(printed, done, spaces, "}");
      assert document == old(document) + (printed + spaces + "}");
      printed := printed + spaces + "}";
    }

    /** One member on its own line, behind what is printed so far. */
    method WriteMember(name: Key, value: Value, ghost before: string, ghost text: string, ghost done: seq<string>)
      returns (ghost printed: string, ghost done': seq<string>)
      requires Writable(value) && name.Name? && NulFree(name.s) && AllSpaces(indentString) && !addChildValues
      requires Solid(done) && Prints(text, done) && document == before + text
      modifies this
      ensures done' == done + [NameText(name)] + [":"] + Lexemes(Norm(value))
      ensures Solid(done') && Prints(printed, done') && document == before + printed
      ensures indentString == old(indentString) && !addChildValues
      ensures document == Styled(value, Indented(old(document), indentString) + NameText(name) + " : ", indentString)
      decreases Height(value), 3
    {
      hide *;
      var quoted := ValueToQuotedString(name.s);
      ghost var spaces := WriteWithIndent(quoted);
      document := document + " : ";
      ghost var child := WriteValue(value);
      QuotedName(name);
      MemberPrints(text, done, spaces, quoted, child, value);
      MemberText(before, text, spaces, quoted, child);
      printed, done' :=
        text + spaces + quoted + " " + ":" + " " + child, done + [quoted] + [":"] + Lexemes(Norm(value));
    }

    method WriteArrayValue(value: Value) returns (ghost printed: string)
      requires Writable(value) && value.data.Array? && AllSpaces(indentString)
      requires addChildValues ==> IsLeaf(value)
      modifies this
      ensures Prints(printed, Lexemes(Norm(value)))
      ensures indentString == old(indentString) && addChildValues == old(addChildValues)
      ensures if addChildValues then document == old(document) && childValues == old(childValues) + [printed]
              else document == old(document) + printed
      ensures if addChildValues then printed == LeafText(value)
              else document == Styled(value, old(document), indentString)
      decreases Height(value), 1
    {
      hide Norm, NormElements, Lexemes, Flat, Height, EntriesHeight, Canonical, ElementsFrom, Writable, Lays;
      hide Styled, StyledElements, OneLine, Indented, Breaks, LeafTexts;
      if SizeOf(value) == 0 {
        EmptyArrayFlat(value);
        StyledLeaf(value, document, indentString);
        LeafPrints(value, "[]");
        printed := "[]";
        PushValue("[]");
        return;
      }
      StyledArray(value, document, indentString);
      var isArrayMultiLine := IsMultilineArray(value);
      if isArrayMultiLine {
        printed := WriteArrayLines(value);
      } else {
        printed := WriteArrayLine(value);
      }
    }

    /** The elements one to a line. */
    method WriteArrayLines(value: Value) returns (ghost printed: string)
      requires Writable(value) && value.data.Array? && SizeOf(value) > 0
      requires AllSpaces(indentString) && !addChildValues
      requires childValues == [] || ChildrenPrinted(childValues, NormElements(value.data.elems, SizeOf(value)))
      requires childValues == [] || LeafTexts(childValues, value.data.elems)
      modifies this
      ensures Prints(printed, Lexemes(Norm(value))) && document == old(document) + printed
      ensures indentString == old(indentString) && !addChildValues
      ensures document ==
              Indented(StyledElements(value, SizeOf(value), Indented(old(document), indentString) + "[",
                                       indentString + INDENT),
                       indentString) + "]"
      decreases Height(value), 1, 0
    {
      hide Norm, NormElements, Lexemes, Flat, Height, EntriesHeight, Canonical, ElementsFrom, Writable, Lays, ArraySize;
      hide Styled, StyledElements, Indented, LeafText, Get, IsLeaf;
      var es := value.data.elems;
      var size := SizeOf(value);
      ghost var ns := NormElements(es, size);
      ghost var all := Lexemes(Norm(value));
      ghost var start := Indented(document, indentString) + "[";
      ElementsNext(value, 0, start, indentString + INDENT);
      ArrayParts(value);
      NormCanonical(value);
      ArrayLexemes(Norm(value));
      PrintsNothing();
      ghost var spaces := WriteWithIndent("[");
      PrintsPunctuation("", [], spaces, "[");
      printed := "" + spaces + "[";
      ghost var done := [] + ["["];
      Indent();
      var hasChildValue := childValues != [];
      var index := 0;
      while index < size
        invariant 0 <= index <= size
        invariant Solid(done) && Prints(printed, done) && done + ElementsFrom(ns, index) == all
        invariant document == old(document) + printed == StyledElements(value, index, start, indentString)
        invariant indentString == old(indentString) + "   " && AllSpaces(indentString) && !addChildValues
        invariant hasChildValue ==> ChildrenPrinted(childValues, ns) && LeafTexts(childValues, es)
      {
        ElementsNext(value, index, start, indentString);
        var comma := if index > 0 then "," else "";
        document := document + comma;
        ElementParts(value, index);
        ghost var child;
        spaces, child := WriteElement(value, index, hasChildValue);
        NormSolid(Get(es, Index(index)));
        ElementText(old(document), printed, comma, spaces, child);
        printed, done := NextElement(ns, index, printed, done, all, spaces, child);
        index := index + 1;
      }
      ElementsFromEnd(ns);
      Unindent();
      assert indentString == old(indentString);
      spaces := WriteWithIndent("]");
      PrintsPunctuation(printed, done, spaces, "]");
      assert document == old(document) + (printed + spaces + "]");
      printed := printed + spaces + "]";
    }

    /** One element on its own line, from its measured text if there is one. */
    method WriteElement(value: Value, index: nat, hasChildValue: bool)
      returns (ghost spaces: string, ghost child: string)
      requires Writable(value) && value.data.Array? && index < SizeOf(value)
      requires AllSpaces(indentString) && !addChildValues
      requires hasChildValue ==> LeafTexts(childValues, value.data.elems)
      modifies this
      ensures AllSpaces(spaces) && Prints(child, Lexemes(Norm(ElementAt(value.data.elems, index))))
      ensures document == old(document) + spaces + child
      ensures document == Styled(ElementAt(value.data.elems, index),
                                 Indented(old(document), indentString), indentString)
      ensures indentString == old(indentString) && !addChildValues
      ensures hasChildValue ==> childValues == old(childValues)
      decreases Height(value), 0
    {
      hide Norm, Lexemes, Height, Writable, Styled, Indented, LeafText, Prints, AllSpaces, Get, ArraySize;
      var es := value.data.elems;
      ElementParts(value, index);
      if hasChildValue {
        child := childValues[index];
        LeafTextPrints(ElementAt(es, index));
        StyledLeaf(ElementAt(es, index), Indented(document, indentString), indentString);
        spaces := WriteWithIndent(childValues[index]);
      } else {
        spaces := WriteIndent();
        child := WriteValue(ElementAt(es, index));
      }
    }

    /** The elements, measured before, on one line. */
    method WriteArrayLine(value: Value) returns (ghost printed: string)
      requires Writable(value) && value.data.Array? && SizeOf(value) > 0
      requires ChildrenPrinted(childValues, NormElements(value.data.elems, SizeOf(value)))
      requires LeafTexts(childValues, value.data.elems)
      modifies this
      ensures Prints(printed, Lexemes(Norm(value))) && document == old(document) + printed
      ensures indentString == old(indentString) && addChildValues == old(addChildValues)
      ensures document == old(document) + "[ " + OneLine(value.data.elems, SizeOf(value)) + " ]"
    {
      hide Norm, NormElements, Lexemes, Flat, Height, EntriesHeight, Canonical, ElementsFrom, Writable, Lays, ArraySize;
      hide LeafText, OneLine, Get, IsLeaf;
      var es := value.data.elems;
      var size := SizeOf(value);
      ghost var ns := NormElements(es, size);
      ghost var all := Lexemes(Norm(value));
      assert |childValues| == size;  // the source's own assertion
      LineNext(es, 0);
      ArrayParts(value);
      NormCanonical(value);
      ArrayLexemes(Norm(value));
      PrintsNothing();
      PrintsPunctuation("", [], "", "[");
      printed := "" + "" + "[";
      ghost var done := [] + ["["];
      document := document + "[ ";
      for index := 0 to size
        invariant Solid(done) && Prints(printed, done) && done + ElementsFrom(ns, index) == all
        invariant document == old(document) + printed + (if index == 0 then " " else "")
        invariant indentString == old(indentString) && addChildValues == old(addChildValues)
        invariant ChildrenPrinted(childValues, ns) && LeafTexts(childValues, es)
        invariant document == old(document) + "[ " + OneLine(es, index)
      {
        LineNext(es, index);
        ElementParts(value, index);
        NormSolid(Get(es, Index(index)));
        ghost var before := printed;
        printed, done := NextElement(ns, index, printed, done, all, " ", childValues[index]);
        document := document + (if index > 0 then ", " else "") + childValues[index];
        LineElement(old(document), before, index > 0, childValues[index]);
      }
      ElementsFromEnd(ns);
      document := document + " ]";
      PrintsPunctuation(printed, done, " ", "]");
      assert document == old(document) + (printed + " " + "]");
      printed := printed + " " + "]";
    }

    /** isMultineArray: measures the elements, leaving the text of each of them in childValues, or
        gives up before with childValues empty. */
    method IsMultilineArray(value: Value) returns (isMultiLine: bool)
      requires Writable(value) && value.data.Array? && SizeOf(value) > 0
      requires AllSpaces(indentString) && !addChildValues
      modifies this
      ensures document == old(document) && indentString == old(indentString) && !addChildValues
      ensures childValues == [] || ChildrenPrinted(childValues, NormElements(value.data.elems, SizeOf(value)))
      ensures childValues == [] || LeafTexts(childValues, value.data.elems)
      ensures !isMultiLine ==> childValues != []
      ensures isMultiLine <==> Breaks(value.data.elems)
      decreases Height(value), 0
    {
      hide Norm, NormElements, Lexemes, Height, EntriesHeight, Writable, ArraySize, Lays, Get, LeafText, LeafLengths;
      var es := value.data.elems;
      var size := SizeOf(value);
      ghost var ns := NormElements(es, size);
      isMultiLine := size * 3 >= RIGHT_MARGIN;
      childValues := [];
      var index := 0;
      while index < size && !isMultiLine
        invariant 0 <= index <= size
        invariant isMultiLine <==> size * 3 >= RIGHT_MARGIN || !AllLeaves(es, index)
      {
        var childValue := Get(es, Index(index));
        isMultiLine := (childValue.data.Array? || childValue.data.Object?) && SizeOf(childValue) > 0;
        assert isMultiLine == !IsLeaf(ElementAt(es, index));
        index := index + 1;
      }
      if !isMultiLine {
        addChildValues := true;
        LineNext(es, 0);
        var lineLength := 4 + (size - 1) * 2;
        index := 0;
        while index < size
          invariant 0 <= index <= size && |childValues| == index && addChildValues
          invariant document == old(document) && indentString == old(indentString)
          invariant forall i :: 0 <= i < index ==> Prints(childValues[i], Lexemes(ns[i].val))
          invariant forall i: nat | i < index :: childValues[i] == LeafText(ElementAt(es, i))
          invariant lineLength == 4 + (size - 1) * 2 + LeafLengths(es, index)
        {
          LineNext(es, index);
          ElementParts(value, index);
          ghost var child := WriteValue(Get(es, Index(index)));
          lineLength := lineLength + |childValues[index]|;
          index := index + 1;
        }
        addChildValues := false;
        isMultiLine := isMultiLine || lineLength >= RIGHT_MARGIN;
      }
    }

    /** writeIndent: onto a fresh, indented line unless the document ends in a blank already. */
    method WriteIndent() returns (ghost spaces: string)
      requires AllSpaces(indentString)
      modifies this`document
      ensures AllSpaces(spaces) && document == old(document) + spaces == Indented(old(document), indentString)
    {
      spaces := "";
      if document != "" {
        var last := document[|document| - 1];
        if last == ' ' { return; }
        if last != '\n' {
          document := document + "\n";
          spaces := "\n";
        }
      }
      document := document + indentString;
      spaces := spaces + indentString;
      assert document == old(document) + spaces;
    }

    method WriteWithIndent(value: string) returns (ghost spaces: string)
      requires AllSpaces(indentString)
      modifies this`document
      ensures AllSpaces(spaces) && document == old(document) + spaces + value
      ensures document == Indented(old(document), indentString) + value
    {
      spaces := WriteIndent();
      document := document + value;
    }

    method Indent()
      modifies this`indentString
      ensures indentString == old(indentString) + "   "
    {
      indentString := indentString + seq(INDENT_SIZE, i => ' ');
    }

    method Unindent()
      requires |indentString| >= INDENT_SIZE
      modifies this`indentString
      ensures indentString == old(indentString)[..|old(indentString)| - INDENT_SIZE]
    {
      indentString := indentString[..|indentString| - INDENT_SIZE];
    }
  }

  lemma LineElement(before: string, text: string, comma: bool, child: string)
    ensures before + text + (if comma then "" else " ") + (if comma then ", " else "") + child ==
      before + (text + (if comma then "," else "") + " " + child)
  {
    assert ", " == "," + " ";
  }

  /** Any text StyledWriter.Write may return parses to the same value as FastWriter's. */
  lemma StyledRoundTrip(scan: string -> bool, v: Value, text: string, root: Value)
    requires Writable(v)
    requires text != [] && text[|text| - 1] == '\n' && Prints(text[..|text| - 1], Lexemes(Norm(v)))
    ensures var r := ParseDocument(scan, text, root);
      r.ok && r.errors == [] && Strip(r.v) == Norm(v)
    ensures Strip(ParseDocument(scan, text, root).v) ==
      Strip(ParseDocument(scan, Flat(Lexemes(Norm(v))) + "\n", root).v)
  {
    hide Norm, Lexemes, ParseValue, Reoffset, Writable, Lays;
    ParsePrinted(scan, v, text[..|text| - 1], root);
    assert text[..|text| - 1] + "\n" == text;
    FastRoundTrip(scan, v, root);
  }
}
