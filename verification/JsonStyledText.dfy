/** The text Json::StyledWriter produces for a value without comments, line breaks and indentation included. */
module JsonStyledText {
  import opened JsonValue
  import opened JsonLayout
  import opened JsonWriters

  const RIGHT_MARGIN := 74
  const INDENT_SIZE := 3
  const INDENT := "   "

  /** Value::size() */
  function SizeOf(v: Value): nat {
    match v.data
    case Array(es) => ArraySize(es)
    case Object(es) => |es|
    case _ => 0
  }

  /** Printed without a line break: a scalar or an empty container. */
  predicate IsLeaf(v: Value) { (v.data.Array? || v.data.Object?) ==> SizeOf(v) == 0 }

  /** A leaf's text: its lexemes side by side. */
  ghost function LeafText(v: Value): string { Flat(Lexemes(Norm(v))) }

  function ElementAt(es: seq<Entry>, i: nat): Value { Get(es, Index(i)) }

  ghost function LeafLengths(es: seq<Entry>, n: nat): nat {
    if n == 0 then 0 else LeafLengths(es, n - 1) + |LeafText(ElementAt(es, n - 1))|
  }

  predicate AllLeaves(es: seq<Entry>, n: nat) {
    forall i: nat | i < n :: IsLeaf(ElementAt(es, i))
  }

  /** An array is broken over lines when it has too many elements, a non-empty container among them, or would
      reach the right margin. */
  ghost predicate Breaks(es: seq<Entry>) {
    var size := ArraySize(es);
    size * 3 >= RIGHT_MARGIN || !AllLeaves(es, size) || 4 + (size - 1) * 2 + LeafLengths(es, size) >= RIGHT_MARGIN
  }

  /** writeIndent: onto a fresh, indented line unless the document ends in a blank already. */
  function Indented(doc: string, indent: string): string {
    if doc == "" then indent
    else if doc[|doc| - 1] == ' ' then doc
    else if doc[|doc| - 1] == '\n' then doc + indent
    else doc + "\n" + indent
  }

  /** The document once v has been written behind doc at the given indentation. */
  ghost function Styled(v: Value, doc: string, indent: string): string
    decreases Height(v), 2, 0
  {
    if IsLeaf(v) then doc + LeafText(v)
    else if v.data.Object? then
      Indented(StyledMembers(v, |v.data.members|, Indented(doc, indent) + "{", indent + INDENT), indent) + "}"
    else if Breaks(v.data.elems) then
      Indented(StyledElements(v, ArraySize(v.data.elems), Indented(doc, indent) + "[", indent + INDENT), indent) + "]"
    else doc + "[ " + OneLine(v.data.elems, ArraySize(v.data.elems)) + " ]"
  }

  /** The first n members, one to a line. */
  ghost function StyledMembers(v: Value, n: nat, doc: string, indent: string): string
    requires v.data.Object? && n <= |v.data.members|
    decreases Height(v), 1, n
  {
    var es := v.data.members;
    if n == 0 then doc
    else
      var before := StyledMembers(v, n - 1, doc, indent) + if n > 1 then "," else "";
      var key := es[n - 1].key;
      GetHeight(es, key);
      Styled(Get(es, key), Indented(before, indent) + NameText(key) + " : ", indent)
  }

  /** The first n elements, one to a line. */
  ghost function StyledElements(v: Value, n: nat, doc: string, indent: string): string
    requires v.data.Array?
    decreases Height(v), 1, n
  {
    var es := v.data.elems;
    if n == 0 then doc
    else
      var before := StyledElements(v, n - 1, doc, indent) + if n > 1 then "," else "";
      GetHeight(es, Index(n - 1));
      Styled(ElementAt(es, n - 1), Indented(before, indent), indent)
  }

  /** The first n elements on one line. */
  ghost function OneLine(es: seq<Entry>, n: nat): string {
    if n == 0 then ""
    else OneLine(es, n - 1) + (if n > 1 then ", " else "") + LeafText(ElementAt(es, n - 1))
  }

  // ---------- one step of each ----------

  lemma StyledLeaf(v: Value, doc: string, indent: string)
    requires IsLeaf(v)
    ensures Styled(v, doc, indent) == doc + LeafText(v)
  {
    hide LeafText, IsLeaf;
  }

  lemma StyledObject(v: Value, doc: string, indent: string)
    requires v.data.Object? && SizeOf(v) > 0
    ensures Styled(v, doc, indent) ==
            Indented(StyledMembers(v, |v.data.members|, Indented(doc, indent) + "{", indent + INDENT), indent) + "}"
  {
    hide LeafText, StyledMembers, Indented;
  }

  lemma StyledArray(v: Value, doc: string, indent: string)
    requires v.data.Array? && SizeOf(v) > 0
    ensures Styled(v, doc, indent) ==
            if Breaks(v.data.elems) then
              Indented(StyledElements(v, SizeOf(v), Indented(doc, indent) + "[", indent + INDENT), indent) + "]"
            else doc + "[ " + OneLine(v.data.elems, SizeOf(v)) + " ]"
  {
    hide LeafText, StyledElements, Indented, Breaks, OneLine, ArraySize;
  }

  lemma MembersNext(v: Value, n: nat, doc: string, indent: string)
    requires v.data.Object? && n < |v.data.members|
    ensures StyledMembers(v, 0, doc, indent) == doc
    ensures var key := v.data.members[n].key;
            StyledMembers(v, n + 1, doc, indent) ==
            Styled(Get(v.data.members, key),
                   Indented(StyledMembers(v, n, doc, indent) +
                    (if n > 0 then "," else ""), indent) + NameText(key) + " : ",
                   indent)
  {
    hide Styled, Indented, NameText, Get;
  }

  lemma ElementsNext(v: Value, n: nat, doc: string, indent: string)
    requires v.data.Array?
    ensures StyledElements(v, 0, doc, indent) == doc
    ensures StyledElements(v, n + 1, doc, indent) ==
            Styled(ElementAt(v.data.elems, n),
                   Indented(StyledElements(v, n, doc, indent) + (if n > 0 then "," else ""), indent), indent)
  {
    hide Styled, Indented, ElementAt;
  }

  lemma LineNext(es: seq<Entry>, n: nat)
    ensures OneLine(es, 0) == "" && LeafLengths(es, 0) == 0
    ensures OneLine(es, n + 1) == OneLine(es, n) + (if n > 0 then ", " else "") + LeafText(ElementAt(es, n))
    ensures LeafLengths(es, n + 1) == LeafLengths(es, n) + |LeafText(ElementAt(es, n))|
  {
    hide LeafText, ElementAt;
  }
}
