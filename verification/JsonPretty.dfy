/** The styled text as lines: a pretty printer that puts lines together, and that StyledWriter prints its lines. */
module JsonPretty {
  import opened Decimals
  import opened JsonValue
  import opened JsonText
  import opened JsonLayout
  import opened JsonWriters
  import opened JsonStyledText
  import opened JsonStyledWriter

  // ---------- lines ----------

  /** Three blanks for each level. */
  function Pad(depth: nat): string { seq(3 * depth, _ => ' ') }

  /** The lines with line feeds between them. */
  function Join(lines: seq<string>): string
    requires lines != []
  {
    var last := |lines| - 1;
    if last == 0 then lines[0] else Join(lines[..last]) + "\n" + lines[last]
  }

  function Headed(head: string, lines: seq<string>): (r: seq<string>)
    requires lines != []
    ensures r != []
  {
    [head + lines[0]] + lines[1..]
  }

  function Tailed(lines: seq<string>, tail: string): (r: seq<string>)
    requires lines != []
    ensures r != []
  {
    lines[..|lines| - 1] + [lines[|lines| - 1] + tail]
  }

  /** The first n elements with a comma and a blank between them. */
  ghost function Listed(es: seq<Entry>, n: nat): string {
    if n == 0 then ""
    else if n == 1 then LeafText(ElementAt(es, 0))
    else Listed(es, n - 1) + ", " + LeafText(ElementAt(es, n - 1))
  }

  lemma {:induction false} OneLineIsListed(es: seq<Entry>, n: nat)
    ensures OneLine(es, n) == Listed(es, n)
  {
    hide LeafText, ElementAt;
    if n > 0 {
      OneLineIsListed(es, n - 1);
      if n == 1 { assert "" + "" + LeafText(ElementAt(es, 0)) == LeafText(ElementAt(es, 0)); }
    }
  }

  /** The lines of a value at a depth; the first one continues the line it is on. */
  ghost function Lines(v: Value, depth: nat): (lines: seq<string>)
    ensures lines != []
    decreases Height(v), 2, 0
  {
    if IsLeaf(v) then [LeafText(v)]
    else if v.data.Object? then
      ["{"] + MemberLines(v, |v.data.members|, depth + 1) + [Pad(depth) + "}"]
    else if Breaks(v.data.elems) then
      ["["] + ElementLines(v, SizeOf(v), depth + 1) + [Pad(depth) + "]"]
    else ["[ " + Listed(v.data.elems, SizeOf(v)) + " ]"]
  }

  /** The lines of the first n members, each with its name in front, and a comma behind it unless it is the last. */
  ghost function MemberLines(v: Value, n: nat, depth: nat): (lines: seq<string>)
    requires v.data.Object? && n <= |v.data.members|
    ensures n > 0 ==> lines != []
    decreases Height(v), 1, n
  {
    if n == 0 then []
    else
      var key := v.data.members[n - 1].key;
      GetHeight(v.data.members, key);
      MemberLines(v, n - 1, depth) +
      Tailed(Headed(Pad(depth) + NameText(key) + " : ", Lines(Get(v.data.members, key), depth)),
             if n < |v.data.members| then "," else "")
  }

  /** The lines of the first n elements, with a comma behind each but the last. */
  ghost function ElementLines(v: Value, n: nat, depth: nat): (lines: seq<string>)
    requires v.data.Array? && n <= SizeOf(v)
    ensures n > 0 ==> lines != []
    decreases Height(v), 1, n
  {
    if n == 0 then []
    else
      GetHeight(v.data.elems, Index(n - 1));
      ElementLines(v, n - 1, depth) +
      Tailed(Headed(Pad(depth), Lines(ElementAt(v.data.elems, n - 1), depth)), if n < SizeOf(v) then "," else "")
  }

  lemma {:induction false} JoinAppend(a: seq<string>, b: seq<string>)
    requires a != [] && b != []
    ensures Join(a + b) == Join(a) + "\n" + Join(b)
    decreases |b|
  {
    var last := |b| - 1;
    assert (a + b)[..|a + b| - 1] == a + b[..last];
    if last == 0 {
      assert a + b[..0] == a;
    } else {
      JoinAppend(a, b[..last]);
    }
  }

  lemma {:induction false} JoinHeaded(head: string, lines: seq<string>)
    requires lines != []
    ensures Join(Headed(head, lines)) == head + Join(lines)
    decreases |lines|
  {
    var last := |lines| - 1;
    if last > 0 {
      assert Headed(head, lines)[..last] == Headed(head, lines[..last]);
      JoinHeaded(head, lines[..last]);
    }
  }

  lemma JoinTailed(lines: seq<string>, tail: string)
    requires lines != []
    ensures Join(Tailed(lines, tail)) == Join(lines) + tail
  {
    var last := |lines| - 1;
    assert Tailed(lines, tail)[..last] == lines[..last];
  }

  // ---------- where writeIndent breaks the line ----------

  /** A text behind which writeIndent breaks the line. */
  predicate EndsSolid(s: string) { s != "" && s[|s| - 1] != ' ' && s[|s| - 1] != '\n' }

  lemma SolidEnd(s: string, t: string)
    requires EndsSolid(t)
    ensures EndsSolid(s + t)
  {
  }

  lemma DigitsSolid(s: string)
    requires s != "" && AllDigits(s)
    ensures EndsSolid(s) && EndsSolid("-" + s)
  {
  }

  /** The text of a leaf ends in no blank. */
  lemma LeafSolid(v: Value)
    requires Writable(v) && IsLeaf(v)
    ensures EndsSolid(LeafText(v))
  {
    var w := Norm(v);
    match w.data
    case Null => FlatOne("null");
    case Bool(b) => FlatOne(if b then "true" else "false");
    case Int(i) =>
      FlatOne(IntText(i));
      DigitsSolid(Decimal(if i < 0 then -i else i));
    case UInt(u) =>
      FlatOne(Decimal(u));
      DigitsSolid(Decimal(u));
    case Str(s) =>
      FlatOne(Quote(s));
    case Array(es) => EmptyArrayFlat(v);
    case Object(es) => EmptyObjectFlat(v);
  }

  // ---------- the writer prints the lines ----------

  /** Where a value may be written: at the start of the document, or behind a blank. */
  predicate Continues(doc: string, depth: nat) {
    (doc == "" && depth == 0) || (doc != "" && doc[|doc| - 1] == ' ')
  }

  lemma PadNext(depth: nat)
    ensures Pad(depth) + INDENT == Pad(depth + 1)
  {
  }

  lemma IndentedContinues(doc: string, depth: nat)
    requires Continues(doc, depth)
    ensures Indented(doc, Pad(depth)) == doc
  {
  }

  lemma IndentedBreaks(doc: string, depth: nat)
    requires EndsSolid(doc)
    ensures Indented(doc, Pad(depth)) == doc + "\n" + Pad(depth)
    ensures depth > 0 ==> Continues(Indented(doc, Pad(depth)), depth)
  {
  }

  /** Written where it continues a line, a value adds exactly its lines, and ends in no blank. */
  lemma {:induction false} StyledIsLines(v: Value, doc: string, depth: nat)
    requires Writable(v) && Continues(doc, depth)
    ensures Styled(v, doc, Pad(depth)) == doc + Join(Lines(v, depth)) && EndsSolid(Join(Lines(v, depth)))
    decreases Height(v), 2, 0
  {
    hide Lines, Styled, LeafText, Join, Breaks, Writable;
    if IsLeaf(v) {
      StyledLeaf(v, doc, Pad(depth));
      LeafSolid(v);
      OneLineIs(v, depth);
    } else if v.data.Object? {
      StyledObject(v, doc, Pad(depth));
      BracesAround(v, doc, depth);
    } else {
      StyledArray(v, doc, Pad(depth));
      if Breaks(v.data.elems) {
        BracketsAround(v, doc, depth);
      } else {
        OneLineIs(v, depth);
        SolidEnd("[ " + OneLine(v.data.elems, SizeOf(v)), " ]");
        assert doc + "[ " + OneLine(v.data.elems, SizeOf(v)) + " ]"
            == doc + ("[ " + OneLine(v.data.elems, SizeOf(v)) + " ]");
      }
    }
  }

  lemma OneLineIs(v: Value, depth: nat)
    requires IsLeaf(v) || (v.data.Array? && !Breaks(v.data.elems))
    ensures Join(Lines(v, depth)) ==
            if IsLeaf(v) then LeafText(v) else "[ " + OneLine(v.data.elems, SizeOf(v)) + " ]"
  {
    hide LeafText, OneLine, Listed, Breaks;
    if v.data.Array? { OneLineIsListed(v.data.elems, SizeOf(v)); }
  }

  lemma {:induction false} BracesAround(v: Value, doc: string, depth: nat)
    requires Writable(v) && v.data.Object? && SizeOf(v) > 0 && Continues(doc, depth)
    ensures var indent, n := Pad(depth), |v.data.members|;
      && Indented(StyledMembers(v, n, Indented(doc, indent) + "{", indent + INDENT), indent) + "}"
         == doc + Join(Lines(v, depth))
      && EndsSolid(Join(Lines(v, depth)))
    decreases Height(v), 1, |v.data.members| + 1
  {
    hide StyledMembers, MemberLines, Join, Indented, Pad, LeafText, Continues;
    var n := |v.data.members|;
    PadNext(depth);
    IndentedContinues(doc, depth);
    SolidEnd(doc, "{");
    MembersAreLines(v, n, doc + "{", depth + 1);
    var text := StyledMembers(v, n, doc + "{", Pad(depth + 1));
    assert text + "" == text;
    Around(doc, "{", text, MemberLines(v, n, depth + 1), "}", depth);
  }

  lemma {:induction false} BracketsAround(v: Value, doc: string, depth: nat)
    requires Writable(v) && v.data.Array? && SizeOf(v) > 0 && Breaks(v.data.elems) && Continues(doc, depth)
    ensures var indent, n := Pad(depth), SizeOf(v);
      && Indented(StyledElements(v, n, Indented(doc, indent) + "[", indent + INDENT), indent) + "]"
         == doc + Join(Lines(v, depth))
      && EndsSolid(Join(Lines(v, depth)))
    decreases Height(v), 1, SizeOf(v) + 1
  {
    hide StyledElements, ElementLines, Join, Indented, Pad, LeafText, Continues, Breaks, ArraySize;
    var n := SizeOf(v);
    PadNext(depth);
    IndentedContinues(doc, depth);
    SolidEnd(doc, "[");
    ElementsAreLines(v, n, doc + "[", depth + 1);
    var text := StyledElements(v, n, doc + "[", Pad(depth + 1));
    assert text + "" == text;
    Around(doc, "[", text, ElementLines(v, n, depth + 1), "]", depth);
  }

  /** The brackets of a container, each on a line of its own. */
  lemma Around(doc: string, open: string, text: string, lines: seq<string>, close: string, depth: nat)
    requires lines != [] && EndsSolid(Join(lines)) && EndsSolid(close) && text == doc + open + "\n" + Join(lines)
    ensures var all := [open] + lines + [Pad(depth) + close];
      Indented(text, Pad(depth)) + close == doc + Join(all) && EndsSolid(Join(all))
  {
    hide Join, EndsSolid, Indented, Pad;
    SolidEnd(doc + open + "\n", Join(lines));
    IndentedBreaks(text, depth);
    JoinAppend([open] + lines, [Pad(depth) + close]);
    JoinAppend([open], lines);
    JoinOne(open);
    JoinOne(Pad(depth) + close);
    SolidEnd(Join([open] + lines) + "\n" + Pad(depth), close);
    assert Join([open] + lines) + "\n" + (Pad(depth) + close) == Join([open] + lines) + "\n" + Pad(depth) + close;
  }

  lemma JoinOne(line: string)
    ensures Join([line]) == line
  {
  }

  /** A member or element on its own line, with what stands in front of it and behind it. */
  lemma {:induction false} ItemIsLines(child: Value, before: string, head: string, comma: string, depth: nat)
    requires Writable(child) && EndsSolid(before) && depth > 0 && comma in {"", ","}
    requires head == "" || head[|head| - 1] == ' '
    ensures var block := Tailed(Headed(Pad(depth) + head, Lines(child, depth)), comma);
      && Styled(child, Indented(before, Pad(depth)) + head, Pad(depth)) + comma == before + "\n" + Join(block)
      && EndsSolid(Join(block))
    decreases Height(child), 3
  {
    hide Styled, Lines, Join, Writable, Headed, Tailed;
    IndentedBreaks(before, depth);
    var doc := Indented(before, Pad(depth)) + head;
    assert Continues(doc, depth);
    StyledIsLines(child, doc, depth);
    var text := Join(Lines(child, depth));
    JoinHeaded(Pad(depth) + head, Lines(child, depth));
    JoinTailed(Headed(Pad(depth) + head, Lines(child, depth)), comma);
    assert doc + text + comma == before + "\n" + (Pad(depth) + head + text + comma);
    if comma == "" {
      SolidEnd(Pad(depth) + head, text);
      assert Pad(depth) + head + text + comma == Pad(depth) + head + text;
    } else {
      SolidEnd(Pad(depth) + head + text, comma);
    }
  }

  /** One more block of lines. */
  lemma NextBlock(doc: string, lines: seq<string>, before: string, block: seq<string>)
    requires block != [] && EndsSolid(Join(block))
    requires before == if lines == [] then doc else doc + "\n" + Join(lines)
    ensures before + "\n" + Join(block) == doc + "\n" + Join(lines + block) && EndsSolid(Join(lines + block))
  {
    hide Join, EndsSolid;
    if lines == [] {
      assert lines + block == block;
    } else {
      JoinAppend(lines, block);
      SolidEnd(Join(lines) + "\n", Join(block));
      assert doc + "\n" + Join(lines) + "\n" + Join(block) == doc + "\n" + (Join(lines) + "\n" + Join(block));
    }
  }

  /** The first n members, with the comma behind them, are their lines. */
  lemma {:induction false} MembersAreLines(v: Value, n: nat, doc: string, depth: nat)
    requires Writable(v) && v.data.Object? && n <= |v.data.members| && 0 < |v.data.members|
    requires EndsSolid(doc) && depth > 0
    ensures n == 0 ==> StyledMembers(v, n, doc, Pad(depth)) == doc
    ensures n > 0 ==>
              StyledMembers(v, n, doc, Pad(depth)) + (if n < |v.data.members| then "," else "")
              == doc + "\n" + Join(MemberLines(v, n, depth))
              && EndsSolid(Join(MemberLines(v, n, depth)))
    decreases Height(v), 1, n
  {
    hide Styled, StyledMembers, Lines, Join, Indented, Pad, EndsSolid, Headed, Tailed, NameText, Get;
    MembersNext(v, 0, doc, Pad(depth));
    if n > 0 {
      var key := v.data.members[n - 1].key;
      var child, head := Get(v.data.members, key), NameText(key) + " : ";
      var comma := if n < |v.data.members| then "," else "";
      GetHeight(v.data.members, key);
      GetWritable(v.data.members, key);
      MembersAreLines(v, n - 1, doc, depth);
      var first := StyledMembers(v, n - 1, doc, Pad(depth));
      var before := first + if n > 1 then "," else "";
      assert n == 1 ==> before == doc;
      if n > 1 { SolidEnd(doc + "\n", Join(MemberLines(v, n - 1, depth))); }
      MembersNext(v, n - 1, doc, Pad(depth));
      assert Indented(before, Pad(depth)) + NameText(key) + " : " == Indented(before, Pad(depth)) + head;
      ItemIsLines(child, before, head, comma, depth);
      assert Pad(depth) + NameText(key) + " : " == Pad(depth) + head;
      NextBlock(doc, MemberLines(v, n - 1, depth), before,
        Tailed(Headed(Pad(depth) + head, Lines(child, depth)), comma));
    }
  }

  lemma {:induction false} ElementsAreLines(v: Value, n: nat, doc: string, depth: nat)
    requires Writable(v) && v.data.Array? && n <= SizeOf(v) && EndsSolid(doc) && depth > 0
    ensures n == 0 ==> StyledElements(v, n, doc, Pad(depth)) == doc
    ensures n > 0 ==>
              StyledElements(v, n, doc, Pad(depth)) + (if n < SizeOf(v) then "," else "")
              == doc + "\n" + Join(ElementLines(v, n, depth))
              && EndsSolid(Join(ElementLines(v, n, depth)))
    decreases Height(v), 1, n
  {
    hide Styled, StyledElements, Lines, Join, Indented, Pad, EndsSolid, Headed, Tailed, Get, ArraySize;
    ElementsNext(v, 0, doc, Pad(depth));
    if n > 0 {
      var child, comma := ElementAt(v.data.elems, n - 1), if n < SizeOf(v) then "," else "";
      GetHeight(v.data.elems, Index(n - 1));
      GetWritable(v.data.elems, Index(n - 1));
      ElementsAreLines(v, n - 1, doc, depth);
      var first := StyledElements(v, n - 1, doc, Pad(depth));
      var before := first + if n > 1 then "," else "";
      assert n == 1 ==> before == doc;
      if n > 1 { SolidEnd(doc + "\n", Join(ElementLines(v, n - 1, depth))); }
      ElementsNext(v, n - 1, doc, Pad(depth));
      assert Indented(before, Pad(depth)) + "" == Indented(before, Pad(depth)) && Pad(depth) + "" == Pad(depth);
      ItemIsLines(child, before, "", comma, depth);
      NextBlock(doc, ElementLines(v, n - 1, depth), before,
        Tailed(Headed(Pad(depth), Lines(child, depth)), comma));
    }
  }

  /** The document StyledWriter writes: the lines of the value, and a line feed. */
  lemma DocumentIsLines(v: Value)
    requires Writable(v)
    ensures Styled(v, "", "") + "\n" == Join(Lines(v, 0)) + "\n"
  {
    hide Styled, Lines, Join, Writable;
    assert Pad(0) == "";
    StyledIsLines(v, "", 0);
    assert "" + Join(Lines(v, 0)) == Join(Lines(v, 0));
  }

  // ---------- when an array is broken over lines ----------

  lemma {:induction false} OneLineLength(es: seq<Entry>, n: nat)
    ensures |OneLine(es, n)| == LeafLengths(es, n) + if n > 1 then (n - 1) * 2 else 0
  {
    hide LeafText, ElementAt;
    if n > 0 { OneLineLength(es, n - 1); }
  }

  /** A non-empty array stays on one line exactly if it has fewer than 25 elements, none of them a non-empty container,
      and the line is shorter than 74 characters. */
  lemma BreaksExactly(es: seq<Entry>)
    requires ArraySize(es) > 0
    ensures var n := ArraySize(es);
      !Breaks(es) <==>
        && n < 25 && |"[ " + OneLine(es, n) + " ]"| < 74
        && (forall i: nat | i < n ::
              var e := ElementAt(es, i).data;
              (e.Array? ==> ArraySize(e.elems) == 0) && (e.Object? ==> e.members == []))
  {
    hide LeafLengths, OneLine, ElementAt;
    OneLineLength(es, ArraySize(es));
  }
}
