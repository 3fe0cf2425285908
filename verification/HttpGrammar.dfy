/** The written form of a request, as sections 4 and 5 of RFC 1945 lay it out and the parser accepts it. */
module HttpGrammar {
  import opened Decimals
  import opened HttpParser

  /** A continuation line: blanks, then the text that extends the value. */
  datatype Fold = Fold(lws: string, text: string)

  datatype Field = Field(name: string, first: string, folds: seq<Fold>)

  datatype Message = Message(verb: string, uri: string, major: string, minor: string, fields: seq<Field>)

  // ---------------------------------------------------------------- what may be written

  /** The characters of a token: any ASCII character but controls and special ones (section 2.2 of RFC 1945). */
  predicate InToken(c: char) {
    'A' <= c <= 'Z' || 'a' <= c <= 'z' || '0' <= c <= '9' || c in "!#$%&'*+-.^_`|~"
  }

  /** A control character: below the blank, or DEL. */
  predicate Control(c: char) { c < ' ' || c == '\U{7f}' }

  predicate Blank(c: char) { c == ' ' || c == '\t' }

  predicate AllToken(s: string) { forall i | 0 <= i < |s| :: InToken(s[i]) }

  predicate AllValue(s: string) { forall i | 0 <= i < |s| :: !Control(s[i]) }

  predicate AllBlank(s: string) { forall i | 0 <= i < |s| :: Blank(s[i]) }

  predicate AllUri(s: string) { forall i | 0 <= i < |s| :: !Control(s[i]) && s[i] != ' ' }

  predicate FoldOk(f: Fold) {
    f.lws != "" && AllBlank(f.lws) && AllValue(f.text) && (f.text == "" || !Blank(f.text[0]))
  }

  predicate FoldsOk(folds: seq<Fold>) { forall i | 0 <= i < |folds| :: FoldOk(folds[i]) }

  predicate FieldOk(h: Field) {
    h.name != "" && AllToken(h.name) && AllValue(h.first) && FoldsOk(h.folds)
  }

  predicate FieldsOk(fields: seq<Field>) { forall i | 0 <= i < |fields| :: FieldOk(fields[i]) }

  ghost predicate WellFormed(m: Message) {
    && m.verb != "" && AllToken(m.verb) && AllUri(m.uri)
    && m.major != "" && AllDigits(m.major) && m.minor != "" && AllDigits(m.minor)
    && FieldsOk(m.fields)
  }

  lemma InTokenParses(c: char)
    requires InToken(c)
    ensures IsTokenChar(c) && c != ' ' && c != ':' && c != '\r' && !IsBlank(c)
  {
  }

  lemma TokenCharSpells(c: char)
    requires IsTokenChar(c)
    ensures InToken(c)
  {
  }

  /** The parser's classes of characters are these. */
  lemma CharacterClasses(c: char)
    ensures IsTokenChar(c) <==> InToken(c)
    ensures IsCtl(c) <==> Control(c)
    ensures IsBlank(c) <==> Blank(c)
  {
    hide IsTokenChar, InToken;
    if InToken(c) { InTokenParses(c); }
    if IsTokenChar(c) { TokenCharSpells(c); }
  }

  // ---------------------------------------------------------------- how it is written

  function FoldsText(folds: seq<Fold>): string {
    if folds == [] then ""
    else
      var n := |folds| - 1;
      FoldsText(folds[..n]) + "\r\n" + folds[n].lws + folds[n].text
  }

  /** A field without its line end. */
  function OpenField(h: Field): string {
    h.name + ": " + h.first + FoldsText(h.folds)
  }

  function FieldsText(fields: seq<Field>): string {
    if fields == [] then ""
    else
      var n := |fields| - 1;
      FieldsText(fields[..n]) + OpenField(fields[n]) + "\r\n"
  }

  /** The request line without its line end. */
  function RequestLine(m: Message): string {
    m.verb + " " + m.uri + " HTTP/" + m.major + "." + m.minor
  }

  function Written(m: Message): string {
    RequestLine(m) + "\r\n" + FieldsText(m.fields) + "\r\n"
  }

  // ---------------------------------------------------------------- what it says

  function FoldTexts(folds: seq<Fold>): string {
    if folds == [] then "" else FoldTexts(folds[..|folds| - 1]) + folds[|folds| - 1].text
  }

  /** A value is its first line and the folded texts, joined with nothing between them. */
  function HeaderOf(h: Field): Header {
    Header(h.name, h.first + FoldTexts(h.folds))
  }

  function HeadersOf(fields: seq<Field>): (hs: seq<Header>)
    ensures |hs| == |fields|
  {
    if fields == [] then [] else HeadersOf(fields[..|fields| - 1]) + [HeaderOf(fields[|fields| - 1])]
  }

  ghost function RequestOf(m: Message): RequestData
    requires AllDigits(m.major) && AllDigits(m.minor)
  {
    RequestData(m.verb, m.uri, NatOf(m.major), NatOf(m.minor), HeadersOf(m.fields))
  }

  lemma HeadersOfAppend(fields: seq<Field>, h: Field)
    ensures HeadersOf(fields + [h]) == HeadersOf(fields) + [HeaderOf(h)]
    ensures FieldsText(fields + [h]) == FieldsText(fields) + OpenField(h) + "\r\n"
    ensures FieldsOk(fields + [h]) <==> FieldsOk(fields) && FieldOk(h)
  {
    var all := fields + [h];
    assert all[..|fields|] == fields;
    hide FieldOk;
    if FieldsOk(all) {
      assert forall i | 0 <= i < |fields| :: fields[i] == all[i];
      assert all[|fields|] == h;
    }
  }

  lemma FoldsAppend(folds: seq<Fold>, f: Fold)
    ensures FoldsText(folds + [f]) == FoldsText(folds) + "\r\n" + f.lws + f.text
    ensures FoldTexts(folds + [f]) == FoldTexts(folds) + f.text
    ensures FoldsOk(folds + [f]) <==> FoldsOk(folds) && FoldOk(f)
  {
    var all := folds + [f];
    assert all[..|folds|] == folds;
    hide FoldOk;
    if FoldsOk(all) {
      assert forall i | 0 <= i < |folds| :: folds[i] == all[i];
      assert all[|folds|] == f;
    }
  }
}
