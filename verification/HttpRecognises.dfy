/** The parser accepts nothing but written requests, and rejects as early as possible. */
module HttpRecognises {
  import opened Decimals
  import opened HttpParser
  import opened HttpGrammar
  import opened HttpAccepts

  // ---------------------------------------------------------------- what a state has read

  predicate InFields(st: State) {
    st.HeaderLws? || st.HeaderName? || st.SpaceBeforeHeaderValue? || st.HeaderValue? || st.ExpectingNewline2?
  }

  ghost predicate VerbOk(m: Message) { m.verb != "" && AllToken(m.verb) }

  /** The last field as far as the state has read it. */
  predicate LastFits(st: State, h: Field) {
    match st
    case HeaderName => h.first == "" && h.folds == []
    case SpaceBeforeHeaderValue => h.first == "" && h.folds == []
    case HeaderLws => h.folds != [] && h.folds[|h.folds| - 1].text == ""
    case HeaderValue => h.folds == [] || h.folds[|h.folds| - 1].text != ""
    case _ => true
  }

  /** `m` is the part of a message that state `st` has read. */
  ghost predicate Reads(st: State, m: Message) {
    match st
    case MethodStart => m == Message("", "", "", "", [])
    case Method => VerbOk(m) && m == Message(m.verb, "", "", "", [])
    case Uri => VerbOk(m) && AllUri(m.uri) && m == Message(m.verb, m.uri, "", "", [])
    case VersionH => VerbOk(m) && AllUri(m.uri) && m == Message(m.verb, m.uri, "", "", [])
    case VersionT1 => VerbOk(m) && AllUri(m.uri) && m == Message(m.verb, m.uri, "", "", [])
    case VersionT2 => VerbOk(m) && AllUri(m.uri) && m == Message(m.verb, m.uri, "", "", [])
    case VersionP => VerbOk(m) && AllUri(m.uri) && m == Message(m.verb, m.uri, "", "", [])
    case VersionSlash => VerbOk(m) && AllUri(m.uri) && m == Message(m.verb, m.uri, "", "", [])
    case MajorStart => VerbOk(m) && AllUri(m.uri) && m == Message(m.verb, m.uri, "", "", [])
    case Major =>
      && VerbOk(m) && AllUri(m.uri) && m.major != "" && AllDigits(m.major)
      && m == Message(m.verb, m.uri, m.major, "", [])
    case MinorStart =>
      && VerbOk(m) && AllUri(m.uri) && m.major != "" && AllDigits(m.major)
      && m == Message(m.verb, m.uri, m.major, "", [])
    case Minor => WellFormed(m) && m.fields == []
    case ExpectingNewline1 => WellFormed(m) && m.fields == []
    case HeaderLineStart => WellFormed(m)
    case ExpectingNewline3 => WellFormed(m)
    case _ => WellFormed(m) && m.fields != [] && LastFits(st, m.fields[|m.fields| - 1])
  }

  function Head(m: Message): string { RequestLine(m) + "\r\n" }

  function Last(m: Message): Field
    requires m.fields != []
  {
    m.fields[|m.fields| - 1]
  }

  function Before(m: Message): string
    requires m.fields != []
  {
    Head(m) + FieldsText(m.fields[..|m.fields| - 1])
  }

  /** The text that state `st` has read when it holds `m`. */
  function Spelled(st: State, m: Message): string
    requires InFields(st) ==> m.fields != []
  {
    match st
    case MethodStart => ""
    case Method => m.verb
    case Uri => m.verb + " " + m.uri
    case VersionH => m.verb + " " + m.uri + " "
    case VersionT1 => m.verb + " " + m.uri + " H"
    case VersionT2 => m.verb + " " + m.uri + " HT"
    case VersionP => m.verb + " " + m.uri + " HTT"
    case VersionSlash => m.verb + " " + m.uri + " HTTP"
    case MajorStart => m.verb + " " + m.uri + " HTTP/"
    case Major => m.verb + " " + m.uri + " HTTP/" + m.major
    case MinorStart => m.verb + " " + m.uri + " HTTP/" + m.major + "."
    case Minor => RequestLine(m)
    case ExpectingNewline1 => RequestLine(m) + "\r"
    case HeaderLineStart => Head(m) + FieldsText(m.fields)
    case HeaderName => Before(m) + Last(m).name
    case SpaceBeforeHeaderValue => Before(m) + Last(m).name + ":"
    case HeaderLws => Before(m) + OpenField(Last(m))
    case HeaderValue => Before(m) + OpenField(Last(m))
    case ExpectingNewline2 => Before(m) + OpenField(Last(m)) + "\r"
    case ExpectingNewline3 => Head(m) + FieldsText(m.fields) + "\r"
  }

  /** The message after one more character. */
  function Grow(st: State, m: Message, c: char): Message
    requires InFields(st) ==> m.fields != []
  {
    match st
    case MethodStart => m.(verb := [c])
    case Method => if c == ' ' then m else m.(verb := m.verb + [c])
    case Uri => if c == ' ' then m else m.(uri := m.uri + [c])
    case MajorStart => m.(major := [c])
    case Major => if c == '.' then m else m.(major := m.major + [c])
    case MinorStart => m.(minor := [c])
    case Minor => if c == '\r' then m else m.(minor := m.minor + [c])
    case HeaderLineStart =>
      if c == '\r' then m
      else if m.fields != [] && IsBlank(c) then GrowLast(m, Last(m).(folds := Last(m).folds + [Fold([c], "")]))
      else m.(fields := m.fields + [Field([c], "", [])])
    case HeaderName => if c == ':' then m else GrowLast(m, Last(m).(name := Last(m).name + [c]))
    case HeaderLws =>
      if c == '\r' then m
      else if IsBlank(c) then GrowLast(m, GrowLws(Last(m), c))
      else GrowLast(m, GrowValue(Last(m), c))
    case HeaderValue => if c == '\r' then m else GrowLast(m, GrowValue(Last(m), c))
    case _ => m
  }

  function GrowLast(m: Message, h: Field): Message
    requires m.fields != []
  {
    m.(fields := m.fields[..|m.fields| - 1] + [h])
  }

  function GrowLws(h: Field, c: char): Field {
    if h.folds == [] then h
    else
      var n := |h.folds| - 1;
      h.(folds := h.folds[..n] + [h.folds[n].(lws := h.folds[n].lws + [c])])
  }

  function GrowValue(h: Field, c: char): Field {
    if h.folds == [] then h.(first := h.first + [c])
    else
      var n := |h.folds| - 1;
      h.(folds := h.folds[..n] + [h.folds[n].(text := h.folds[n].text + [c])])
  }

  // ---------------------------------------------------------------- one character keeps the description

  ghost predicate Describes(st: State, req: RequestData, m: Message) {
    Reads(st, m) && AllDigits(m.major) && AllDigits(m.minor) && req == RequestOf(m)
  }

  /** The method and the URI. */
  lemma TargetStep(st: State, req: RequestData, m: Message, c: char)
    requires st.MethodStart? || st.Method? || st.Uri?
    requires Describes(st, req, m) && Transition(st, req, c).result.Indeterminate?
    ensures var s := Transition(st, req, c); var m2 := Grow(st, m, c);
            !InFields(s.state) && Describes(s.state, s.req, m2) &&
            Spelled(s.state, m2) == Spelled(st, m) + [c]
  {
    hide NatOf;
    match st
    case MethodStart =>
    case Method =>
    case Uri =>
  }

  /** The fixed characters before the version. */
  lemma ProtocolStep(st: State, req: RequestData, m: Message, c: char)
    requires st.VersionH? || st.VersionT1? || st.VersionT2? || st.VersionP? || st.VersionSlash?
    requires Describes(st, req, m) && Transition(st, req, c).result.Indeterminate?
    ensures var s := Transition(st, req, c); var m2 := Grow(st, m, c);
            !InFields(s.state) && Describes(s.state, s.req, m2) &&
            Spelled(s.state, m2) == Spelled(st, m) + [c]
  {
    match st
    case VersionH =>
    case VersionT1 =>
    case VersionT2 =>
    case VersionP =>
    case VersionSlash =>
  }

  lemma DigitsGrow(s: string, c: char)
    requires AllDigits(s) && IsDigit(c)
    ensures AllDigits(s + [c]) && NatOf(s + [c]) == NatOf(s) * 10 + DigitValue(c)
  {
    assert (s + [c])[..|s|] == s;
  }

  lemma NoDigits()
    ensures AllDigits("") && NatOf("") == 0 && HeadersOf([]) == [] && FieldsOk([])
  {
  }

  /** The version numbers. */
  lemma MajorStep(st: State, req: RequestData, m: Message, c: char)
    requires st.MajorStart? || st.Major?
    requires Describes(st, req, m) && Transition(st, req, c).result.Indeterminate?
    ensures var s := Transition(st, req, c); var m2 := Grow(st, m, c);
            !InFields(s.state) && Describes(s.state, s.req, m2) &&
            Spelled(s.state, m2) == Spelled(st, m) + [c]
  {
    hide NatOf, AllDigits, HeadersOf, FieldsOk, AllUri, AllToken;
    NoDigits();
    if c != '.' {
      DigitsGrow(m.major, c);
      assert m.major == "" ==> m.major + [c] == [c];
    }
  }

  lemma MinorStep(st: State, req: RequestData, m: Message, c: char)
    requires st.MinorStart? || st.Minor?
    requires Describes(st, req, m) && Transition(st, req, c).result.Indeterminate?
    ensures var s := Transition(st, req, c); var m2 := Grow(st, m, c);
            !InFields(s.state) && Describes(s.state, s.req, m2) &&
            Spelled(s.state, m2) == Spelled(st, m) + [c]
  {
    hide NatOf, AllDigits, HeadersOf, FieldsOk, AllUri, AllToken;
    NoDigits();
    if c != '\r' {
      DigitsGrow(m.minor, c);
      assert m.minor == "" ==> m.minor + [c] == [c];
    }
  }

  // ---------------------------------------------------------------- header lines

  lemma GrowLastDescribes(m: Message, h: Field)
    requires WellFormed(m) && m.fields != [] && FieldOk(h)
    ensures var m2 := GrowLast(m, h); var n := |m.fields| - 1;
            WellFormed(m2) && m2.fields != [] && Last(m2) == h && Before(m2) == Before(m) &&
            RequestOf(m2) == RequestOf(m).(headers := RequestOf(m).headers[n := HeaderOf(h)])
  {
    hide FieldOk, HeaderOf, NatOf, OpenField, FieldsText;
    var n := |m.fields| - 1;
    var init := m.fields[..n];
    assert m.fields == init + [m.fields[n]];
    HeadersOfAppend(init, h);
    HeadersOfAppend(init, m.fields[n]);
    assert (init + [h])[..n] == init;
    assert HeadersOf(m.fields)[n := HeaderOf(h)] == HeadersOf(init) + [HeaderOf(h)];
  }

  lemma LastIsOk(m: Message)
    requires WellFormed(m) && m.fields != []
    ensures FieldOk(Last(m))
    ensures RequestOf(m).headers[|m.fields| - 1] == HeaderOf(Last(m))
    ensures Head(m) + FieldsText(m.fields) == Before(m) + OpenField(Last(m)) + "\r\n"
  {
    hide FieldOk, HeaderOf, OpenField;
    var n := |m.fields| - 1;
    assert FieldsText(m.fields) == FieldsText(m.fields[..n]) + OpenField(m.fields[n]) + "\r\n";
  }

  /** One more character of a value, on its first line or on a continuation line. */
  lemma ValueGrows(h: Field, c: char)
    requires FieldOk(h) && !IsCtl(c)
    requires h.folds != [] && h.folds[|h.folds| - 1].text == "" ==> !IsBlank(c)
    ensures var g := GrowValue(h, c);
            FieldOk(g) && LastFits(HeaderValue, g) && OpenField(g) == OpenField(h) + [c] &&
            HeaderOf(g) == Header(h.name, HeaderOf(h).value + [c])
  {
    if h.folds == [] {
      assert FoldsText([]) == "" && FoldTexts([]) == "";
      assert h.first + [c] + "" == h.first + "" + [c];
    } else {
      var n := |h.folds| - 1;
      var init, f := h.folds[..n], h.folds[n];
      var f2 := f.(text := f.text + [c]);
      assert h.folds == init + [f];
      FoldsAppend(init, f);
      FoldsAppend(init, f2);
      assert FoldOk(f2);
      hide FoldOk, FoldsOk, FoldsText, FoldTexts;
      assert h.first + (FoldTexts(init) + (f.text + [c])) == h.first + (FoldTexts(init) + f.text) + [c];
      LastCharacter(h.name + ": " + h.first, FoldsText(init) + "\r\n" + f.lws, f.text, c);
    }
  }

  lemma LastCharacter(a: string, b: string, d: string, c: char)
    ensures a + (b + (d + [c])) == a + (b + d) + [c]
  {
  }

  /** One more blank at the start of a continuation line. */
  lemma BlanksGrow(h: Field, c: char)
    requires FieldOk(h) && IsBlank(c) && LastFits(HeaderLws, h)
    ensures var g := GrowLws(h, c);
            FieldOk(g) && LastFits(HeaderLws, g) && OpenField(g) == OpenField(h) + [c] && HeaderOf(g) == HeaderOf(h)
  {
    var n := |h.folds| - 1;
    var init, f := h.folds[..n], h.folds[n];
    var f2 := f.(lws := f.lws + [c]);
    assert h.folds == init + [f];
    FoldsAppend(init, f);
    FoldsAppend(init, f2);
    assert FoldOk(f2);
    hide FoldOk, FoldsOk, FoldsText, FoldTexts;
    assert FoldsText(init) + "\r\n" + f.lws + "" == FoldsText(init) + "\r\n" + f.lws;
    assert FoldsText(init) + "\r\n" + (f.lws + [c]) + "" == FoldsText(init) + "\r\n" + (f.lws + [c]);
    LastCharacter(h.name + ": " + h.first, FoldsText(init) + "\r\n", f.lws, c);
  }

  /** A new continuation line. */
  lemma FoldStarts(h: Field, c: char)
    requires FieldOk(h) && IsBlank(c)
    ensures var g := h.(folds := h.folds + [Fold([c], "")]);
            FieldOk(g) && LastFits(HeaderLws, g) && OpenField(g) == OpenField(h) + "\r\n" + [c] &&
            HeaderOf(g) == HeaderOf(h)
  {
    var f := Fold([c], "");
    FoldsAppend(h.folds, f);
    assert FoldOk(f);
    hide FoldOk, FoldsOk, FoldsText, FoldTexts;
    assert FoldTexts(h.folds) + "" == FoldTexts(h.folds);
    var a, b := h.name + ": " + h.first, FoldsText(h.folds);
    assert a + (b + "\r\n" + [c] + "") == (a + b) + "\r\n" + [c];
  }

  lemma NameGrows(h: Field, c: char)
    requires FieldOk(h) && h.first == "" && h.folds == [] && IsTokenChar(c)
    ensures var g := h.(name := h.name + [c]);
            FieldOk(g) && HeaderOf(g) == HeaderOf(h).(name := h.name + [c])
  {
  }

  lemma NameStarts(c: char)
    requires IsTokenChar(c)
    ensures FieldOk(Field([c], "", [])) && HeaderOf(Field([c], "", [])) == Header([c], "")
  {
  }

  lemma NameEnds(h: Field)
    requires h.first == "" && h.folds == []
    ensures OpenField(h) == h.name + ":" + " "
  {
    assert h.name + ": " + "" + "" == h.name + ":" + " ";
  }

  // ---------------------------------------------------------------- one character of a header line

  lemma NameStep(req: RequestData, m: Message, c: char)
    requires Describes(HeaderName, req, m) && HeadersReady(HeaderName, req)
    requires Transition(HeaderName, req, c).result.Indeterminate?
    ensures var s := Transition(HeaderName, req, c); var m2 := Grow(HeaderName, m, c);
            m2.fields != [] && Describes(s.state, s.req, m2) && Spelled(s.state, m2) == Spelled(HeaderName, m) + [c]
  {
    hide FieldOk, HeaderOf, OpenField, FieldsText, NatOf, IsTokenChar, RequestLine;
    var h := Last(m);
    LastIsOk(m);
    FieldNamed(h);
    if c != ':' {
      NameGrows(h, c);
      GrowLastDescribes(m, h.(name := h.name + [c]));
    }
  }

  lemma ColonStep(req: RequestData, m: Message, c: char)
    requires Describes(SpaceBeforeHeaderValue, req, m) && HeadersReady(SpaceBeforeHeaderValue, req)
    requires Transition(SpaceBeforeHeaderValue, req, c).result.Indeterminate?
    ensures var s := Transition(SpaceBeforeHeaderValue, req, c); var m2 := Grow(SpaceBeforeHeaderValue, m, c);
            m2.fields != [] && Describes(s.state, s.req, m2) &&
            Spelled(s.state, m2) == Spelled(SpaceBeforeHeaderValue, m) + [c]
  {
    hide FieldOk, HeaderOf, OpenField, FieldsText, NatOf, RequestLine;
    NameEnds(Last(m));
    var a, n := Before(m), Last(m).name;
    assert a + (n + ":" + " ") == a + n + ":" + [' '];
  }

  /** The last field becomes `h`, which spells one more character. */
  lemma LastGrows(st: State, req: RequestData, m: Message, h: Field, c: char)
    requires st.HeaderValue? || st.HeaderLws?
    requires Describes(st, req, m) && FieldOk(h) && OpenField(h) == OpenField(Last(m)) + [c]
    ensures var m2 := GrowLast(m, h); var n := |m.fields| - 1;
            WellFormed(m2) && m2.fields != [] && Last(m2) == h && Before(m2) + OpenField(h) == Spelled(st, m) + [c] &&
            RequestOf(m2) == req.(headers := req.headers[n := HeaderOf(h)])
  {
    GrowLastDescribes(m, h);
    hide FieldOk, HeaderOf, OpenField, FieldsText, NatOf, RequestLine, GrowLast;
    assert Before(m) + (OpenField(Last(m)) + [c]) == Before(m) + OpenField(Last(m)) + [c];
  }

  lemma BlankStep(req: RequestData, m: Message, c: char)
    requires Describes(HeaderLws, req, m) && HeadersReady(HeaderLws, req) && IsBlank(c)
    ensures var m2 := GrowLast(m, GrowLws(Last(m), c));
            m2.fields != [] && Describes(HeaderLws, req, m2) && Spelled(HeaderLws, m2) == Spelled(HeaderLws, m) + [c]
  {
    var h := Last(m);
    LastIsOk(m);
    BlanksGrow(h, c);
    LastGrows(HeaderLws, req, m, GrowLws(h, c), c);
    hide FieldOk, HeaderOf, OpenField, FieldsText, RequestLine, GrowLws, GrowLast;
    assert req.headers[|m.fields| - 1 := HeaderOf(h)] == req.headers;
  }

  lemma CharacterStep(st: State, req: RequestData, m: Message, c: char)
    requires st.HeaderValue? || (st.HeaderLws? && !IsBlank(c))
    requires Describes(st, req, m) && HeadersReady(st, req) && !IsCtl(c)
    ensures var m2 := GrowLast(m, GrowValue(Last(m), c));
            m2.fields != [] && Describes(HeaderValue, req.PushValue(c), m2) &&
            Spelled(HeaderValue, m2) == Spelled(st, m) + [c]
  {
    hide FieldOk, HeaderOf, OpenField, FieldsText, RequestLine, GrowValue, NatOf, IsTokenChar;
    var h := Last(m);
    LastIsOk(m);
    FieldNamed(h);
    CharacterClasses(c);
    ValueGrows(h, c);
    LastGrows(st, req, m, GrowValue(h, c), c);
  }

  lemma ValueStep(st: State, req: RequestData, m: Message, c: char)
    requires st.HeaderValue? || st.HeaderLws?
    requires Describes(st, req, m) && HeadersReady(st, req)
    requires Transition(st, req, c).result.Indeterminate?
    ensures var s := Transition(st, req, c); var m2 := Grow(st, m, c);
            m2.fields != [] && Describes(s.state, s.req, m2) && Spelled(s.state, m2) == Spelled(st, m) + [c]
  {
    if c == '\r' {
      hide FieldOk, HeaderOf, OpenField, FieldsText, RequestLine;
    } else if st.HeaderLws? && IsBlank(c) {
      hide Describes, Spelled, GrowLast, GrowLws, GrowValue;
      BlankStep(req, m, c);
    } else {
      hide Describes, Spelled, GrowLast, GrowLws, GrowValue;
      CharacterStep(st, req, m, c);
    }
  }

  lemma LineEndStep(st: State, req: RequestData, m: Message, c: char)
    requires st.ExpectingNewline1? || st.ExpectingNewline2?
    requires Describes(st, req, m) && Transition(st, req, c).result.Indeterminate?
    ensures var s := Transition(st, req, c); var m2 := Grow(st, m, c);
            s.state.HeaderLineStart? && Describes(s.state, s.req, m2) && Spelled(s.state, m2) == Spelled(st, m) + [c]
  {
    hide FieldOk, HeaderOf, OpenField, NatOf, RequestLine;
    if st.ExpectingNewline2? {
      LastIsOk(m);
      hide FieldsText;
      assert Before(m) + OpenField(Last(m)) + "\r\n" == Before(m) + OpenField(Last(m)) + "\r" + ['\n'];
    } else {
      assert RequestLine(m) + "\r\n" + "" == RequestLine(m) + "\r" + ['\n'];
    }
  }

  lemma LineStartStep(req: RequestData, m: Message, c: char)
    requires Describes(HeaderLineStart, req, m)
    requires Transition(HeaderLineStart, req, c).result.Indeterminate?
    ensures var s := Transition(HeaderLineStart, req, c); var m2 := Grow(HeaderLineStart, m, c);
            (InFields(s.state) ==> m2.fields != []) && Describes(s.state, s.req, m2) &&
            Spelled(s.state, m2) == Spelled(HeaderLineStart, m) + [c]
  {
    hide FieldOk, HeaderOf, OpenField, FieldsText, NatOf, IsTokenChar;
    if c == '\r' {
    } else if m.fields != [] && IsBlank(c) {
      var h := Last(m);
      var g := h.(folds := h.folds + [Fold([c], "")]);
      LastIsOk(m);
      FoldStarts(h, c);
      GrowLastDescribes(m, g);
      assert RequestOf(m).headers[|m.fields| - 1 := HeaderOf(h)] == RequestOf(m).headers;
      assert Before(m) + (OpenField(h) + "\r\n" + [c]) == Before(m) + OpenField(h) + "\r\n" + [c];
    } else {
      var h := Field([c], "", []);
      NameStarts(c);
      HeadersOfAppend(m.fields, h);
      var m2 := m.(fields := m.fields + [h]);
      assert m2.fields[..|m.fields|] == m.fields && Last(m2) == h;
      assert WellFormed(m2);
      assert RequestOf(m2) == req.(headers := req.headers + [Header([c], "")]);
    }
  }

  /** One character keeps the description and appends to what was read. */
  lemma GrowKeeps(st: State, req: RequestData, m: Message, c: char)
    requires Describes(st, req, m) && HeadersReady(st, req)
    requires Transition(st, req, c).result.Indeterminate?
    ensures var s := Transition(st, req, c); var m2 := Grow(st, m, c);
            (InFields(s.state) ==> m2.fields != []) && Describes(s.state, s.req, m2) &&
            Spelled(s.state, m2) == Spelled(st, m) + [c]
  {
    hide Reads, RequestOf, Spelled, HeadersReady;
    match st
    case MethodStart => TargetStep(st, req, m, c);
    case Method => TargetStep(st, req, m, c);
    case Uri => TargetStep(st, req, m, c);
    case MajorStart => MajorStep(st, req, m, c);
    case Major => MajorStep(st, req, m, c);
    case MinorStart => MinorStep(st, req, m, c);
    case Minor => MinorStep(st, req, m, c);
    case ExpectingNewline1 => LineEndStep(st, req, m, c);
    case ExpectingNewline2 => LineEndStep(st, req, m, c);
    case HeaderLineStart => LineStartStep(req, m, c);
    case HeaderName => NameStep(req, m, c);
    case SpaceBeforeHeaderValue => ColonStep(req, m, c);
    case HeaderValue => ValueStep(st, req, m, c);
    case HeaderLws => ValueStep(st, req, m, c);
    case ExpectingNewline3 =>
    case _ => ProtocolStep(st, req, m, c);
  }

  // ---------------------------------------------------------------- whole runs

  lemma LastNewline(req: RequestData, m: Message, c: char)
    requires Describes(ExpectingNewline3, req, m)
    ensures var s := Transition(ExpectingNewline3, req, c);
            !s.result.Indeterminate? && s.req == req &&
            (s.result.Good? ==> Spelled(ExpectingNewline3, m) + [c] == Written(m))
  {
    hide RequestLine, FieldsText;
    assert Head(m) + FieldsText(m.fields) + "\r\n" == Head(m) + FieldsText(m.fields) + "\r" + ['\n'];
  }

  lemma OnlyLastStateIsGood(st: State, req: RequestData, c: char)
    requires HeadersReady(st, req) && Transition(st, req, c).result.Good?
    ensures st.ExpectingNewline3?
  {
  }

  /** Whatever was consumed is spelled by the message the parser holds; when it says good, by the whole of it. */
  lemma {:induction false} RunSpells(st: State, req: RequestData, m: Message, text: string) returns (m2: Message)
    requires Describes(st, req, m) && HeadersReady(st, req)
    ensures InFields(st) ==> m.fields != []
    ensures var o := Run(st, req, text);
            && (o.result.Indeterminate? ==>
                 Describes(o.state, o.req, m2) && (InFields(o.state) ==> m2.fields != []) &&
                 Spelled(o.state, m2) == Spelled(st, m) + text)
            && (o.result.Good? ==>
                 WellFormed(m2) && o.req == RequestOf(m2) && Written(m2) == Spelled(st, m) + text[..o.consumed])
    decreases text
  {
    hide *;
    DescribedFields(st, req, m);
    RunUnfolds(st, req, text);
    m2 := m;
    if text == "" {
      assert Spelled(st, m) + text == Spelled(st, m);
    } else {
      var s := Transition(st, req, text[0]);
      if s.result.Indeterminate? {
        GrowKeeps(st, req, m, text[0]);
        var grown := Grow(st, m, text[0]);
        m2 := RunSpells(s.state, s.req, grown, text[1..]);
        var k := Run(s.state, s.req, text[1..]).consumed;
        Shift(Spelled(st, m), text, k);
      } else if s.result.Good? {
        OnlyLastStateIsGood(st, req, text[0]);
        LastNewline(req, m, text[0]);
        assert text[..1] == [text[0]];
      }
    }
  }

  lemma DescribedFields(st: State, req: RequestData, m: Message)
    requires Describes(st, req, m)
    ensures InFields(st) ==> m.fields != []
    ensures st.ExpectingNewline3? ==> WellFormed(m) && req == RequestOf(m)
  {
  }

  lemma Shift(a: string, text: string, k: nat)
    requires text != "" && k <= |text| - 1
    ensures (a + [text[0]]) + text[1..] == a + text
    ensures (a + [text[0]]) + text[1..][..k] == a + text[..k + 1]
  {
  }

  /** The parser says good exactly when the input starts with a written request; it then has consumed that
      request to its last byte and holds what the request says. */
  lemma GoodExactly(text: string)
    ensures Run(MethodStart, EMPTY_REQUEST, text).result.Good? <==> exists m :: WellFormed(m) && Written(m) <= text
    ensures forall m | WellFormed(m) && Written(m) <= text ::
              Run(MethodStart, EMPTY_REQUEST, text) ==
              Outcome(ExpectingNewline3, RequestOf(m), Good, |Written(m)|)
  {
    hide Run, Written, RequestOf, FieldsOk, AllToken, AllUri;
    NothingRead();
    var m := RunSpells(MethodStart, EMPTY_REQUEST, Message("", "", "", "", []), text);
    var o := Run(MethodStart, EMPTY_REQUEST, text);
    if o.result.Good? {
      assert Written(m) == text[..o.consumed];
    }
    forall m | WellFormed(m) && Written(m) <= text
      ensures o == Outcome(ExpectingNewline3, RequestOf(m), Good, |Written(m)|)
    {
      Accepted(m, text[|Written(m)|..]);
      assert text == Written(m) + text[|Written(m)|..];
    }
  }

  lemma NothingRead()
    ensures Describes(MethodStart, EMPTY_REQUEST, Message("", "", "", "", []))
    ensures Spelled(MethodStart, Message("", "", "", "", [])) == ""
  {
  }

  /** Two ways of writing a request that come out the same say the same. */
  lemma Unambiguous(a: Message, b: Message)
    requires WellFormed(a) && WellFormed(b) && Written(a) <= Written(b)
    ensures Written(a) == Written(b) && RequestOf(a) == RequestOf(b)
  {
    GoodExactly(Written(b));
    hide Run, Written, RequestOf;
    assert Written(b) <= Written(b);
  }

  // ---------------------------------------------------------------- rejection is as early as possible

  /** A character that moves every state towards the end. */
  function Onward(st: State): (c: char) {
    match st
    case MethodStart => 'G'
    case Method => ' '
    case Uri => ' '
    case VersionH => 'H'
    case VersionT1 => 'T'
    case VersionT2 => 'T'
    case VersionP => 'P'
    case VersionSlash => '/'
    case MajorStart => '1'
    case Major => '.'
    case MinorStart => '0'
    case Minor => '\r'
    case ExpectingNewline1 => '\n'
    case HeaderLineStart => '\r'
    case HeaderLws => '\r'
    case HeaderName => ':'
    case SpaceBeforeHeaderValue => ' '
    case HeaderValue => '\r'
    case ExpectingNewline2 => '\n'
    case ExpectingNewline3 => '\n'
  }

  /** Characters to go, following Onward. */
  function Distance(st: State): nat {
    match st
    case MethodStart => 17
    case Method => 16
    case Uri => 15
    case VersionH => 14
    case VersionT1 => 13
    case VersionT2 => 12
    case VersionP => 11
    case VersionSlash => 10
    case MajorStart => 9
    case Major => 8
    case MinorStart => 7
    case Minor => 6
    case ExpectingNewline1 => 5
    case HeaderName => 6
    case SpaceBeforeHeaderValue => 5
    case HeaderLws => 4
    case HeaderValue => 4
    case ExpectingNewline2 => 3
    case HeaderLineStart => 2
    case ExpectingNewline3 => 1
  }

  lemma OnwardStep(st: State, req: RequestData)
    requires HeadersReady(st, req)
    ensures var s := Transition(st, req, Onward(st));
            if st.ExpectingNewline3? then s.result.Good?
            else s.result.Indeterminate? && Distance(s.state) < Distance(st)
  {
  }

  /** From every state some continuation completes a request. */
  lemma {:induction false} CanFinish(st: State, req: RequestData) returns (tail: string)
    requires HeadersReady(st, req)
    ensures Run(st, req, tail).result.Good?
    decreases Distance(st)
  {
    hide Transition, Onward, Distance, HeadersReady;
    OnwardStep(st, req);
    var c := Onward(st);
    tail := [c];
    if !st.ExpectingNewline3? {
      var s := Transition(st, req, c);
      var rest := CanFinish(s.state, s.req);
      tail := [c] + rest;
      assert tail[1..] == rest;
    }
  }

  /** Bad means that no continuation is a request, and the parser says so at the first such character. */
  lemma BadExactly(text: string)
    ensures Run(MethodStart, EMPTY_REQUEST, text).result.Bad? <==>
            forall rest: string :: !Run(MethodStart, EMPTY_REQUEST, text + rest).result.Good?
  {
    hide Run;
    var o := Run(MethodStart, EMPTY_REQUEST, text);
    if o.result.Bad? {
      forall rest: string
        ensures !Run(MethodStart, EMPTY_REQUEST, text + rest).result.Good?
      {
        RunConcat(MethodStart, EMPTY_REQUEST, text, rest);
      }
    } else {
      var rest := "";
      if o.result.Indeterminate? {
        rest := CanFinish(o.state, o.req);
      }
      RunConcat(MethodStart, EMPTY_REQUEST, text, rest);
      assert Run(MethodStart, EMPTY_REQUEST, text + rest).result.Good?;
    }
  }
}
