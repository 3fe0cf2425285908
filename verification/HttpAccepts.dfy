/** Every well-formed request is accepted, exactly at its last byte, and says what was written. */
module HttpAccepts {
  import opened Decimals
  import opened HttpParser
  import opened HttpGrammar

  /** The whole text is consumed without a decision. */
  ghost predicate Leads(a: State, r: RequestData, text: string, b: State, q: RequestData)
    requires HeadersReady(a, r)
  {
    Run(a, r, text) == Outcome(b, q, Indeterminate, |text|)
  }

  lemma LeadsJoin(a: State, r: RequestData, x: string, b: State, q: RequestData, y: string, c: State, p: RequestData)
    requires HeadersReady(a, r) && HeadersReady(b, q)
    requires Leads(a, r, x, b, q) && Leads(b, q, y, c, p)
    ensures Leads(a, r, x + y, c, p)
  {
    hide Run;
    RunConcat(a, r, x, y);
  }

  /** One more character. */
  lemma LeadsOn(a: State, r: RequestData, x: string, b: State, q: RequestData, c: char, d: State, p: RequestData)
    requires HeadersReady(a, r) && HeadersReady(b, q)
    requires Leads(a, r, x, b, q) && Transition(b, q, c) == Step(d, p, Indeterminate)
    ensures HeadersReady(d, p) && Leads(a, r, x + [c], d, p)
  {
    LeadsChar(b, q, c, d, p);
    hide Transition, Run;
    LeadsJoin(a, r, x, b, q, [c], d, p);
  }

  lemma LeadsChar(b: State, q: RequestData, c: char, d: State, p: RequestData)
    requires HeadersReady(b, q) && Transition(b, q, c) == Step(d, p, Indeterminate)
    ensures HeadersReady(d, p) && Leads(b, q, [c], d, p)
  {
    hide Transition;
    assert Run(d, p, []) == Outcome(d, p, Indeterminate, 0);
  }

  // ---------------------------------------------------------------- the request line

  lemma {:induction false} VerbLeads(verb: string)
    requires verb != "" && AllToken(verb)
    ensures Leads(MethodStart, EMPTY_REQUEST, verb, Method, EMPTY_REQUEST.(verb := verb))
    decreases |verb|
  {
    hide Run, IsTokenChar, InToken;
    var n := |verb| - 1;
    var init, c := verb[..n], verb[n];
    InTokenParses(c);
    assert verb == init + [c];
    if n == 0 {
      LeadsChar(MethodStart, EMPTY_REQUEST, c, Method, EMPTY_REQUEST.(verb := [c]));
    } else {
      VerbLeads(init);
      LeadsOn(MethodStart, EMPTY_REQUEST, init, Method, EMPTY_REQUEST.(verb := init), c,
              Method, EMPTY_REQUEST.(verb := verb));
    }
  }

  lemma NothingLeads(a: State, r: RequestData)
    requires HeadersReady(a, r)
    ensures Leads(a, r, "", a, r)
  {
  }

  lemma {:induction false} UriLeads(r: RequestData, uri: string)
    requires r.uri == "" && AllUri(uri)
    ensures Leads(Uri, r, uri, Uri, r.(uri := uri))
    decreases |uri|
  {
    hide Run;
    if uri == "" {
      NothingLeads(Uri, r);
    } else {
      var n := |uri| - 1;
      UriLeads(r, uri[..n]);
      LeadsOn(Uri, r, uri[..n], Uri, r.(uri := uri[..n]), uri[n], Uri, r.(uri := uri));
      assert uri == uri[..n] + [uri[n]];
    }
  }

  lemma {:induction false} MajorLeads(r: RequestData, digits: string)
    requires r.major == 0 && digits != "" && AllDigits(digits)
    ensures Leads(MajorStart, r, digits, Major, r.(major := NatOf(digits)))
    decreases |digits|
  {
    hide Run;
    var n := |digits| - 1;
    var init, c := digits[..n], digits[n];
    assert digits == init + [c];
    if n == 0 {
      assert init == "" && NatOf(init) == 0 && NatOf(digits) == DigitValue(c);
      LeadsChar(MajorStart, r, c, Major, r.(major := NatOf(digits)));
    } else {
      MajorLeads(r, init);
      LeadsOn(MajorStart, r, init, Major, r.(major := NatOf(init)), c, Major, r.(major := NatOf(digits)));
    }
  }

  lemma {:induction false} MinorLeads(r: RequestData, digits: string)
    requires r.minor == 0 && digits != "" && AllDigits(digits)
    ensures Leads(MinorStart, r, digits, Minor, r.(minor := NatOf(digits)))
    decreases |digits|
  {
    hide Run;
    var n := |digits| - 1;
    var init, c := digits[..n], digits[n];
    assert digits == init + [c];
    if n == 0 {
      assert init == "" && NatOf(init) == 0 && NatOf(digits) == DigitValue(c);
      LeadsChar(MinorStart, r, c, Minor, r.(minor := NatOf(digits)));
    } else {
      MinorLeads(r, init);
      LeadsOn(MinorStart, r, init, Minor, r.(minor := NatOf(init)), c, Minor, r.(minor := NatOf(digits)));
    }
  }

  lemma ProtocolLeads(r: RequestData)
    requires r.major == r.minor == 0
    ensures Leads(Uri, r, " HTTP/", MajorStart, r)
  {
    hide Run;
    assert " H" == " " + ['H'] && " HT" == " H" + ['T'] && " HTT" == " HT" + ['T'];
    assert " HTTP" == " HTT" + ['P'] && " HTTP/" == " HTTP" + ['/'];
    LeadsChar(Uri, r, ' ', VersionH, r);
    LeadsOn(Uri, r, " ", VersionH, r, 'H', VersionT1, r);
    LeadsOn(Uri, r, " H", VersionT1, r, 'T', VersionT2, r);
    LeadsOn(Uri, r, " HT", VersionT2, r, 'T', VersionP, r);
    LeadsOn(Uri, r, " HTT", VersionP, r, 'P', VersionSlash, r);
    LeadsOn(Uri, r, " HTTP", VersionSlash, r, '/', MajorStart, r);
  }

  lemma RequestLineLeads(m: Message)
    requires WellFormed(m)
    ensures var r := RequestOf(m.(fields := []));
            Leads(MethodStart, EMPTY_REQUEST, RequestLine(m), Minor, r)
  {
    hide Run, Transition;
    var e := EMPTY_REQUEST;
    var r1 := e.(verb := m.verb);
    var r2 := r1.(uri := m.uri);
    var r3 := r2.(major := NatOf(m.major));
    var r4 := r3.(minor := NatOf(m.minor));
    VerbLeads(m.verb);
    SpaceAfterVerb(r1);
    LeadsOn(MethodStart, e, m.verb, Method, r1, ' ', Uri, r1);
    UriLeads(r1, m.uri);
    LeadsJoin(MethodStart, e, m.verb + " ", Uri, r1, m.uri, Uri, r2);
    ProtocolLeads(r2);
    LeadsJoin(MethodStart, e, m.verb + " " + m.uri, Uri, r2, " HTTP/", MajorStart, r2);
    MajorLeads(r2, m.major);
    LeadsJoin(MethodStart, e, m.verb + " " + m.uri + " HTTP/", MajorStart, r2, m.major, Major, r3);
    DotAfterMajor(r3);
    LeadsOn(MethodStart, e, m.verb + " " + m.uri + " HTTP/" + m.major, Major, r3, '.', MinorStart, r3);
    MinorLeads(r3, m.minor);
    LeadsJoin(MethodStart, e, m.verb + " " + m.uri + " HTTP/" + m.major + ".", MinorStart, r3, m.minor, Minor, r4);
  }

  lemma SpaceAfterVerb(r: RequestData)
    ensures Transition(Method, r, ' ') == Step(Uri, r, Indeterminate)
  {
  }

  lemma DotAfterMajor(r: RequestData)
    ensures Transition(Major, r, '.') == Step(MinorStart, r, Indeterminate)
  {
  }

  // ---------------------------------------------------------------- header lines

  function With(r: RequestData, name: string, value: string): (q: RequestData)
    ensures q.headers != []
  {
    r.(headers := r.headers + [Header(name, value)])
  }

  lemma PushNameOf(r: RequestData, name: string, value: string, c: char)
    ensures With(r, name, value).PushName(c) == With(r, name + [c], value)
    ensures With(r, name, value).PushValue(c) == With(r, name, value + [c])
  {
    var hs := With(r, name, value).headers;
    assert hs[|hs| - 1 := Header(name + [c], value)] == r.headers + [Header(name + [c], value)];
    assert hs[|hs| - 1 := Header(name, value + [c])] == r.headers + [Header(name, value + [c])];
  }

  lemma {:induction false} NameLeads(r: RequestData, name: string)
    requires name != "" && AllToken(name)
    ensures Leads(HeaderLineStart, r, name, HeaderName, With(r, name, ""))
    decreases |name|
  {
    hide Run, IsTokenChar, InToken;
    var n := |name| - 1;
    var init, c := name[..n], name[n];
    InTokenParses(c);
    assert name == init + [c];
    if n == 0 {
      LeadsChar(HeaderLineStart, r, c, HeaderName, With(r, name, ""));
    } else {
      NameLeads(r, init);
      PushNameOf(r, init, "", c);
      LeadsOn(HeaderLineStart, r, init, HeaderName, With(r, init, ""), c, HeaderName, With(r, name, ""));
    }
  }

  lemma {:induction false} ValueLeads(r: RequestData, name: string, value: string, s: string)
    requires AllValue(s)
    ensures Leads(HeaderValue, With(r, name, value), s, HeaderValue, With(r, name, value + s))
    decreases |s|
  {
    hide Run, With;
    if s == "" {
      assert value + s == value;
      NothingLeads(HeaderValue, With(r, name, value));
    } else {
      var n := |s| - 1;
      ValueLeads(r, name, value, s[..n]);
      PushNameOf(r, name, value + s[..n], s[n]);
      assert s == s[..n] + [s[n]] && value + s == value + s[..n] + [s[n]];
      LeadsOn(HeaderValue, With(r, name, value), s[..n], HeaderValue, With(r, name, value + s[..n]), s[n],
              HeaderValue, With(r, name, value + s));
    }
  }

  /** Blanks at the start of a line, once there is a header to extend. */
  lemma {:induction false} BlanksLead(q: RequestData, lws: string)
    requires q.headers != [] && lws != "" && AllBlank(lws)
    ensures Leads(HeaderLineStart, q, lws, HeaderLws, q)
    decreases |lws|
  {
    hide Run;
    var n := |lws| - 1;
    var init, c := lws[..n], lws[n];
    assert lws == init + [c];
    if n == 0 {
      LeadsChar(HeaderLineStart, q, c, HeaderLws, q);
    } else {
      BlanksLead(q, init);
      LeadsOn(HeaderLineStart, q, init, HeaderLws, q, c, HeaderLws, q);
    }
  }

  /** The end of a header line. */
  lemma LineEndLeads(a: State, r: RequestData, x: string, b: State, q: RequestData)
    requires HeadersReady(a, r) && HeadersReady(b, q) && Leads(a, r, x, b, q)
    requires b.HeaderValue? || b.HeaderLws?
    ensures Leads(a, r, x + "\r\n", HeaderLineStart, q)
  {
    hide Run;
    LeadsOn(a, r, x, b, q, '\r', ExpectingNewline2, q);
    LeadsOn(a, r, x + ['\r'], ExpectingNewline2, q, '\n', HeaderLineStart, q);
    assert x + ['\r'] + ['\n'] == x + "\r\n";
  }

  lemma FirstCharLeads(q: RequestData, c: char)
    requires q.headers != [] && !IsCtl(c) && !IsBlank(c)
    ensures Leads(HeaderLws, q, [c], HeaderValue, q.PushValue(c))
  {
    hide Run;
    LeadsChar(HeaderLws, q, c, HeaderValue, q.PushValue(c));
  }

  /** A continuation line extends the last value by its text. */
  lemma FoldLeads(r: RequestData, name: string, value: string, f: Fold)
    requires FoldOk(f)
    ensures Leads(HeaderLineStart, With(r, name, value),
                  f.lws + f.text + "\r\n", HeaderLineStart, With(r, name, value + f.text))
  {
    hide Run, With;
    var q := With(r, name, value);
    BlanksLead(q, f.lws);
    if f.text == "" {
      assert f.lws + f.text == f.lws && value + f.text == value;
      LineEndLeads(HeaderLineStart, q, f.lws, HeaderLws, q);
    } else {
      var c, rest := f.text[0], f.text[1..];
      assert [c] + rest == f.text && value + [c] + rest == value + f.text;
      FirstCharLeads(q, c);
      PushNameOf(r, name, value, c);
      ValueLeads(r, name, value + [c], rest);
      var q1, q2 := With(r, name, value + [c]), With(r, name, value + f.text);
      LeadsJoin(HeaderLws, q, [c], HeaderValue, q1, rest, HeaderValue, q2);
      LeadsJoin(HeaderLineStart, q, f.lws, HeaderLws, q, f.text, HeaderValue, q2);
      LineEndLeads(HeaderLineStart, q, f.lws + f.text, HeaderValue, q2);
    }
  }

  lemma FirstLineLeads(r: RequestData, name: string, first: string)
    requires name != "" && AllToken(name) && AllValue(first)
    ensures Leads(HeaderLineStart, r, name + ": " + first + "\r\n", HeaderLineStart, With(r, name, first))
  {
    hide Run, With;
    var q := With(r, name, "");
    NameLeads(r, name);
    LeadsOn(HeaderLineStart, r, name, HeaderName, q, ':', SpaceBeforeHeaderValue, q);
    LeadsOn(HeaderLineStart, r, name + [':'], SpaceBeforeHeaderValue, q, ' ', HeaderValue, q);
    assert name + [':'] + [' '] == name + ": " && "" + first == first;
    ValueLeads(r, name, "", first);
    LeadsJoin(HeaderLineStart, r, name + ": ", HeaderValue, q, first, HeaderValue, With(r, name, first));
    LineEndLeads(HeaderLineStart, r, name + ": " + first, HeaderValue, With(r, name, first));
  }

  lemma {:induction false} FieldLeads(r: RequestData, h: Field)
    requires FieldOk(h)
    ensures Leads(HeaderLineStart, r, OpenField(h) + "\r\n", HeaderLineStart, With(r, h.name, HeaderOf(h).value))
    decreases |h.folds|
  {
    hide Run, With, FoldOk;
    if h.folds == [] {
      FirstLineLeads(r, h.name, h.first);
      assert h.first + "" == h.first && OpenField(h) == h.name + ": " + h.first;
    } else {
      var n := |h.folds| - 1;
      var init, f := h.(folds := h.folds[..n]), h.folds[n];
      FieldLeads(r, init);
      var v := HeaderOf(init).value;
      FoldLeads(r, h.name, v, f);
      var q, p := With(r, h.name, v), With(r, h.name, v + f.text);
      LeadsJoin(HeaderLineStart, r, OpenField(init) + "\r\n", HeaderLineStart, q,
                f.lws + f.text + "\r\n", HeaderLineStart, p);
      FoldJoins(h);
    }
  }

  lemma FoldJoins(h: Field)
    requires h.folds != []
    ensures var n := |h.folds| - 1; var init, f := h.(folds := h.folds[..n]), h.folds[n];
            OpenField(h) + "\r\n" == OpenField(init) + "\r\n" + (f.lws + f.text + "\r\n") &&
            HeaderOf(h).value == HeaderOf(init).value + f.text
  {
    var n := |h.folds| - 1;
    var f := h.folds[n];
    var a := h.name + ": " + h.first;
    var b := FoldsText(h.folds[..n]);
    assert FoldsText(h.folds) == b + "\r\n" + f.lws + f.text;
    Joins(a, b, "\r\n", f.lws, f.text);
    var c := FoldTexts(h.folds[..n]);
    assert h.first + (c + f.text) == (h.first + c) + f.text;
  }

  lemma Joins(a: string, b: string, e: string, c: string, d: string)
    ensures a + (b + e + c + d) + e == (a + b) + e + (c + d + e)
  {
  }

  lemma {:induction false} FieldsLead(r: RequestData, fields: seq<Field>)
    requires r.headers == [] && FieldsOk(fields)
    ensures Leads(HeaderLineStart, r, FieldsText(fields), HeaderLineStart, r.(headers := HeadersOf(fields)))
    decreases |fields|
  {
    hide Run, FieldOk, OpenField, HeaderOf;
    if fields == [] {
      NothingLeads(HeaderLineStart, r);
    } else {
      var n := |fields| - 1;
      var init, h := fields[..n], fields[n];
      FieldsLead(r, init);
      var q := r.(headers := HeadersOf(init));
      FieldLeads(q, h);
      FieldNamed(h);
      LeadsJoin(HeaderLineStart, r, FieldsText(init), HeaderLineStart, q, OpenField(h) + "\r\n",
                HeaderLineStart, With(q, h.name, HeaderOf(h).value));
      assert FieldsText(init) + (OpenField(h) + "\r\n") == FieldsText(fields);
    }
  }

  lemma FieldNamed(h: Field)
    ensures HeaderOf(h).name == h.name
  {
  }

  // ---------------------------------------------------------------- the whole request

  lemma BlankLineLeads(a: State, r: RequestData, x: string, q: RequestData)
    requires HeadersReady(a, r) && Leads(a, r, x, HeaderLineStart, q)
    ensures Leads(a, r, x + ['\r'], ExpectingNewline3, q)
  {
    hide Run;
    LeadsOn(a, r, x, HeaderLineStart, q, '\r', ExpectingNewline3, q);
  }

  lemma HeadEnds(r: RequestData, x: string, q: RequestData)
    requires Leads(MethodStart, r, x, Minor, q)
    ensures Leads(MethodStart, r, x + "\r\n", HeaderLineStart, q)
  {
    hide Run;
    LeadsOn(MethodStart, r, x, Minor, q, '\r', ExpectingNewline1, q);
    LeadsOn(MethodStart, r, x + ['\r'], ExpectingNewline1, q, '\n', HeaderLineStart, q);
    assert x + ['\r'] + ['\n'] == x + "\r\n";
  }

  lemma LastByte(q: RequestData, rest: string)
    ensures Run(ExpectingNewline3, q, ['\n'] + rest) == Outcome(ExpectingNewline3, q, Good, 1)
  {
  }

  /** A written request followed by anything is accepted at its own last byte and read back as written. */
  lemma Accepted(m: Message, rest: string)
    requires WellFormed(m)
    ensures Run(MethodStart, EMPTY_REQUEST, Written(m) + rest) ==
            Outcome(ExpectingNewline3, RequestOf(m), Good, |Written(m)|)
  {
    hide Run, Transition, RequestLine, FieldsText, FieldsOk;
    var e, r, q := EMPTY_REQUEST, RequestOf(m.(fields := [])), RequestOf(m);
    RequestLineLeads(m);
    HeadEnds(e, RequestLine(m), r);
    FieldsLead(r, m.fields);
    LeadsJoin(MethodStart, e, RequestLine(m) + "\r\n", HeaderLineStart, r, FieldsText(m.fields), HeaderLineStart, q);
    var body := RequestLine(m) + "\r\n" + FieldsText(m.fields);
    BlankLineLeads(MethodStart, e, body, q);
    RunConcat(MethodStart, e, body + ['\r'], ['\n'] + rest);
    LastByte(q, rest);
    LastLineEnd(body, rest);
  }

  lemma LastLineEnd(body: string, rest: string)
    ensures body + "\r\n" + rest == (body + ['\r']) + (['\n'] + rest)
    ensures |body + "\r\n"| == |body + ['\r']| + 1
  {
  }
}
