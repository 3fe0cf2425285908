/** The incremental request parser of lib/http/request_parser.cpp and request_parser.hpp. */
module HttpParser {
  import opened Decimals

  // ---------------------------------------------------------------- character classes

  predicate IsChar(c: char) { c <= 127 as char }

  predicate IsCtl(c: char) { c <= 31 as char || c == 127 as char }

  predicate IsTspecial(c: char) { c in "()<>@,;:\\\"/[]?={} \t" }

  predicate IsTokenChar(c: char) { IsChar(c) && !IsCtl(c) && !IsTspecial(c) }

  predicate IsBlank(c: char) { c == ' ' || c == '\t' }

  // ---------------------------------------------------------------- one character

  datatype State =
    | MethodStart | Method | Uri
    | VersionH | VersionT1 | VersionT2 | VersionP | VersionSlash
    | MajorStart | Major | MinorStart | Minor
    | ExpectingNewline1 | HeaderLineStart | HeaderLws | HeaderName | SpaceBeforeHeaderValue | HeaderValue
    | ExpectingNewline2 | ExpectingNewline3

  datatype Result = Good | Bad | Indeterminate

  datatype Header = Header(name: string, value: string)

  datatype RequestData = RequestData(verb: string, uri: string, major: nat, minor: nat, headers: seq<Header>)
  {
    function PushName(c: char): RequestData
      requires headers != []
    {
      var n := |headers| - 1;
      this.(headers := headers[n := headers[n].(name := headers[n].name + [c])])
    }

    function PushValue(c: char): RequestData
      requires headers != []
    {
      var n := |headers| - 1;
      this.(headers := headers[n := headers[n].(value := headers[n].value + [c])])
    }
  }

  const EMPTY_REQUEST := RequestData("", "", 0, 0, [])

  /** The states that use the last header only occur when there is one. */
  predicate HeadersReady(st: State, req: RequestData) {
    st.HeaderLws? || st.HeaderName? || st.SpaceBeforeHeaderValue? || st.HeaderValue? ==> req.headers != []
  }

  datatype Step = Step(state: State, req: RequestData, result: Result)

  /** One character of request_parser::consume. */
  function Transition(st: State, req: RequestData, c: char): (s: Step)
    requires HeadersReady(st, req)
    ensures HeadersReady(s.state, s.req)
  {
    match st
    case MethodStart =>
      if !IsTokenChar(c) then Step(st, req, Bad)
      else Step(Method, req.(verb := req.verb + [c]), Indeterminate)
    case Method =>
      if c == ' ' then Step(Uri, req, Indeterminate)
      else if !IsTokenChar(c) then Step(st, req, Bad)
      else Step(st, req.(verb := req.verb + [c]), Indeterminate)
    case Uri =>
      if c == ' ' then Step(VersionH, req, Indeterminate)
      else if IsCtl(c) then Step(st, req, Bad)
      else Step(st, req.(uri := req.uri + [c]), Indeterminate)
    case VersionH => if c == 'H' then Step(VersionT1, req, Indeterminate) else Step(st, req, Bad)
    case VersionT1 => if c == 'T' then Step(VersionT2, req, Indeterminate) else Step(st, req, Bad)
    case VersionT2 => if c == 'T' then Step(VersionP, req, Indeterminate) else Step(st, req, Bad)
    case VersionP => if c == 'P' then Step(VersionSlash, req, Indeterminate) else Step(st, req, Bad)
    case VersionSlash =>
      if c == '/' then Step(MajorStart, req.(major := 0, minor := 0), Indeterminate) else Step(st, req, Bad)
    case MajorStart =>
      if IsDigit(c) then Step(Major, req.(major := req.major * 10 + DigitValue(c)), Indeterminate)
      else Step(st, req, Bad)
    case Major =>
      if c == '.' then Step(MinorStart, req, Indeterminate)
      else if IsDigit(c) then Step(st, req.(major := req.major * 10 + DigitValue(c)), Indeterminate)
      else Step(st, req, Bad)
    case MinorStart =>
      if IsDigit(c) then Step(Minor, req.(minor := req.minor * 10 + DigitValue(c)), Indeterminate)
      else Step(st, req, Bad)
    case Minor =>
      if c == '\r' then Step(ExpectingNewline1, req, Indeterminate)
      else if IsDigit(c) then Step(st, req.(minor := req.minor * 10 + DigitValue(c)), Indeterminate)
      else Step(st, req, Bad)
    case ExpectingNewline1 =>
      if c == '\n' then Step(HeaderLineStart, req, Indeterminate) else Step(st, req, Bad)
    case HeaderLineStart =>
      if c == '\r' then Step(ExpectingNewline3, req, Indeterminate)
      else if req.headers != [] && IsBlank(c) then Step(HeaderLws, req, Indeterminate)
      else if !IsTokenChar(c) then Step(st, req, Bad)
      else Step(HeaderName, req.(headers := req.headers + [Header([c], "")]), Indeterminate)
    case HeaderLws =>
      if c == '\r' then Step(ExpectingNewline2, req, Indeterminate)
      else if IsBlank(c) then Step(st, req, Indeterminate)
      else if IsCtl(c) then Step(st, req, Bad)
      else Step(HeaderValue, req.PushValue(c), Indeterminate)
    case HeaderName =>
      if c == ':' then Step(SpaceBeforeHeaderValue, req, Indeterminate)
      else if !IsTokenChar(c) then Step(st, req, Bad)
      else Step(st, req.PushName(c), Indeterminate)
    case SpaceBeforeHeaderValue =>
      if c == ' ' then Step(HeaderValue, req, Indeterminate) else Step(st, req, Bad)
    case HeaderValue =>
      if c == '\r' then Step(ExpectingNewline2, req, Indeterminate)
      else if IsCtl(c) then Step(st, req, Bad)
      else Step(st, req.PushValue(c), Indeterminate)
    case ExpectingNewline2 =>
      if c == '\n' then Step(HeaderLineStart, req, Indeterminate) else Step(st, req, Bad)
    case ExpectingNewline3 => Step(st, req, if c == '\n' then Good else Bad)
  }

  // ---------------------------------------------------------------- a stretch of input

  datatype Outcome = Outcome(state: State, req: RequestData, result: Result, consumed: nat)

  /** What a run over `text` leaves behind: it stops right after the character that decides. */
  function Run(st: State, req: RequestData, text: string): (o: Outcome)
    requires HeadersReady(st, req)
    ensures HeadersReady(o.state, o.req) && o.consumed <= |text|
    ensures o.result.Indeterminate? ==> o.consumed == |text|
    decreases text
  {
    if text == "" then Outcome(st, req, Indeterminate, 0)
    else
      var s := Transition(st, req, text[0]);
      if !s.result.Indeterminate? then Outcome(s.state, s.req, s.result, 1)
      else
        var o := Run(s.state, s.req, text[1..]);
        o.(consumed := o.consumed + 1)
  }

  lemma RunUnfolds(st: State, req: RequestData, text: string)
    requires HeadersReady(st, req)
    ensures text == "" ==> Run(st, req, text) == Outcome(st, req, Indeterminate, 0)
    ensures text != "" ==>
              var s := Transition(st, req, text[0]);
              if s.result.Indeterminate? then
                var o := Run(s.state, s.req, text[1..]);
                Run(st, req, text) == o.(consumed := o.consumed + 1)
              else Run(st, req, text) == Outcome(s.state, s.req, s.result, 1)
  {
  }

  /** Cutting the input anywhere changes nothing. */
  lemma {:induction false} RunConcat(st: State, req: RequestData, a: string, b: string)
    requires HeadersReady(st, req)
    ensures var o := Run(st, req, a);
            if !o.result.Indeterminate? then Run(st, req, a + b) == o
            else
              var p := Run(o.state, o.req, b);
              Run(st, req, a + b) == p.(consumed := |a| + p.consumed)
    decreases a
  {
    hide Transition;
    if a == "" {
      assert a + b == b;
    } else {
      var s := Transition(st, req, a[0]);
      assert (a + b)[0] == a[0] && (a + b)[1..] == a[1..] + b;
      if s.result.Indeterminate? {
        RunConcat(s.state, s.req, a[1..], b);
      }
    }
  }

  // ---------------------------------------------------------------- the classes

  /** The request being filled in. */
  class Request {
    var verb: string
    var uri: string
    var major: nat
    var minor: nat
    var headers: seq<Header>

    constructor ()
      ensures Data() == EMPTY_REQUEST
    {
      verb, uri, major, minor, headers := "", "", 0, 0, [];
    }

    function Data(): RequestData
      reads this
    {
      RequestData(verb, uri, major, minor, headers)
    }

    method PushBackName(c: char)
      requires headers != []
      modifies this`headers
      ensures Data() == old(Data()).PushName(c)
    {
      var n := |headers| - 1;
      headers := headers[n := headers[n].(name := headers[n].name + [c])];
    }

    method PushBackValue(c: char)
      requires headers != []
      modifies this`headers
      ensures Data() == old(Data()).PushValue(c)
    {
      var n := |headers| - 1;
      headers := headers[n := headers[n].(value := headers[n].value + [c])];
    }
  }

  class RequestParser {
    var state: State

    constructor ()
      ensures state == MethodStart
    {
      state := MethodStart;
    }

    method Reset()
      modifies this
      ensures state == MethodStart
    {
      state := MethodStart;
    }

    method Consume(req: Request, input: char) returns (result: Result)
      requires HeadersReady(state, req.Data())
      modifies this, req
      ensures Step(state, req.Data(), result) == Transition(old(state), old(req.Data()), input)
    {
      result := Indeterminate;
      match state {
        case MethodStart =>
          if !IsChar(input) || IsCtl(input) || IsTspecial(input) {
            return Bad;
          }
          state := Method;
          req.verb := req.verb + [input];
        case Method =>
          if input == ' ' {
            state := Uri;
          } else if !IsChar(input) || IsCtl(input) || IsTspecial(input) {
            return Bad;
          } else {
            req.verb := req.verb + [input];
          }
        case Uri =>
          if input == ' ' {
            state := VersionH;
          } else if IsCtl(input) {
            return Bad;
          } else {
            req.uri := req.uri + [input];
          }
        case VersionH => result := Expect(input, 'H', VersionT1);
        case VersionT1 => result := Expect(input, 'T', VersionT2);
        case VersionT2 => result := Expect(input, 'T', VersionP);
        case VersionP => result := Expect(input, 'P', VersionSlash);
        case VersionSlash =>
          if input == '/' {
            req.major := 0;
            req.minor := 0;
            state := MajorStart;
          } else {
            return Bad;
          }
        case MajorStart =>
          if IsDigit(input) {
            req.major := req.major * 10 + DigitValue(input);
            state := Major;
          } else {
            return Bad;
          }
        case Major =>
          if input == '.' {
            state := MinorStart;
          } else if IsDigit(input) {
            req.major := req.major * 10 + DigitValue(input);
          } else {
            return Bad;
          }
        case MinorStart =>
          if IsDigit(input) {
            req.minor := req.minor * 10 + DigitValue(input);
            state := Minor;
          } else {
            return Bad;
          }
        case Minor =>
          if input == '\r' {
            state := ExpectingNewline1;
          } else if IsDigit(input) {
            req.minor := req.minor * 10 + DigitValue(input);
          } else {
            return Bad;
          }
        case ExpectingNewline1 => result := Expect(input, '\n', HeaderLineStart);
        case HeaderLineStart =>
          if input == '\r' {
            state := ExpectingNewline3;
          } else if req.headers != [] && (input == ' ' || input == '\t') {
            state := HeaderLws;
          } else if !IsChar(input) || IsCtl(input) || IsTspecial(input) {
            return Bad;
          } else {
            req.headers := req.headers + [Header("", "")];
            req.PushBackName(input);
            assert "" + [input] == [input];
            assert req.headers == old(req.headers) + [Header([input], "")];
            state := HeaderName;
          }
        case HeaderLws =>
          if input == '\r' {
            state := ExpectingNewline2;
          } else if input == ' ' || input == '\t' {
          } else if IsCtl(input) {
            return Bad;
          } else {
            state := HeaderValue;
            req.PushBackValue(input);
          }
        case HeaderName =>
          if input == ':' {
            state := SpaceBeforeHeaderValue;
          } else if !IsChar(input) || IsCtl(input) || IsTspecial(input) {
            return Bad;
          } else {
            req.PushBackName(input);
          }
        case SpaceBeforeHeaderValue => result := Expect(input, ' ', HeaderValue);
        case HeaderValue =>
          if input == '\r' {
            state := ExpectingNewline2;
          } else if IsCtl(input) {
            return Bad;
          } else {
            req.PushBackValue(input);
          }
        case ExpectingNewline2 => result := Expect(input, '\n', HeaderLineStart);
        case ExpectingNewline3 => result := if input == '\n' then Good else Bad;
      }
    }

    /** The states that take one fixed character. */
    method Expect(input: char, wanted: char, next: State) returns (result: Result)
      modifies this
      ensures if input == wanted then state == next && result == Indeterminate
              else state == old(state) && result == Bad
    {
      if input == wanted {
        state := next;
        return Indeterminate;
      }
      return Bad;
    }

    /** request_parser::parse over buffer[begin..end]. */
    method Parse(req: Request, buffer: array<char>, begin: nat, end: nat) returns (result: Result, next: nat)
      requires begin <= end <= buffer.Length && HeadersReady(state, req.Data())
      modifies this, req
      ensures HeadersReady(state, req.Data())
      ensures begin <= next <= end
      ensures Outcome(state, req.Data(), result, next - begin) ==
              Run(old(state), old(req.Data()), buffer[begin..end])
    {
      hide Transition, HeadersReady;
      next := begin;
      while next != end
        invariant begin <= next <= end
        invariant HeadersReady(state, req.Data())
        invariant var o := Run(state, req.Data(), buffer[next..end]);
                  Run(old(state), old(req.Data()), buffer[begin..end]) ==
                  o.(consumed := o.consumed + next - begin)
      {
        assert buffer[next..end][1..] == buffer[next + 1..end];
        result := this.Consume(req, buffer[next]);
        next := next + 1;
        if result == Good || result == Bad {
          return;
        }
      }
      result := Indeterminate;
    }
  }
}
