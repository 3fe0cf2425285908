/** Options and arguments matched against a token stream: Opt, Arg and Parser of lib/clara.hpp. */
module ClaraParser {
  import opened ClaraTokens

  // ---------------------------------------------------------------- the bound references

  /** A call into a bound variable or callback: parser number and, for values, the text. */
  datatype Call = SetFlag(parser: nat) | SetValue(parser: nat, value: string)

  /** What the conversion or callback answers. */
  datatype Answer = Taken | ShortCircuit | LogicRefused(message: string) | RuntimeRefused(message: string)

  /** The bound references together: an answer may depend on every call made before. */
  class Bindings {
    const answer: (seq<Call>, Call) -> Answer
    var calls: seq<Call>

    constructor (answer: (seq<Call>, Call) -> Answer)
      ensures this.answer == answer && calls == []
    {
      this.answer := answer;
      calls := [];
    }

    method Set(call: Call) returns (a: Answer)
      modifies this
      ensures calls == old(calls) + [call] && a == answer(old(calls), call)
    {
      a := answer(calls, call);
      calls := calls + [call];
    }
  }

  // ---------------------------------------------------------------- one option or argument

  datatype Spec =
    | Opt(names: seq<string>, isFlag: bool, isContainer: bool)
    | Arg(isContainer: bool)
  {
    /** 0 stands for any number. */
    function Cardinality(): nat { if isContainer then 0 else 1 }
  }

  datatype Kind = Matched | NoMatch | ShortCircuitAll

  datatype Result = Ok(kind: Kind) | LogicError(message: string) | RuntimeError(message: string)

  /** A parse result, the tokens left (none after an error), and the calls made so far. */
  datatype Step = Step(result: Result, rest: seq<Token>, calls: seq<Call>)

  type Answers = (seq<Call>, Call) -> Answer

  function Validate(spec: Spec): (r: Result)
    ensures r == Ok(Matched) || r.LogicError?
  {
    if spec.Arg? then Ok(Matched)
    else if spec.names == [] then LogicError("No options supplied to Opt")
    else ValidateNames(spec.names)
  }

  /** An option is valid exactly if it has names and each of them starts with a minus sign. */
  lemma ValidExactly(spec: Spec)
    ensures Validate(spec).Ok? <==>
            spec.Arg? || (spec.names != [] && forall i | 0 <= i < |spec.names| :: "-" <= spec.names[i])
  {
    if spec.Opt? { ValidNames(spec.names); }
  }

  lemma {:induction false} ValidNames(names: seq<string>)
    ensures ValidateNames(names).Ok? <==> forall i | 0 <= i < |names| :: "-" <= names[i]
  {
    if names != [] {
      ValidNames(names[1..]);
      assert forall i | 0 < i < |names| :: names[i] == names[1..][i - 1];
    }
  }

  function ValidateNames(names: seq<string>): (r: Result)
    ensures r == Ok(Matched) || r.LogicError?
  {
    if names == [] then Ok(Matched)
    else if names[0] == "" then LogicError("Option name cannot be empty")
    else if names[0][0] != '-' then LogicError("Option name must begin with '-'")
    else ValidateNames(names[1..])
  }

  function ParseOpt(spec: Spec, i: nat, tokens: seq<Token>, calls: seq<Call>, answer: Answers): Step
    requires spec.Opt?
  {
    if !Validate(spec).Ok? then Step(Validate(spec), [], calls)
    else if tokens == [] || !tokens[0].kind.Option? || tokens[0].text !in spec.names then
      Step(Ok(NoMatch), tokens, calls)
    else if spec.isFlag then
      var made := calls + [SetFlag(i)];
      match answer(calls, SetFlag(i))
      case LogicRefused(m) => Step(LogicError(m), [], made)
      case RuntimeRefused(m) => Step(RuntimeError(m), [], made)
      case ShortCircuit => Step(Ok(ShortCircuitAll), tokens, made)
      case Taken => Step(Ok(Matched), tokens[1..], made)
    else if |tokens| < 2 || !tokens[1].kind.Argument? then
      Step(RuntimeError("Expected argument following " + tokens[0].text), [], calls)
    else
      var call := SetValue(i, tokens[1].text);
      match answer(calls, call)
      case LogicRefused(m) => Step(LogicError(m), [], calls + [call])
      case RuntimeRefused(m) => Step(RuntimeError(m), [], calls + [call])
      case ShortCircuit => Step(Ok(ShortCircuitAll), tokens[1..], calls + [call])
      case Taken => Step(Ok(Matched), tokens[2..], calls + [call])
  }

  function ParseArg(i: nat, tokens: seq<Token>, calls: seq<Call>, answer: Answers): Step
    requires tokens != []
  {
    if !tokens[0].kind.Argument? then Step(Ok(NoMatch), tokens, calls)
    else
      var call := SetValue(i, tokens[0].text);
      match answer(calls, call)
      case LogicRefused(m) => Step(LogicError(m), [], calls + [call])
      case RuntimeRefused(m) => Step(RuntimeError(m), [], calls + [call])
      case _ => Step(Ok(Matched), tokens[1..], calls + [call])
  }

  function ParseOne(spec: Spec, i: nat, tokens: seq<Token>, calls: seq<Call>, answer: Answers): (s: Step)
    requires tokens != []
    ensures s.result == Ok(Matched) ==> |s.rest| < |tokens|
    ensures s.result == Ok(NoMatch) ==> s.rest == tokens && s.calls == calls
  {
    if spec.Opt? then ParseOpt(spec, i, tokens, calls, answer) else ParseArg(i, tokens, calls, answer)
  }

  // ---------------------------------------------------------------- all of them

  predicate Eligible(spec: Spec, count: nat) {
    spec.Cardinality() == 0 || count < spec.Cardinality()
  }

  /** A container may be used any number of times, anything else once. */
  lemma EligibleExactly(spec: Spec, count: nat)
    ensures Eligible(spec, count) <==> spec.isContainer || count == 0
  {
  }

  /** The parser that decided, or the number of parsers when none did. */
  datatype Attempt = Attempt(step: Step, taker: nat)

  /** The inner loop of Parser::parse, from parser `i` on. */
  function TryFrom(specs: seq<Spec>, i: nat, counts: seq<nat>, tokens: seq<Token>, calls: seq<Call>, answer: Answers)
    : (a: Attempt)
    requires i <= |specs| == |counts| && tokens != []
    ensures i <= a.taker <= |specs|
    ensures a.taker == |specs| ==> a.step == Step(Ok(NoMatch), tokens, calls)
    ensures a.taker < |specs| ==> a.step.result != Ok(NoMatch) && Eligible(specs[a.taker], counts[a.taker])
    ensures a.taker < |specs| ==> a.step == ParseOne(specs[a.taker], a.taker, tokens, calls, answer)
    ensures a.step.result == Ok(Matched) ==> |a.step.rest| < |tokens|
    decreases |specs| - i
  {
    if i == |specs| then Attempt(Step(Ok(NoMatch), tokens, calls), i)
    else if Eligible(specs[i], counts[i]) then
      var s := ParseOne(specs[i], i, tokens, calls, answer);
      if s.result == Ok(NoMatch) then TryFrom(specs, i + 1, counts, tokens, calls, answer) else Attempt(s, i)
    else TryFrom(specs, i + 1, counts, tokens, calls, answer)
  }

  lemma TryUnfolds(specs: seq<Spec>, i: nat, counts: seq<nat>, tokens: seq<Token>, calls: seq<Call>, answer: Answers)
    requires i < |specs| == |counts| && tokens != []
    ensures TryFrom(specs, i, counts, tokens, calls, answer) ==
            var s := ParseOne(specs[i], i, tokens, calls, answer);
            if Eligible(specs[i], counts[i]) && s.result != Ok(NoMatch) then Attempt(s, i)
            else TryFrom(specs, i + 1, counts, tokens, calls, answer)
  {
    hide ParseOne;
  }

  lemma TryEnds(specs: seq<Spec>, counts: seq<nat>, tokens: seq<Token>, calls: seq<Call>, answer: Answers)
    requires |specs| == |counts| && tokens != []
    ensures TryFrom(specs, |specs|, counts, tokens, calls, answer) == Attempt(Step(Ok(NoMatch), tokens, calls), |specs|)
  {
  }

  function Bump(counts: seq<nat>, i: nat): (r: seq<nat>)
    requires i < |counts|
    ensures |r| == |counts|
  {
    counts[i := counts[i] + 1]
  }

  /** The outer loop, with the kind of the previous result. */
  function ParseAll(
    specs: seq<Spec>, counts: seq<nat>, kind: Kind, tokens: seq<Token>, calls: seq<Call>, answer: Answers): Step
    requires |specs| == |counts|
    decreases |tokens|
  {
    if tokens == [] then Step(Ok(kind), tokens, calls)
    else
      var a := TryFrom(specs, 0, counts, tokens, calls, answer);
      if a.taker == |specs| then Step(RuntimeError("Unrecognised token: " + tokens[0].text), [], calls)
      else if a.step.result != Ok(Matched) then a.step
      else
        ParseAll(specs, Bump(counts, a.taker), Matched, a.step.rest, a.step.calls, answer)
  }

  lemma ParseAllUnfolds(
    specs: seq<Spec>, counts: seq<nat>, kind: Kind, tokens: seq<Token>, calls: seq<Call>, answer: Answers)
    requires |specs| == |counts|
    ensures tokens == [] ==> ParseAll(specs, counts, kind, tokens, calls, answer) == Step(Ok(kind), [], calls)
    ensures tokens != [] ==>
              var a := TryFrom(specs, 0, counts, tokens, calls, answer);
              ParseAll(specs, counts, kind, tokens, calls, answer) ==
              if a.taker == |specs| then Step(RuntimeError("Unrecognised token: " + tokens[0].text), [], calls)
              else if a.step.result != Ok(Matched) then a.step
              else ParseAll(specs, Bump(counts, a.taker), Matched, a.step.rest, a.step.calls, answer)
  {
    hide TryFrom;
  }

  // ---------------------------------------------------------------- what a successful parse means

  predicate Recognises(spec: Spec, token: Token) {
    match spec
    case Opt(names, _, _) => token.kind.Option? && token.text in names
    case Arg(_) => token.kind.Argument?
  }

  /** Of the parsers before i, those that may still be used are valid and do not know the token. */
  predicate PassedOver(specs: seq<Spec>, counts: seq<nat>, token: Token, i: nat)
    requires i <= |specs| == |counts|
  {
    forall j | 0 <= j < i :: Eligible(specs[j], counts[j]) ==> Validate(specs[j]).Ok? && !Recognises(specs[j], token)
  }

  /** The first parser, in order, that may still be used and knows the token; it is valid, and so are those tried
      before it. */
  predicate FirstFor(specs: seq<Spec>, counts: seq<nat>, token: Token, i: nat)
    requires i < |specs| == |counts|
  {
    && Eligible(specs[i], counts[i]) && Validate(specs[i]).Ok? && Recognises(specs[i], token)
    && PassedOver(specs, counts, token, i)
  }

  /** The calls account for the tokens before `rest`, in order, each by the first parser that may take it. */
  ghost predicate Explains(
    specs: seq<Spec>, counts: seq<nat>, calls: seq<Call>, tokens: seq<Token>, rest: seq<Token>)
    requires |specs| == |counts|
    decreases |calls|
  {
    if calls == [] then tokens == rest
    else
      var i := calls[0].parser;
      && tokens != [] && i < |specs| && FirstFor(specs, counts, tokens[0], i)
      && (match calls[0]
          case SetFlag(_) =>
            specs[i].Opt? && specs[i].isFlag &&
            Explains(specs, Bump(counts, i), calls[1..], tokens[1..], rest)
          case SetValue(_, v) =>
            if specs[i].Opt? then
              !specs[i].isFlag && |tokens| >= 2 && tokens[1] == Token(Argument, v) &&
              Explains(specs, Bump(counts, i), calls[1..], tokens[2..], rest)
            else
              tokens[0].text == v && Explains(specs, Bump(counts, i), calls[1..], tokens[1..], rest))
  }

  /** The counts once these calls were made too. */
  function CountsAfter(counts: seq<nat>, calls: seq<Call>): (r: seq<nat>)
    ensures |r| == |counts|
    decreases |calls|
  {
    if calls == [] || calls[0].parser >= |counts| then counts
    else CountsAfter(Bump(counts, calls[0].parser), calls[1..])
  }

  /** The call a parser makes for the first token. */
  function CallFor(spec: Spec, i: nat, tokens: seq<Token>): Call
    requires tokens != []
  {
    if spec.Arg? then SetValue(i, tokens[0].text)
    else if spec.isFlag then SetFlag(i)
    else SetValue(i, if |tokens| >= 2 then tokens[1].text else "")
  }

  /** A parser that ends the parse at these tokens: it is invalid, lacks its argument, or its call does not go well. */
  predicate StopsAt(spec: Spec, i: nat, tokens: seq<Token>, calls: seq<Call>, answer: Answers, s: Step)
    requires tokens != []
  {
    if !Validate(spec).Ok? then s == Step(Validate(spec), [], calls)
    else
      && Recognises(spec, tokens[0])
      && if spec.Opt? && !spec.isFlag && (|tokens| < 2 || !tokens[1].kind.Argument?) then
           s == Step(RuntimeError("Expected argument following " + tokens[0].text), [], calls)
         else
           var call := CallFor(spec, i, tokens);
           match answer(calls, call)
           case Taken => false
           case ShortCircuit =>
             spec.Opt? && s == Step(Ok(ShortCircuitAll), if spec.isFlag then tokens else tokens[1..], calls + [call])
           case LogicRefused(m) => s == Step(LogicError(m), [], calls + [call])
           case RuntimeRefused(m) => s == Step(RuntimeError(m), [], calls + [call])
  }

  /** The parse ends at these tokens: no parser knows the first, or the first that is not passed over stops there. */
  ghost predicate Stops(
    specs: seq<Spec>, counts: seq<nat>, tokens: seq<Token>, calls: seq<Call>, answer: Answers, s: Step)
    requires |specs| == |counts|
  {
    tokens != [] &&
    ((PassedOver(specs, counts, tokens[0], |specs|) &&
      s == Step(RuntimeError("Unrecognised token: " + tokens[0].text), [], calls)) ||
     (exists i :: 0 <= i < |specs| && Eligible(specs[i], counts[i]) && PassedOver(specs, counts, tokens[0], i) &&
                  StopsAt(specs[i], i, tokens, calls, answer, s)))
  }

  lemma {:induction false} TriesInOrder(
    specs: seq<Spec>, i: nat, counts: seq<nat>, tokens: seq<Token>, calls: seq<Call>, answer: Answers)
    requires i <= |specs| == |counts| && tokens != []
    requires PassedOver(specs, counts, tokens[0], i)
    ensures var a := TryFrom(specs, i, counts, tokens, calls, answer);
            (a.taker < |specs| ==> PassedOver(specs, counts, tokens[0], a.taker)) &&
            (a.step.result == Ok(Matched) ==> FirstFor(specs, counts, tokens[0], a.taker)) &&
            (a.taker == |specs| ==> PassedOver(specs, counts, tokens[0], |specs|))
    decreases |specs| - i
  {
    if i < |specs| {
      var s := ParseOne(specs[i], i, tokens, calls, answer);
      if !Eligible(specs[i], counts[i]) || s.result == Ok(NoMatch) {
        TriesInOrder(specs, i + 1, counts, tokens, calls, answer);
      }
    }
  }

  lemma ExplainsNothing(specs: seq<Spec>, counts: seq<nat>, tokens: seq<Token>)
    requires |specs| == |counts|
    ensures Explains(specs, counts, [], tokens, tokens) && CountsAfter(counts, []) == counts
  {
  }

  /** One more call in front. */
  lemma ExplainsCons(
    specs: seq<Spec>, counts: seq<nat>, call: Call, more: seq<Call>, tokens: seq<Token>, next: seq<Token>,
    rest: seq<Token>)
    requires |specs| == |counts| && tokens != [] && call.parser < |specs|
    requires FirstFor(specs, counts, tokens[0], call.parser)
    requires Used(specs[call.parser], call, tokens, next)
    requires Explains(specs, Bump(counts, call.parser), more, next, rest)
    ensures Explains(specs, counts, [call] + more, tokens, rest)
    ensures CountsAfter(counts, [call] + more) == CountsAfter(Bump(counts, call.parser), more)
  {
    hide FirstFor;
    assert ([call] + more)[1..] == more;
  }

  /** The call fits the tokens it used up, leaving `rest`. */
  predicate Used(spec: Spec, call: Call, tokens: seq<Token>, rest: seq<Token>)
    requires tokens != []
  {
    match call
    case SetFlag(_) => spec.Opt? && spec.isFlag && rest == tokens[1..]
    case SetValue(_, v) =>
      if spec.Opt? then !spec.isFlag && |tokens| >= 2 && tokens[1] == Token(Argument, v) && rest == tokens[2..]
      else tokens[0].text == v && rest == tokens[1..]
  }

  /** A call goes well: it is taken, or short-circuits a positional argument, which the source treats alike. */
  predicate Accepts(spec: Spec, a: Answer) {
    a.Taken? || (spec.Arg? && a.ShortCircuit?)
  }

  /** The calls go well one after the other, after those made before. */
  ghost predicate TakenAll(specs: seq<Spec>, calls: seq<Call>, made: seq<Call>, answer: Answers)
    decreases |made|
  {
    made == [] ||
    (made[0].parser < |specs| && Accepts(specs[made[0].parser], answer(calls, made[0])) &&
     TakenAll(specs, calls + [made[0]], made[1..], answer))
  }

  /** What a parse from here comes to: its calls explain the tokens up to where it ends, and all of them went well; it
      ends with the last token, or where it stops. */
  ghost predicate ComesTo(
    specs: seq<Spec>, counts: seq<nat>, kind: Kind, tokens: seq<Token>, calls: seq<Call>, answer: Answers,
    made: seq<Call>, rest: seq<Token>, s: Step)
    requires |specs| == |counts|
  {
    && Explains(specs, counts, made, tokens, rest) && TakenAll(specs, calls, made, answer)
    && ((rest == [] && s == Step(Ok(if made == [] then kind else Matched), [], calls + made)) ||
        Stops(specs, CountsAfter(counts, made), rest, calls + made, answer, s))
  }

  /** Every parse comes to what it comes to by calls that explain the tokens before its end. */
  lemma {:induction false} ParseExplained(
    specs: seq<Spec>, counts: seq<nat>, kind: Kind, tokens: seq<Token>, calls: seq<Call>, answer: Answers)
    returns (made: seq<Call>, rest: seq<Token>)
    requires |specs| == |counts|
    ensures ComesTo(specs, counts, kind, tokens, calls, answer, made, rest,
                    ParseAll(specs, counts, kind, tokens, calls, answer))
    decreases |tokens|
  {
    hide ParseOne, FirstFor, Used, ParseAll, Explains, Recognises, Bump, Accepts, Stops, CountsAfter, PassedOver,
      TryFrom, Eligible;
    made, rest := [], tokens;
    ParseAllUnfolds(specs, counts, kind, tokens, calls, answer);
    ExplainsNothing(specs, counts, tokens);
    assert calls + [] == calls;
    if tokens != [] {
      var a := TryFrom(specs, 0, counts, tokens, calls, answer);
      StartsInOrder(specs, counts, tokens, calls, answer);
      if a.taker < |specs| && a.step.result == Ok(Matched) {
        var next := Bump(counts, a.taker);
        var more;
        more, rest := ParseExplained(specs, next, Matched, a.step.rest, a.step.calls, answer);
        var call := CallMade(specs[a.taker], a.taker, tokens, calls, answer);
        made := [call] + more;
        assert calls + made == (calls + [call]) + more && made[1..] == more;
        ExplainsCons(specs, counts, call, more, tokens, a.step.rest, rest);
      } else {
        StopsThere(specs, counts, tokens, calls, answer);
      }
    }
  }

  lemma StartsInOrder(specs: seq<Spec>, counts: seq<nat>, tokens: seq<Token>, calls: seq<Call>, answer: Answers)
    requires |specs| == |counts| && tokens != []
    ensures var a := TryFrom(specs, 0, counts, tokens, calls, answer);
            a.step.result == Ok(Matched) ==> FirstFor(specs, counts, tokens[0], a.taker)
  {
    TriesInOrder(specs, 0, counts, tokens, calls, answer);
  }

  /** An attempt that does not match ends the parse. */
  lemma StopsThere(specs: seq<Spec>, counts: seq<nat>, tokens: seq<Token>, calls: seq<Call>, answer: Answers)
    requires |specs| == |counts| && tokens != []
    ensures var a := TryFrom(specs, 0, counts, tokens, calls, answer);
      && (a.taker == |specs| ==>
            Stops(specs, counts, tokens, calls, answer,
                  Step(RuntimeError("Unrecognised token: " + tokens[0].text), [], calls)))
      && (a.taker < |specs| && a.step.result != Ok(Matched) ==> Stops(specs, counts, tokens, calls, answer, a.step))
  {
    var a := TryFrom(specs, 0, counts, tokens, calls, answer);
    TriesInOrder(specs, 0, counts, tokens, calls, answer);
    hide TryFrom, PassedOver;
    if a.taker < |specs| && a.step.result != Ok(Matched) {
      UnmatchedStops(specs[a.taker], a.taker, tokens, calls, answer);
    }
  }

  lemma UnmatchedStops(spec: Spec, i: nat, tokens: seq<Token>, calls: seq<Call>, answer: Answers)
    requires tokens != []
    ensures var s := ParseOne(spec, i, tokens, calls, answer);
            s.result != Ok(Matched) && s.result != Ok(NoMatch) ==> StopsAt(spec, i, tokens, calls, answer, s)
  {
  }

  /** The call a match made, and the tokens it used. */
  lemma CallMade(spec: Spec, i: nat, tokens: seq<Token>, calls: seq<Call>, answer: Answers) returns (call: Call)
    requires tokens != [] && ParseOne(spec, i, tokens, calls, answer).result == Ok(Matched)
    ensures var s := ParseOne(spec, i, tokens, calls, answer);
            && s.calls == calls + [call] && call.parser == i && Recognises(spec, tokens[0])
            && Used(spec, call, tokens, s.rest) && Accepts(spec, answer(calls, call))
  {
    call := if spec.Opt? && spec.isFlag then SetFlag(i)
            else SetValue(i, if spec.Opt? then tokens[1].text else tokens[0].text);
  }

  /** The first eligible parser that is not passed over is the one that decides, if it does not decline. */
  lemma {:induction false} FirstIsTried(
    specs: seq<Spec>, i: nat, k: nat, counts: seq<nat>, tokens: seq<Token>, calls: seq<Call>, answer: Answers)
    requires i <= k < |specs| == |counts| && tokens != []
    requires Eligible(specs[k], counts[k]) && PassedOver(specs, counts, tokens[0], k)
    requires ParseOne(specs[k], k, tokens, calls, answer).result != Ok(NoMatch)
    ensures var a := TryFrom(specs, i, counts, tokens, calls, answer);
            a == Attempt(ParseOne(specs[k], k, tokens, calls, answer), k)
    decreases k - i
  {
    if i < k {
      assert Eligible(specs[i], counts[i]) ==> Validate(specs[i]).Ok? && !Recognises(specs[i], tokens[0]);
      FirstIsTried(specs, i + 1, k, counts, tokens, calls, answer);
    }
  }

  lemma {:induction false} NoneIsTried(
    specs: seq<Spec>, i: nat, counts: seq<nat>, tokens: seq<Token>, calls: seq<Call>, answer: Answers)
    requires i <= |specs| == |counts| && tokens != [] && PassedOver(specs, counts, tokens[0], |specs|)
    ensures TryFrom(specs, i, counts, tokens, calls, answer).taker == |specs|
    decreases |specs| - i
  {
    if i < |specs| {
      assert Eligible(specs[i], counts[i]) ==> Validate(specs[i]).Ok? && !Recognises(specs[i], tokens[0]);
      NoneIsTried(specs, i + 1, counts, tokens, calls, answer);
    }
  }

  lemma ExplainsHead(specs: seq<Spec>, counts: seq<nat>, made: seq<Call>, tokens: seq<Token>, rest: seq<Token>)
    returns (next: seq<Token>)
    requires |specs| == |counts| && made != [] && Explains(specs, counts, made, tokens, rest)
    ensures var i := made[0].parser;
            && tokens != [] && i < |specs| && FirstFor(specs, counts, tokens[0], i)
            && Used(specs[i], made[0], tokens, next)
            && Explains(specs, Bump(counts, i), made[1..], next, rest)
            && CountsAfter(counts, made) == CountsAfter(Bump(counts, i), made[1..])
  {
    hide FirstFor;
    next := if made[0].SetValue? && specs[made[0].parser].Opt? then tokens[2..] else tokens[1..];
  }

  lemma AcceptedMatch(spec: Spec, call: Call, tokens: seq<Token>, rest: seq<Token>, calls: seq<Call>, answer: Answers)
    requires tokens != [] && Validate(spec).Ok? && Recognises(spec, tokens[0])
    requires Used(spec, call, tokens, rest) && Accepts(spec, answer(calls, call))
    ensures ParseOne(spec, call.parser, tokens, calls, answer) == Step(Ok(Matched), rest, calls + [call])
  {
  }

  lemma OneExplained(
    specs: seq<Spec>, counts: seq<nat>, kind: Kind, tokens: seq<Token>, calls: seq<Call>, answer: Answers,
    call: Call, rest: seq<Token>)
    requires |specs| == |counts| && tokens != [] && call.parser < |specs|
    requires Accepts(specs[call.parser], answer(calls, call))
    requires FirstFor(specs, counts, tokens[0], call.parser) && Used(specs[call.parser], call, tokens, rest)
    ensures ParseAll(specs, counts, kind, tokens, calls, answer) ==
            ParseAll(specs, Bump(counts, call.parser), Matched, rest, calls + [call], answer)
  {
    var i := call.parser;
    ParseAllUnfolds(specs, counts, kind, tokens, calls, answer);
    hide TryFrom, ParseAll, Used, Accepts, ParseOne, PassedOver, Recognises, Validate, Eligible, Bump;
    AcceptedMatch(specs[i], call, tokens, rest, calls, answer);
    FirstIsTried(specs, 0, i, counts, tokens, calls, answer);
  }

  lemma TakenHead(specs: seq<Spec>, calls: seq<Call>, made: seq<Call>, answer: Answers)
    requires made != [] && TakenAll(specs, calls, made, answer)
    ensures made[0].parser < |specs| && Accepts(specs[made[0].parser], answer(calls, made[0]))
    ensures TakenAll(specs, calls + [made[0]], made[1..], answer)
  {
  }

  /** Conversely, what explained calls that go well come to is what the parse comes to. */
  lemma {:induction false} ExplainedParse(
    specs: seq<Spec>, counts: seq<nat>, kind: Kind, tokens: seq<Token>, calls: seq<Call>, answer: Answers,
    made: seq<Call>, rest: seq<Token>, s: Step)
    requires |specs| == |counts| && ComesTo(specs, counts, kind, tokens, calls, answer, made, rest, s)
    ensures ParseAll(specs, counts, kind, tokens, calls, answer) == s
    decreases |made|
  {
    hide Stops, CountsAfter, ParseAll, TakenAll, Explains, FirstFor, Used, Accepts, Bump;
    if made == [] {
      assert calls + made == calls;
      NothingExplained(specs, counts, kind, tokens, calls, answer, rest, s);
    } else {
      var call := made[0];
      var next := ExplainsHead(specs, counts, made, tokens, rest);
      TakenHead(specs, calls, made, answer);
      OneExplained(specs, counts, kind, tokens, calls, answer, call, next);
      assert calls + made == (calls + [call]) + made[1..];
      ExplainedParse(specs, Bump(counts, call.parser), Matched, next, calls + [call], answer, made[1..], rest, s);
    }
  }

  lemma NothingExplained(
    specs: seq<Spec>, counts: seq<nat>, kind: Kind, tokens: seq<Token>, calls: seq<Call>, answer: Answers,
    rest: seq<Token>, s: Step)
    requires |specs| == |counts| && Explains(specs, counts, [], tokens, rest)
    requires (rest == [] && s == Step(Ok(kind), [], calls)) ||
             Stops(specs, CountsAfter(counts, []), rest, calls, answer, s)
    ensures ParseAll(specs, counts, kind, tokens, calls, answer) == s
  {
    ParseAllUnfolds(specs, counts, kind, tokens, calls, answer);
    hide TryFrom, ParseAll, PassedOver, ParseOne, StopsAt;
    if tokens != [] {
      if !PassedOver(specs, counts, tokens[0], |specs|) ||
         s != Step(RuntimeError("Unrecognised token: " + tokens[0].text), [], calls)
      {
        var i :| 0 <= i < |specs| && Eligible(specs[i], counts[i]) && PassedOver(specs, counts, tokens[0], i) &&
                 StopsAt(specs[i], i, tokens, calls, answer, s);
        StopIsParsed(specs[i], i, tokens, calls, answer, s);
        FirstIsTried(specs, 0, i, counts, tokens, calls, answer);
      } else {
        NoneIsTried(specs, 0, counts, tokens, calls, answer);
      }
    }
  }

  lemma StopIsParsed(spec: Spec, i: nat, tokens: seq<Token>, calls: seq<Call>, answer: Answers, s: Step)
    requires tokens != [] && StopsAt(spec, i, tokens, calls, answer, s)
    ensures ParseOne(spec, i, tokens, calls, answer) == s && s.result != Ok(NoMatch) && s.result != Ok(Matched)
  {
  }

  // ---------------------------------------------------------------- at most once

  function CallsBy(calls: seq<Call>, i: nat): nat {
    if calls == [] then 0
    else CallsBy(calls[..|calls| - 1], i) + if calls[|calls| - 1].parser == i then 1 else 0
  }

  lemma CallsByAppend(calls: seq<Call>, call: Call, i: nat)
    ensures CallsBy(calls + [call], i) == CallsBy(calls, i) + if call.parser == i then 1 else 0
  {
    assert (calls + [call])[..|calls|] == calls;
  }

  /** The counts are the calls made so far, and none exceeds its cardinality. */
  ghost predicate Counted(specs: seq<Spec>, counts: seq<nat>, calls: seq<Call>)
    requires |specs| == |counts|
  {
    forall i | 0 <= i < |specs| :: counts[i] == CallsBy(calls, i) && (specs[i].Cardinality() == 0 || counts[i] <= 1)
  }

  /** One attempt makes at most one call, by the parser that decided. */
  lemma OneCall(spec: Spec, i: nat, tokens: seq<Token>, calls: seq<Call>, answer: Answers) returns (call: Call)
    requires tokens != []
    ensures var s := ParseOne(spec, i, tokens, calls, answer);
            call.parser == i && (s.calls == calls || s.calls == calls + [call]) &&
            (s.result == Ok(Matched) ==> s.calls == calls + [call])
  {
    call := if spec.Opt? && spec.isFlag then SetFlag(i)
            else SetValue(i, if spec.Opt? then (if |tokens| >= 2 then tokens[1].text else "") else tokens[0].text);
  }

  /** Whatever the tokens and the answers, and whether or not the parse succeeds, an option or argument that is
      not a container is called at most once. */
  lemma {:induction false} AtMostOnce(
    specs: seq<Spec>, counts: seq<nat>, kind: Kind, tokens: seq<Token>, calls: seq<Call>, answer: Answers, i: nat)
    requires |specs| == |counts| && Counted(specs, counts, calls)
    requires i < |specs| && specs[i].Cardinality() != 0
    ensures CallsBy(ParseAll(specs, counts, kind, tokens, calls, answer).calls, i) <= 1
    decreases |tokens|
  {
    ParseAllUnfolds(specs, counts, kind, tokens, calls, answer);
    hide TryFrom, CallsBy, ParseAll, ParseOne;
    if tokens != [] {
      var a := TryFrom(specs, 0, counts, tokens, calls, answer);
      if a.taker < |specs| {
        var call := OneCall(specs[a.taker], a.taker, tokens, calls, answer);
        CallsByAppend(calls, call, i);
        if a.step.result == Ok(Matched) {
          var next := Bump(counts, a.taker);
          forall j | 0 <= j < |specs|
            ensures next[j] == CallsBy(a.step.calls, j) && (specs[j].Cardinality() == 0 || next[j] <= 1)
          {
            CallsByAppend(calls, call, j);
          }
          AtMostOnce(specs, next, Matched, a.step.rest, a.step.calls, answer, i);
        }
      }
    }
  }

  // ---------------------------------------------------------------- a whole command line

  function NoCounts(n: nat): (r: seq<nat>)
    ensures |r| == n
  {
    seq(n, _ => 0)
  }

  function ParseArgs(specs: seq<Spec>, args: seq<string>, answer: Answers): Step {
    ParseAll(specs, NoCounts(|specs|), NoMatch, Flat(args), [], answer)
  }

  /** The parse of any command line comes to s exactly when there are calls that explain its tokens up to some point,
      all go well, and s is how a parse ends there: with the last token, or at an unknown token, an invalid parser, a
      missing argument, a refusal or a short circuit. */
  lemma ParsedExactly(specs: seq<Spec>, args: seq<string>, answer: Answers, s: Step)
    ensures ParseArgs(specs, args, answer) == s <==>
            exists made, rest ::
              ComesTo(specs, NoCounts(|specs|), NoMatch, Flat(args), [], answer, made, rest, s)
  {
    hide *;
    var zeros, tokens := NoCounts(|specs|), Flat(args);
    StartOfParse(specs, args, answer);
    if ParseArgs(specs, args, answer) == s {
      var made, rest := ParseExplained(specs, zeros, NoMatch, tokens, [], answer);
    }
    forall made, rest | ComesTo(specs, zeros, NoMatch, tokens, [], answer, made, rest, s)
      ensures ParseArgs(specs, args, answer) == s
    {
      ExplainedParse(specs, zeros, NoMatch, tokens, [], answer, made, rest, s);
    }
  }

  /** A stop is an error or a short circuit. */
  lemma StopFails(specs: seq<Spec>, counts: seq<nat>, tokens: seq<Token>, calls: seq<Call>, answer: Answers, s: Step)
    requires |specs| == |counts| && Stops(specs, counts, tokens, calls, answer, s)
    ensures s.result.Ok? ==> s.result.kind == ShortCircuitAll
  {
  }

  /** In particular it is parsed to its end, without error or short circuit, exactly when calls that go well can
      explain all its tokens; then exactly those calls are made. */
  lemma AcceptedExactly(specs: seq<Spec>, args: seq<string>, answer: Answers)
    ensures var s := ParseArgs(specs, args, answer);
            s.result.Ok? && s.result.kind != ShortCircuitAll <==>
            exists made :: Explains(specs, NoCounts(|specs|), made, Flat(args), []) && TakenAll(specs, [], made, answer)
    ensures forall made |
              Explains(specs, NoCounts(|specs|), made, Flat(args), []) && TakenAll(specs, [], made, answer) ::
              ParseArgs(specs, args, answer).calls == made && ParseArgs(specs, args, answer).rest == []
  {
    hide *;
    var zeros, tokens := NoCounts(|specs|), Flat(args);
    StartOfParse(specs, args, answer);
    var found, rest := ParseExplained(specs, zeros, NoMatch, tokens, [], answer);
    ReachesEnd(specs, zeros, tokens, answer, found, rest, ParseArgs(specs, args, answer));
    forall made | Explains(specs, zeros, made, tokens, []) && TakenAll(specs, [], made, answer)
      ensures ParseArgs(specs, args, answer) == Step(Ok(if made == [] then NoMatch else Matched), [], made)
    {
      var s := Step(Ok(if made == [] then NoMatch else Matched), [], made);
      assert [] + made == made;
      AllExplained(specs, zeros, tokens, answer, made, s);
      ExplainedParse(specs, zeros, NoMatch, tokens, [], answer, made, [], s);
    }
  }

  lemma ReachesEnd(
    specs: seq<Spec>, counts: seq<nat>, tokens: seq<Token>, answer: Answers, made: seq<Call>, rest: seq<Token>, s: Step)
    requires |specs| == |counts| && ComesTo(specs, counts, NoMatch, tokens, [], answer, made, rest, s)
    ensures s.result.Ok? && s.result.kind != ShortCircuitAll ==>
              Explains(specs, counts, made, tokens, []) && TakenAll(specs, [], made, answer)
  {
    hide Explains, TakenAll, Stops, CountsAfter;
    if rest != [] || s != Step(Ok(if made == [] then NoMatch else Matched), [], [] + made) {
      StopFails(specs, CountsAfter(counts, made), rest, [] + made, answer, s);
    }
  }

  lemma AllExplained(
    specs: seq<Spec>, counts: seq<nat>, tokens: seq<Token>, answer: Answers, made: seq<Call>, s: Step)
    requires |specs| == |counts| && Explains(specs, counts, made, tokens, []) && TakenAll(specs, [], made, answer)
    requires s == Step(Ok(if made == [] then NoMatch else Matched), [], [] + made)
    ensures ComesTo(specs, counts, NoMatch, tokens, [], answer, made, [], s)
  {
    hide Explains, TakenAll, Stops, CountsAfter;
  }

  lemma StartOfParse(specs: seq<Spec>, args: seq<string>, answer: Answers)
    ensures ParseArgs(specs, args, answer) == ParseAll(specs, NoCounts(|specs|), NoMatch, Flat(args), [], answer)
  {
  }

  /** On any command line, with any answers, nothing but a container is called twice. */
  lemma CalledAtMostOnce(specs: seq<Spec>, args: seq<string>, answer: Answers, i: nat)
    requires i < |specs| && specs[i].Cardinality() != 0
    ensures CallsBy(ParseArgs(specs, args, answer).calls, i) <= 1
  {
    AtMostOnce(specs, NoCounts(|specs|), NoMatch, Flat(args), [], answer, i);
    hide ParseAll, Flat;
  }

  // ---------------------------------------------------------------- the classes

  /** Opt::parse and Arg::parse: the tokens are copied, the caller's stream is left alone. */
  method ParseWith(spec: Spec, i: nat, tokens: TokenStream, bindings: Bindings)
    returns (result: Result, remaining: TokenStream)
    requires tokens.Valid() && tokens.Remaining() != []
    modifies bindings
    ensures remaining.Valid() && fresh(remaining)
    ensures var s := ParseOne(spec, i, tokens.Remaining(), old(bindings.calls), bindings.answer);
            result == s.result && bindings.calls == s.calls && (result.Ok? ==> remaining.Remaining() == s.rest)
  {
    remaining := new TokenStream.Copy(tokens);
    match spec {
      case Opt(_, _, _) => result := ParseOption(spec, i, remaining, bindings);
      case Arg(_) => result := ParseArgument(i, remaining, bindings);
    }
  }

  method ParseArgument(i: nat, remaining: TokenStream, bindings: Bindings) returns (result: Result)
    requires remaining.Valid() && remaining.Remaining() != []
    modifies remaining, bindings
    ensures remaining.Valid()
    ensures var s := ParseArg(i, old(remaining.Remaining()), old(bindings.calls), bindings.answer);
            result == s.result && bindings.calls == s.calls && (result.Ok? ==> remaining.Remaining() == s.rest)
  {
    var token := remaining.Front();
    if !token.kind.Argument? {
      return Ok(NoMatch);
    }
    var answer := bindings.Set(SetValue(i, token.text));
    match answer {
      case LogicRefused(m) => return LogicError(m);
      case RuntimeRefused(m) => return RuntimeError(m);
      case _ =>
        remaining.Advance();
        return Ok(Matched);
    }
  }

  method ParseOption(spec: Spec, i: nat, remaining: TokenStream, bindings: Bindings) returns (result: Result)
    requires remaining.Valid() && spec.Opt?
    modifies remaining, bindings
    ensures remaining.Valid()
    ensures var s := ParseOpt(spec, i, old(remaining.Remaining()), old(bindings.calls), bindings.answer);
            result == s.result && bindings.calls == s.calls && (result.Ok? ==> remaining.Remaining() == s.rest)
  {
    hide Validate;
    var validation := Validate(spec);
    if !validation.Ok? {
      return validation;
    }
    var more := remaining.HasMore();
    if more {
      var token := remaining.Front();
      if token.kind.Option? && token.text in spec.names {
        var answer: Answer;
        if spec.isFlag {
          answer := bindings.Set(SetFlag(i));
        } else {
          remaining.Advance();
          more := remaining.HasMore();
          if !more {
            return RuntimeError("Expected argument following " + token.text);
          }
          var argument := remaining.Front();
          if !argument.kind.Argument? {
            return RuntimeError("Expected argument following " + token.text);
          }
          answer := bindings.Set(SetValue(i, argument.text));
        }
        match answer {
          case LogicRefused(m) => return LogicError(m);
          case RuntimeRefused(m) => return RuntimeError(m);
          case ShortCircuit => return Ok(ShortCircuitAll);
          case Taken =>
            remaining.Advance();
            return Ok(Matched);
        }
      }
    }
    result := Ok(NoMatch);
  }

  const MAX_PARSERS := 512

  /** The combined parser: all options, then all positional arguments. */
  class Parser {
    const options: seq<Spec>
    const arguments: seq<Spec>

    constructor (options: seq<Spec>, arguments: seq<Spec>)
      ensures this.options == options && this.arguments == arguments
    {
      this.options := options;
      this.arguments := arguments;
    }

    /** parseInfos: the options before the arguments. */
    function Specs(): seq<Spec> { options + arguments }

    /** ++parseInfo.count */
    static method Increment(counts: array<nat>, i: nat, ghost n: nat)
      requires i < n <= counts.Length
      modifies counts
      ensures counts[..n] == Bump(old(counts[..n]), i)
    {
      counts[i] := counts[i] + 1;
    }

    /** One round of the inner loop. */
    method TryParsers(counts: array<nat>, kind: Kind, tokens: TokenStream, bindings: Bindings)
      returns (result: Result, remaining: TokenStream, tokenParsed: bool)
      requires |Specs()| < MAX_PARSERS == counts.Length
      requires tokens.Valid() && tokens.Remaining() != [] && kind != ShortCircuitAll
      modifies counts, bindings
      ensures remaining.Valid() && (remaining == tokens || fresh(remaining))
      ensures var a :=
                TryFrom(Specs(), 0, old(counts[..|Specs()|]), old(tokens.Remaining()), old(bindings.calls),
                        bindings.answer);
              && bindings.calls == a.step.calls
              && (tokenParsed <==> a.taker < |Specs()| && a.step.result.Ok?)
              && (a.taker == |Specs()| ==>
                   result.Ok? && result.kind != ShortCircuitAll && counts[..] == old(counts[..]))
              && (a.taker < |Specs()| ==> result == a.step.result)
              && (result.Ok? ==> remaining.Remaining() == a.step.rest)
              && (tokenParsed ==> counts[..|Specs()|] == Bump(old(counts[..|Specs()|]), a.taker))
    {
      hide ParseOne, TryFrom, Bump, Specs, Flat, Validate, TokenStream.Remaining, TokenStream.Valid;
      var specs := Specs();
      var n := |specs|;
      ghost var before, first, all := counts[..n], tokens.Remaining(), counts[..];
      result, remaining, tokenParsed := Ok(kind), tokens, false;
      var i := 0;
      while i < n
        invariant 0 <= i <= n && counts[..] == all
        invariant remaining.Valid() && remaining.Remaining() == first && (remaining == tokens || fresh(remaining))
        invariant result.Ok? && result.kind != ShortCircuitAll && bindings.calls == old(bindings.calls)
        invariant TryFrom(specs, 0, before, first, old(bindings.calls), bindings.answer) ==
                  TryFrom(specs, i, before, first, old(bindings.calls), bindings.answer)
      {
        assert counts[i] == before[i];
        TryUnfolds(specs, i, before, first, bindings.calls, bindings.answer);
        if specs[i].Cardinality() == 0 || counts[i] < specs[i].Cardinality() {
          result, remaining := ParseWith(specs[i], i, remaining, bindings);
          if !result.Ok? {
            return;
          }
          if result.kind != NoMatch {
            tokenParsed := true;
            Increment(counts, i, n);
            return;
          }
        }
        i := i + 1;
      }
      TryEnds(specs, before, first, bindings.calls, bindings.answer);
    }

    method Parse(tokens: TokenStream, bindings: Bindings) returns (result: Result, remaining: TokenStream)
      requires tokens.Valid() && |Specs()| < MAX_PARSERS
      modifies bindings
      ensures remaining.Valid()
      ensures var s :=
                ParseAll(Specs(), NoCounts(|Specs()|), NoMatch, old(tokens.Remaining()), old(bindings.calls),
                         bindings.answer);
              result == s.result && bindings.calls == s.calls && (result.Ok? ==> remaining.Remaining() == s.rest)
    {
      hide TryFrom, ParseAll, Bump;
      var n := |Specs()|;
      var counts := new nat[MAX_PARSERS](_ => 0);
      result := Ok(NoMatch);
      remaining := new TokenStream.Copy(tokens);
      assert counts[..n] == NoCounts(n);
      var more := remaining.HasMore();
      while more
        invariant remaining.Valid() && fresh(remaining) && (more <==> remaining.Remaining() != [])
        invariant result.Ok? && result.kind != ShortCircuitAll
        invariant ParseAll(Specs(), NoCounts(n), NoMatch, old(tokens.Remaining()),
                           old(bindings.calls), bindings.answer) ==
                  ParseAll(Specs(), counts[..n], result.kind, remaining.Remaining(), bindings.calls, bindings.answer)
        decreases |remaining.Remaining()|
      {
        ParseAllUnfolds(Specs(), counts[..n], result.kind, remaining.Remaining(), bindings.calls, bindings.answer);
        var tokenParsed;
        result, remaining, tokenParsed := TryParsers(counts, result.kind, remaining, bindings);
        if !result.Ok? {
          return;
        }
        if result.kind == ShortCircuitAll {
          return;
        }
        if !tokenParsed {
          var token := remaining.Front();
          return RuntimeError("Unrecognised token: " + token.text), remaining;
        }
        more := remaining.HasMore();
      }
      ParseAllUnfolds(Specs(), counts[..n], result.kind, remaining.Remaining(), bindings.calls, bindings.answer);
    }
  }
}
