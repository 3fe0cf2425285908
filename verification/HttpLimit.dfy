/** When the way a stream is cut into reads decides the verdict on it. */
module HttpLimit {
  import opened Decimals
  import opened HttpParser
  import opened HttpGrammar
  import opened HttpAccepts
  import opened HttpConnection

  function ByteRead(c: char): Event { ReadDone(Success, [c]) }

  lemma ReceivedAppend(events: seq<Event>, e: Event)
    requires e.ReadDone? && e.ec.Success?
    ensures Received(events + [e]) == Received(events) + e.data
    ensures AfterAll(events + [e]) == After(AfterAll(events), e)
    ensures Possible(events + [e]) <==> Possible(events) && Enabled(AfterAll(events), e)
  {
    assert (events + [e])[..|events|] == events;
  }

  /** A successful read leaves the connection reading exactly while there is no verdict. */
  lemma ReadsOn(c: Conn, stream: string, data: string)
    requires Ready(c) && c.pending.Read? && InStep(c, stream)
    ensures After(c, ReadDone(Success, data)).pending.Read? <==> VerdictOn(stream + data).Undecided?
  {
    ReadStep(c, stream, data);
    hide Run, LogTells, VerdictOn;
  }

  /** As long as its prefixes are undecided a stream can be read byte by byte. */
  lemma {:induction false} ByteByByte(stream: string) returns (events: seq<Event>)
    requires |stream| <= MAX_REQUEST_SIZE
    requires stream != "" ==> VerdictOn(stream[..|stream| - 1]).Undecided?
    ensures Possible(events) && Received(events) == stream
    ensures VerdictOn(stream).Undecided? ==> AfterAll(events).pending.Read?
    decreases |stream|
  {
    events := [];
    if stream != "" {
      var n := |stream| - 1;
      var init, c := stream[..n], stream[n];
      assert stream == init + [c];
      if n > 0 && !VerdictOn(init[..n - 1]).Undecided? {
        DecidedStays(init[..n - 1], init);
      }
      var before := ByteByByte(init);
      EveryRun(before);
      ReadsOn(AfterAll(before), init, [c]);
      ReceivedAppend(before, ByteRead(c));
      hide Possible, AfterAll, Received, VerdictOn, InStep;
      events := before + [ByteRead(c)];
    }
  }

  const FILLER := MAX_REQUEST_SIZE - 15

  /** A request that is exactly as long as the limit. */
  function LongRequest(): Message {
    Message("G", seq(FILLER, i => 'a'), "1", "0", [])
  }

  lemma FillerIsUri()
    ensures AllUri(LongRequest().uri) && AllToken("G") && AllDigits("1") && AllDigits("0")
  {
  }

  lemma LongRequestFits()
    ensures WellFormed(LongRequest()) && |HttpGrammar.Written(LongRequest())| == MAX_REQUEST_SIZE == 10 * 1024 * 1024
  {
    FillerIsUri();
    hide FieldOk, IsTokenChar, AllUri;
    assert FieldsText([]) == "";
    assert |RequestLine(LongRequest())| == FILLER + 11;
  }

  /** Without its last byte a written request is undecided. */
  lemma UndecidedBefore(m: Message)
    requires WellFormed(m) && |HttpGrammar.Written(m)| <= MAX_REQUEST_SIZE && HttpGrammar.Written(m) != ""
    ensures var text := HttpGrammar.Written(m);
            VerdictOn(text).Accept? && VerdictOn(text[..|text| - 1]).Undecided?
  {
    hide WellFormed, HttpGrammar.Written, Run, RequestOf;
    var text := HttpGrammar.Written(m);
    var n := |text| - 1;
    Accepted(m, "");
    assert text + "" == text && text == text[..n] + text[n..];
    RunConcat(MethodStart, EMPTY_REQUEST, text[..n], text[n..]);
  }

  /** One stream, one byte longer than the limit, and two ways of cutting it: a run that reads byte by byte
      handles the request, one that reads the last two bytes together rejects it. */
  lemma CutMatters() returns (a: seq<Event>, b: seq<Event>)
    ensures Possible(a) && Possible(b) && Received(b) == Received(a) + "x"
    ensures exists r :: HandleRequest(r) in AfterAll(a).log
    ensures StartWrite(StockBadRequest) in AfterAll(b).log
  {
    hide *;
    LongRequestFits();
    var m := LongRequest();
    var text := HttpGrammar.Written(m);
    var n := |text| - 1;
    assert text != "";
    UndecidedBefore(m);
    a := ByteByByte(text);
    AcceptHandles(a);
    Undecidable(text, n);
    var before := ByteByByte(text[..n]);
    var last := ReadDone(Success, [text[n], 'x']);
    LastTwo(before, last);
    b := before + [last];
    assert text[..n] + [text[n], 'x'] == text + "x";
    SingleReply(b);
  }

  lemma LastTwo(before: seq<Event>, last: Event)
    requires Possible(before) && AfterAll(before).pending.Read?
    requires last.ReadDone? && last.ec.Success? && |last.data| == 2
    ensures Possible(before + [last]) && Received(before + [last]) == Received(before) + last.data
  {
    ReceivedAppend(before, last);
    hide Possible, AfterAll, Received;
  }

  lemma AcceptHandles(events: seq<Event>)
    requires Possible(events) && VerdictOn(Received(events)).Accept?
    ensures exists r :: HandleRequest(r) in AfterAll(events).log
  {
    SingleReply(events);
    assert HandleRequest(Run(MethodStart, EMPTY_REQUEST, Received(events)).req) in AfterAll(events).log;
    hide Run, Possible, AfterAll, Received;
  }

  lemma Undecidable(text: string, n: nat)
    requires n < |text| <= MAX_REQUEST_SIZE && VerdictOn(text[..n]).Undecided?
    ensures n > 0 ==> VerdictOn(text[..n][..n - 1]).Undecided?
  {
    if n > 0 && !VerdictOn(text[..n][..n - 1]).Undecided? {
      DecidedStays(text[..n][..n - 1], text[..n]);
    }
    hide VerdictOn;
  }

  // ---------------------------------------------------------------- the exact condition

  /** The verdict a run has acted on. */
  ghost predicate Reaches(events: seq<Event>, v: Verdict) {
    match v
    case Undecided => false
    case Reject => StartWrite(StockBadRequest) in AfterAll(events).log
    case Accept(r) => HandleRequest(r) in AfterAll(events).log
  }

  /** A run that has received no more than a beginning of the stream. */
  ghost predicate FedFrom(events: seq<Event>, stream: string) {
    Possible(events) && Received(events) <= stream
  }

  /** Some two runs fed from the stream reach different verdicts. */
  ghost predicate CutDecides(stream: string) {
    exists a, b, v, w :: FedFrom(a, stream) && FedFrom(b, stream) && Reaches(a, v) && Reaches(b, w) && v != w
  }

  lemma ReachesIsVerdict(events: seq<Event>, v: Verdict)
    requires Possible(events)
    ensures Reaches(events, v) <==> !v.Undecided? && VerdictOn(Received(events)) == v
  {
    hide Run, Possible, AfterAll, Received;
    SingleReply(events);
  }

  /** The bytes received before the last successful read were still undecided. */
  lemma {:induction false} LastRead(events: seq<Event>) returns (before: string)
    requires Possible(events)
    ensures before <= Received(events) && |Received(events)| <= |before| + BUFFER_SIZE
    ensures VerdictOn(before).Undecided?
  {
    before := "";
    if events != [] {
      var n := |events| - 1;
      if events[n].ReadDone? && events[n].ec.Success? {
        EveryRun(events[..n]);
        before := Received(events[..n]);
      } else {
        before := LastRead(events[..n]);
      }
      hide After, LogTells, Run;
    }
  }

  lemma DecisionConsumes(st: State, req: RequestData, text: string)
    requires HeadersReady(st, req) && !Run(st, req, text).result.Indeterminate?
    ensures Run(st, req, text).consumed > 0
  {
    RunUnfolds(st, req, text);
    hide Run;
  }

  /** Before the byte that decides, a parse is undecided; from it on, it has decided the same. */
  lemma DecidesAt(stream: string, n: nat)
    requires n <= |stream| && !Run(MethodStart, EMPTY_REQUEST, stream).result.Indeterminate?
    ensures var o := Run(MethodStart, EMPTY_REQUEST, stream);
            if n < o.consumed then Run(MethodStart, EMPTY_REQUEST, stream[..n]).result.Indeterminate?
            else Run(MethodStart, EMPTY_REQUEST, stream[..n]) == o
  {
    hide Run;
    assert stream == stream[..n] + stream[n..];
    RunConcat(MethodStart, EMPTY_REQUEST, stream[..n], stream[n..]);
    var o := Run(MethodStart, EMPTY_REQUEST, stream[..n]);
    if o.result.Indeterminate? {
      DecisionConsumes(o.state, o.req, stream[n..]);
    }
  }

  /** The request ends within the limit, the stream goes on past it, and a read may span from its last byte
      to past the limit. */
  ghost predicate EndsNearLimit(stream: string) {
    var o := Run(MethodStart, EMPTY_REQUEST, stream);
    && o.result.Good?
    && o.consumed <= MAX_REQUEST_SIZE < |stream|
    && MAX_REQUEST_SIZE < o.consumed - 1 + BUFFER_SIZE
  }

  /** A run that handles a request fed from the stream, and one that rejects: then the request ends near the limit. */
  lemma OnlyNearLimit(a: seq<Event>, b: seq<Event>, stream: string)
    requires FedFrom(a, stream) && FedFrom(b, stream)
    requires VerdictOn(Received(a)).Accept? && VerdictOn(Received(b)).Reject?
    ensures EndsNearLimit(stream)
  {
    hide Run, Possible, Received;
    var before := LastRead(b);
    var x, y := Received(a), Received(b);
    assert stream[..|x|] == x && stream[..|y|] == y && stream[..|before|] == before;
    RunConcat(MethodStart, EMPTY_REQUEST, x, stream[|x|..]);
    assert stream == x + stream[|x|..];
    DecidesAt(stream, |x|);
    DecidesAt(stream, |y|);
    DecidesAt(stream, |before|);
  }

  /** The decided parse of a stream as a verdict on what ends with the deciding byte. */
  lemma GoodPrefix(stream: string)
    requires EndsNearLimit(stream)
    ensures var k := Run(MethodStart, EMPTY_REQUEST, stream).consumed;
            && 0 < k <= |stream|
            && Run(MethodStart, EMPTY_REQUEST, stream[..k]).result.Good?
            && VerdictOn(stream[..k - 1]).Undecided?
  {
    hide Run;
    var k := Run(MethodStart, EMPTY_REQUEST, stream).consumed;
    DecisionConsumes(MethodStart, EMPTY_REQUEST, stream);
    DecidesAt(stream, k);
    DecidesAt(stream, k - 1);
  }

  /** Near the limit both verdicts are reached: by reading byte by byte to the end of the request, and by
      reading on past the limit together with its last byte. */
  lemma NearLimitBoth(stream: string) returns (a: seq<Event>, b: seq<Event>)
    requires EndsNearLimit(stream)
    ensures FedFrom(a, stream) && FedFrom(b, stream)
    ensures Reaches(b, Reject) && exists r :: Reaches(a, Accept(r))
  {
    hide Run, Possible, AfterAll, Received, VerdictOn;
    var k := Run(MethodStart, EMPTY_REQUEST, stream).consumed;
    GoodPrefix(stream);
    var init, rest := stream[..k - 1], stream[k - 1..MAX_REQUEST_SIZE + 1];
    assert stream[..k][..k - 1] == init;
    a := ByteByByte(stream[..k]);
    Undecidable(stream[..k], k - 1);
    var before := ByteByByte(init);
    var last := ReadDone(Success, rest);
    ReceivedAppend(before, last);
    b := before + [last];
    assert init + rest == stream[..MAX_REQUEST_SIZE + 1] == stream[..k] + stream[k..MAX_REQUEST_SIZE + 1];
    PastTheLimit(a, b, stream[k..MAX_REQUEST_SIZE + 1]);
    assert Reaches(a, Accept(Run(MethodStart, EMPTY_REQUEST, Received(a)).req));
  }

  /** The cut into reads decides the verdict exactly for streams whose request ends near the limit. */
  lemma OversizeDependsOnCut(stream: string)
    ensures CutDecides(stream) <==> EndsNearLimit(stream)
  {
    hide Run, Possible, AfterAll, Received, EndsNearLimit, VerdictOn, Reaches;
    if CutDecides(stream) {
      var a, b, v, w :| FedFrom(a, stream) && FedFrom(b, stream) && Reaches(a, v) && Reaches(b, w) && v != w;
      ReachesIsVerdict(a, v);
      ReachesIsVerdict(b, w);
      SameAcceptance(a, b, stream);
      if v.Accept? {
        OnlyNearLimit(a, b, stream);
      } else {
        OnlyNearLimit(b, a, stream);
      }
    }
    if EndsNearLimit(stream) {
      var a, b := NearLimitBoth(stream);
      var r :| Reaches(a, Accept(r));
      assert Accept(r) != Reject;
    }
  }

  /** Requests accepted from one stream are the same. */
  lemma SameAcceptance(a: seq<Event>, b: seq<Event>, stream: string)
    requires FedFrom(a, stream) && FedFrom(b, stream)
    ensures var v, w := VerdictOn(Received(a)), VerdictOn(Received(b));
            v.Accept? && w.Accept? ==> v == w
  {
    hide Run, Possible, Received;
    var x, y := Received(a), Received(b);
    RunConcat(MethodStart, EMPTY_REQUEST, x, stream[|x|..]);
    RunConcat(MethodStart, EMPTY_REQUEST, y, stream[|y|..]);
    assert stream == x + stream[|x|..] == y + stream[|y|..];
  }

  /** In particular a request that ends a buffer or more before the limit is never rejected, however long the
      stream goes on and however it is cut. */
  lemma NeverRejected(events: seq<Event>, stream: string)
    requires FedFrom(events, stream)
    requires var o := Run(MethodStart, EMPTY_REQUEST, stream);
             o.result.Good? && o.consumed - 1 + BUFFER_SIZE <= MAX_REQUEST_SIZE
    ensures !Reaches(events, Reject)
  {
    hide Run, Possible, Received, Reaches;
    ReachesIsVerdict(events, Reject);
    var before := LastRead(events);
    var y := Received(events);
    assert stream[..|y|] == y && stream[..|before|] == before;
    DecidesAt(stream, |y|);
    DecidesAt(stream, |before|);
  }
}
