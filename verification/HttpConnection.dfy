/** The completion handlers of lib/http/connection.cpp, under every order of completions. */
module HttpConnection {
  import opened HttpParser

  const MAX_REQUEST_SIZE := 1024 * 1024 * 10
  const BUFFER_SIZE := 8192

  /** What an asio completion reports. */
  datatype ErrorCode = Success | OperationAborted | OtherError

  /** The stock bad_request reply, or what the request handler answered. */
  datatype Reply = NoReply | StockBadRequest | ReplyTo(req: RequestData)

  /** The asynchronous operation whose completion is outstanding. */
  datatype Pending = Nothing | Read | Write

  datatype Action =
    | StartRead
    | HandleRequest(req: RequestData)
    | StartWrite(reply: Reply)
    | Shutdown
    | ManagerStop
    | CloseSocket

  // ---------------------------------------------------------------- one completion

  datatype Conn = Conn(received: nat, state: State, req: RequestData, reply: Reply, pending: Pending, log: seq<Action>)

  datatype Event =
    | ReadDone(ec: ErrorCode, data: string)
    | WriteDone(ec: ErrorCode)
    | Stop

  /** Completions come only for the outstanding operation; the manager may stop the connection any time. */
  predicate Enabled(c: Conn, e: Event) {
    match e
    case ReadDone(_, data) => c.pending.Read? && |data| <= BUFFER_SIZE
    case WriteDone(_) => c.pending.Write?
    case Stop => true
  }

  predicate Ready(c: Conn) { HeadersReady(c.state, c.req) }

  function After(c: Conn, e: Event): (d: Conn)
    requires Ready(c)
    ensures Ready(d)
  {
    match e
    case ReadDone(Success, data) =>
      var o := Run(c.state, c.req, data);
      var d := c.(state := o.state, req := o.req, received := c.received + |data|);
      if o.result.Bad? || d.received > MAX_REQUEST_SIZE then
        d.(reply := StockBadRequest, pending := Write, log := d.log + [StartWrite(StockBadRequest)])
      else if o.result.Good? then
        d.(reply := ReplyTo(o.req), pending := Write,
           log := d.log + [HandleRequest(o.req)] + [StartWrite(ReplyTo(o.req))])
      else
        d.(pending := Read, log := d.log + [StartRead])
    case ReadDone(OperationAborted, _) => c.(pending := Nothing)
    case ReadDone(OtherError, _) => c.(pending := Nothing, log := c.log + [ManagerStop, CloseSocket])
    case WriteDone(Success) =>
      c.(pending := Nothing, log := c.log + [Shutdown, ManagerStop, CloseSocket, CloseSocket])
    case WriteDone(OperationAborted) => c.(pending := Nothing, log := c.log + [CloseSocket])
    case WriteDone(OtherError) => c.(pending := Nothing, log := c.log + [ManagerStop, CloseSocket, CloseSocket])
    case Stop => c.(log := c.log + [CloseSocket])
  }

  // ---------------------------------------------------------------- every run

  /** The connection after start(). */
  const STARTED := Conn(0, MethodStart, EMPTY_REQUEST, NoReply, Read, [StartRead])

  /** The events are possible one after the other. */
  predicate Possible(events: seq<Event>) {
    events == [] ||
    var n := |events| - 1;
    Possible(events[..n]) && Enabled(AfterAll(events[..n]), events[n])
  }

  function AfterAll(events: seq<Event>): (c: Conn)
    ensures Ready(c)
  {
    if events == [] then STARTED else After(AfterAll(events[..|events| - 1]), events[|events| - 1])
  }

  /** All bytes delivered by successful reads. */
  function Received(events: seq<Event>): string {
    if events == [] then ""
    else
      var n := |events| - 1;
      Received(events[..n]) +
      (if events[n].ReadDone? && events[n].ec.Success? then events[n].data else "")
  }

  datatype Verdict = Undecided | Reject | Accept(req: RequestData)

  /** The verdict on everything received: one parse of the whole, then the size limit. */
  function VerdictOn(stream: string): Verdict {
    var o := Run(MethodStart, EMPTY_REQUEST, stream);
    if o.result.Bad? || |stream| > MAX_REQUEST_SIZE then Reject
    else if o.result.Good? then Accept(o.req)
    else Undecided
  }

  /** What the log must contain, given the verdict. */
  predicate LogTells(log: seq<Action>, v: Verdict) {
    && (forall i | 0 <= i < |log| && log[i].StartWrite? ::
          !v.Undecided? && log[i].reply == (if v.Reject? then StockBadRequest else ReplyTo(v.req)))
    && (forall i | 0 <= i < |log| && log[i].HandleRequest? :: v == Accept(log[i].req))
    && (forall i, j | 0 <= i < j < |log| && log[i].StartWrite? :: !log[j].StartWrite?)
    && (forall i, j | 0 <= i < j < |log| && log[i].HandleRequest? :: !log[j].HandleRequest?)
    && (forall i, j | 0 <= i < j < |log| && (log[i].StartWrite? || log[i].HandleRequest?) :: !log[j].StartRead?)
    && (v.Reject? ==> StartWrite(StockBadRequest) in log)
    && (v.Accept? ==> HandleRequest(v.req) in log && StartWrite(ReplyTo(v.req)) in log)
  }

  /** The parser state is that of one parse of the whole stream, as long as no verdict has stopped it. */
  ghost predicate InStep(c: Conn, stream: string) {
    && c.received == |stream|
    && LogTells(c.log, VerdictOn(stream))
    && (c.pending.Write? ==> !VerdictOn(stream).Undecided?)
    && (c.pending.Read? ==>
          VerdictOn(stream).Undecided? &&
          Run(MethodStart, EMPTY_REQUEST, stream) == Outcome(c.state, c.req, Indeterminate, |stream|))
  }

  lemma {:induction false} LogQuiet(log: seq<Action>, more: seq<Action>, v: Verdict)
    requires LogTells(log, v)
    requires forall i | 0 <= i < |more| :: !more[i].StartRead? && !more[i].StartWrite? && !more[i].HandleRequest?
    ensures LogTells(log + more, v)
  {
  }

  /** While undecided, the log holds no write and no handled request. */
  lemma LogReadsOn(log: seq<Action>)
    requires LogTells(log, Undecided)
    ensures LogTells(log + [StartRead], Undecided)
  {
  }

  lemma LogRejects(log: seq<Action>)
    requires LogTells(log, Undecided)
    ensures LogTells(log + [StartWrite(StockBadRequest)], Reject)
  {
  }

  lemma LogAccepts(log: seq<Action>, req: RequestData)
    requires LogTells(log, Undecided)
    ensures LogTells(log + [HandleRequest(req)] + [StartWrite(ReplyTo(req))], Accept(req))
  {
  }

  lemma ReadStep(c: Conn, stream: string, data: string)
    requires Ready(c) && c.pending.Read? && InStep(c, stream)
    ensures InStep(After(c, ReadDone(Success, data)), stream + data)
  {
    RunConcat(MethodStart, EMPTY_REQUEST, stream, data);
    LogReadsOn(c.log);
    LogRejects(c.log);
    LogAccepts(c.log, Run(c.state, c.req, data).req);
    hide LogTells, Run;
  }

  lemma EventStep(c: Conn, stream: string, e: Event)
    requires Ready(c) && Enabled(c, e) && InStep(c, stream)
    requires !(e.ReadDone? && e.ec.Success?)
    ensures InStep(After(c, e), stream)
  {
    LogQuiet(c.log, [CloseSocket], VerdictOn(stream));
    LogQuiet(c.log, [ManagerStop, CloseSocket], VerdictOn(stream));
    LogQuiet(c.log, [ManagerStop, CloseSocket, CloseSocket], VerdictOn(stream));
    LogQuiet(c.log, [Shutdown, ManagerStop, CloseSocket, CloseSocket], VerdictOn(stream));
    hide LogTells, Run, VerdictOn;
  }

  /** Over every order of completions the connection is where one parse of the received bytes puts it. */
  lemma {:induction false} EveryRun(events: seq<Event>)
    requires Possible(events)
    ensures InStep(AfterAll(events), Received(events))
  {
    hide InStep, After;
    if events == [] {
      JustStarted();
    } else {
      var n := |events| - 1;
      var e := events[n];
      EveryRun(events[..n]);
      if e.ReadDone? && e.ec.Success? {
        ReadStep(AfterAll(events[..n]), Received(events[..n]), e.data);
      } else {
        EventStep(AfterAll(events[..n]), Received(events[..n]), e);
        assert Received(events[..n]) + "" == Received(events[..n]);
      }
    }
  }

  lemma JustStarted()
    ensures InStep(STARTED, "")
  {
  }

  /** At most one request handled, at most one write, no read after a verdict; both verdicts are exact. */
  lemma SingleReply(events: seq<Event>)
    requires Possible(events)
    ensures var log := AfterAll(events).log;
            && (forall i, j | 0 <= i < j < |log| && log[i].StartWrite? :: !log[j].StartWrite?)
            && (forall i, j | 0 <= i < j < |log| && log[i].HandleRequest? :: !log[j].HandleRequest?)
            && (forall i, j | 0 <= i < j < |log| && (log[i].StartWrite? || log[i].HandleRequest?) :: !log[j].StartRead?)
    ensures var log := AfterAll(events).log; var stream := Received(events);
            var o := Run(MethodStart, EMPTY_REQUEST, stream);
            && (forall r :: HandleRequest(r) in log <==>
                  o.result.Good? && o.req == r && |stream| <= 10 * 1024 * 1024)
            && (StartWrite(StockBadRequest) in log <==> o.result.Bad? || |stream| > 10 * 1024 * 1024)
    ensures |Received(events)| <= MAX_REQUEST_SIZE + BUFFER_SIZE
  {
    EveryRun(events);
    ReceivedBound(events);
    hide Run, AfterAll, Received, Possible;
  }

  lemma {:induction false} ReceivedBound(events: seq<Event>)
    requires Possible(events)
    ensures |Received(events)| <= 10 * 1024 * 1024 + 8192
  {
    if events != [] {
      var n := |events| - 1;
      ReceivedBound(events[..n]);
      EveryRun(events[..n]);
      hide After, LogTells, Run;
    }
  }

  // ---------------------------------------------------------------- the end of a connection

  /** The completions that tell the connection manager to drop the connection. */
  predicate Drops(e: Event) {
    match e
    case ReadDone(ec, _) => ec == OtherError
    case WriteDone(ec) => ec != OperationAborted
    case Stop => false
  }

  /** The events that close the socket. */
  predicate Closes(e: Event) { Drops(e) || e.WriteDone? || e.Stop? }

  /** The completions after which no operation is outstanding. */
  predicate Finishes(e: Event) { e.WriteDone? || (e.ReadDone? && !e.ec.Success?) }

  predicate SomeDrops(events: seq<Event>) { exists i :: 0 <= i < |events| && Drops(events[i]) }

  predicate SomeCloses(events: seq<Event>) { exists i :: 0 <= i < |events| && Closes(events[i]) }

  predicate SomeFinishes(events: seq<Event>) { exists i :: 0 <= i < |events| && Finishes(events[i]) }

  /** What the log tells about the end. */
  predicate LogEnds(log: seq<Action>, shut: bool, dropped: bool, closed: bool, stopped: bool) {
    && (Shutdown in log <==> shut) && (ManagerStop in log <==> dropped) && (CloseSocket in log <==> closed)
    && (forall i, j | 0 <= i < j < |log| && log[i].Shutdown? :: !log[j].Shutdown?)
    && (forall i, j | 0 <= i < j < |log| && log[i].ManagerStop? :: !log[j].ManagerStop?)
    && (forall i, j | 0 <= i < j < |log| && log[i].CloseSocket? && !stopped ::
          !log[j].Shutdown? && !log[j].ManagerStop?)
  }

  ghost predicate EndedBy(c: Conn, events: seq<Event>) {
    && LogEnds(c.log, WriteDone(Success) in events, SomeDrops(events), SomeCloses(events), Stop in events)
    && (c.pending.Nothing? <==> SomeFinishes(events))
    && (SomeDrops(events) || WriteDone(Success) in events ==> SomeFinishes(events))
    && (SomeCloses(events) ==> SomeFinishes(events) || Stop in events)
  }

  lemma OneMore(events: seq<Event>, e: Event)
    ensures WriteDone(Success) in events + [e] <==> WriteDone(Success) in events || e == WriteDone(Success)
    ensures Stop in events + [e] <==> Stop in events || e == Stop
    ensures SomeDrops(events + [e]) <==> SomeDrops(events) || Drops(e)
    ensures SomeCloses(events + [e]) <==> SomeCloses(events) || Closes(e)
    ensures SomeFinishes(events + [e]) <==> SomeFinishes(events) || Finishes(e)
  {
    hide Drops, Closes, Finishes;
    var more := events + [e];
    assert more[|events|] == e && forall i | 0 <= i < |events| :: more[i] == events[i];
  }

  /** Over every run: the socket is shut down exactly after a reply that was written, the manager is told exactly of an
      error or of a write that was not aborted, each at most once and before the socket is closed; it is closed exactly
      by these, by an aborted write or by stop(); and nothing is outstanding exactly once an operation ended so. */
  lemma {:induction false} EndsProperly(events: seq<Event>)
    requires Possible(events)
    ensures EndedBy(AfterAll(events), events)
  {
    hide EndedBy, After;
    if events == [] {
      NothingEnded();
    } else {
      var n := |events| - 1;
      EndsProperly(events[..n]);
      assert events == events[..n] + [events[n]];
      EndStep(AfterAll(events[..n]), events[..n], events[n]);
    }
  }

  lemma NothingEnded()
    ensures EndedBy(STARTED, [])
  {
  }

  lemma LogAppend(log: seq<Action>, a: Action, shut: bool, dropped: bool, closed: bool, stopped: bool)
    requires LogEnds(log, shut, dropped, closed, stopped)
    requires a.Shutdown? ==> !shut && (stopped || !closed)
    requires a.ManagerStop? ==> !dropped && (stopped || !closed)
    ensures LogEnds(log + [a], shut || a.Shutdown?, dropped || a.ManagerStop?, closed || a.CloseSocket?, stopped)
    ensures LogEnds(log, shut, dropped, closed, true)
  {
  }

  /** Actions that neither shut the socket down nor tell the manager. */
  lemma {:induction false} LogAppends(
    log: seq<Action>, more: seq<Action>, shut: bool, dropped: bool, closed: bool, stopped: bool)
    requires LogEnds(log, shut, dropped, closed, stopped)
    requires forall i | 0 <= i < |more| :: !more[i].Shutdown? && !more[i].ManagerStop?
    ensures LogEnds(log + more, shut, dropped, closed || CloseSocket in more, stopped)
    decreases |more|
  {
    hide LogEnds;
    if more == [] {
      assert log + more == log;
    } else {
      var a, rest := more[0], more[1..];
      LogAppend(log, a, shut, dropped, closed, stopped);
      assert log + [a] + rest == log + more && more == [a] + rest;
      LogAppends(log + [a], rest, shut, dropped, closed || a.CloseSocket?, stopped);
    }
  }

  /** What one event adds to the log: a shutdown, a word to the manager, and other actions. */
  lemma EventLogs(c: Conn, e: Event) returns (more: seq<Action>)
    requires Ready(c) && Enabled(c, e)
    ensures After(c, e).log ==
            c.log + (if e == WriteDone(Success) then [Shutdown] else []) +
            (if Drops(e) then [ManagerStop] else []) + more
    ensures CloseSocket in more <==> Closes(e)
    ensures forall i | 0 <= i < |more| :: !more[i].Shutdown? && !more[i].ManagerStop?
  {
    hide Run;
    more := match e
      case ReadDone(Success, data) => After(c, e).log[|c.log|..]
      case ReadDone(OperationAborted, _) => []
      case ReadDone(OtherError, _) => [CloseSocket]
      case WriteDone(OperationAborted) => [CloseSocket]
      case WriteDone(_) => [CloseSocket, CloseSocket]
      case Stop => [CloseSocket];
    assert c.log + [] == c.log;
  }

  lemma EndStep(c: Conn, events: seq<Event>, e: Event)
    requires Ready(c) && Enabled(c, e) && EndedBy(c, events)
    ensures EndedBy(After(c, e), events + [e])
  {
    OneMore(events, e);
    var more := EventLogs(c, e);
    Outstanding(c, e);
    hide After, Run, SomeDrops, SomeCloses, SomeFinishes, LogEnds;
    var shut, dropped, closed := WriteDone(Success) in events, SomeDrops(events), SomeCloses(events);
    var log, stopped := c.log, Stop in events + [e];
    LogAppend(log, StartRead, shut, dropped, closed, Stop in events);
    if e == WriteDone(Success) {
      LogAppend(log, Shutdown, shut, dropped, closed, stopped);
      log, shut := log + [Shutdown], true;
    }
    assert log + [] == log && c.log + [] == c.log;
    if Drops(e) {
      LogAppend(log, ManagerStop, shut, dropped, closed, stopped);
      log, dropped := log + [ManagerStop], true;
    }
    LogAppends(log, more, shut, dropped, closed, stopped);
  }

  lemma Outstanding(c: Conn, e: Event)
    requires Ready(c) && Enabled(c, e)
    ensures After(c, e).pending.Nothing? <==> c.pending.Nothing? || Finishes(e)
    ensures !c.pending.Nothing? || e == Stop
  {
    hide Run;
  }

  // ---------------------------------------------------------------- chunk independence

  /** A parse that has decided is not changed by more input. */
  lemma DecidedStays(prefix: string, stream: string)
    requires prefix <= stream && |stream| <= MAX_REQUEST_SIZE && !VerdictOn(prefix).Undecided?
    ensures VerdictOn(stream) == VerdictOn(prefix)
  {
    var rest := stream[|prefix|..];
    RunConcat(MethodStart, EMPTY_REQUEST, prefix, rest);
    assert prefix + rest == stream;
    hide Run;
  }

  /** Two runs fed from one stream within the size limit never reach different verdicts, however it is cut. */
  lemma ChunkIndependence(a: seq<Event>, b: seq<Event>, stream: string)
    requires Possible(a) && Possible(b) && |stream| <= MAX_REQUEST_SIZE
    requires Received(a) <= stream && Received(b) <= stream
    ensures forall r, s | HandleRequest(r) in AfterAll(a).log && HandleRequest(s) in AfterAll(b).log :: r == s
    ensures !((exists r :: HandleRequest(r) in AfterAll(a).log) && StartWrite(StockBadRequest) in AfterAll(b).log)
    ensures forall r | HandleRequest(r) in AfterAll(a).log :: VerdictOn(stream) == Accept(r)
    ensures StartWrite(StockBadRequest) in AfterAll(a).log ==> VerdictOn(stream) == Reject
  {
    SingleReply(a);
    SingleReply(b);
    if !VerdictOn(Received(a)).Undecided? {
      DecidedStays(Received(a), stream);
    }
    if !VerdictOn(Received(b)).Undecided? {
      DecidedStays(Received(b), stream);
    }
    hide Run, AfterAll, Received, Possible;
  }

  /** Of two runs fed from one stream, one that has received a good request within the limit handles it; one
      that has received more than the limit rejects it. */
  lemma PastTheLimit(a: seq<Event>, b: seq<Event>, extra: string)
    requires Possible(a) && Possible(b) && Received(b) == Received(a) + extra
    requires Run(MethodStart, EMPTY_REQUEST, Received(a)).result.Good?
    requires |Received(a)| <= MAX_REQUEST_SIZE < |Received(b)|
    ensures HandleRequest(Run(MethodStart, EMPTY_REQUEST, Received(a)).req) in AfterAll(a).log
    ensures StartWrite(StockBadRequest) in AfterAll(b).log && forall r :: HandleRequest(r) !in AfterAll(b).log
    ensures Run(MethodStart, EMPTY_REQUEST, Received(b)) == Run(MethodStart, EMPTY_REQUEST, Received(a))
  {
    SingleReply(a);
    SingleReply(b);
    RunConcat(MethodStart, EMPTY_REQUEST, Received(a), extra);
    hide Run, AfterAll, Received, Possible;
  }

  // ---------------------------------------------------------------- the class

  class Connection {
    const buffer: array<char>
    const request: Request
    const requestParser: RequestParser
    var receivedCount: nat
    var reply: Reply
    var pending: Pending
    ghost var log: seq<Action>

    ghost predicate Valid()
      reads this, request, requestParser
    {
      buffer.Length == BUFFER_SIZE && HeadersReady(requestParser.state, request.Data())
    }

    /** The connection as a value. */
    ghost function Contents(): (c: Conn)
      requires Valid()
      reads this, request, requestParser
      ensures Ready(c)
    {
      Conn(receivedCount, requestParser.state, request.Data(), reply, pending, log)
    }

    /** Constructs the connection and starts it. */
    constructor ()
      ensures Valid() && fresh(request) && fresh(requestParser) && fresh(buffer)
      ensures Contents() == STARTED
    {
      buffer := new char[BUFFER_SIZE];
      request := new Request();
      requestParser := new RequestParser();
      receivedCount := 0;
      reply := NoReply;
      pending := Nothing;
      log := [];
      new;
      DoRead();
    }

    method DoRead()
      modifies this`pending, this`log
      ensures pending == Read && log == old(log) + [StartRead]
    {
      pending := Read;
      log := log + [StartRead];
    }

    method DoWrite()
      modifies this`pending, this`log
      ensures pending == Write && log == old(log) + [StartWrite(reply)]
    {
      pending := Write;
      log := log + [StartWrite(reply)];
    }

    method HandleRequest()
      modifies this`reply, this`log
      ensures reply == ReplyTo(request.Data()) && log == old(log) + [Action.HandleRequest(request.Data())]
    {
      reply := ReplyTo(request.Data());
      log := log + [Action.HandleRequest(request.Data())];
    }

    /** connection::stop, called by the manager. */
    method Stop()
      requires Valid()
      modifies this`log
      ensures Valid() && Contents() == After(old(Contents()), Event.Stop)
    {
      log := log + [CloseSocket];
    }

    /** The read completion handler. */
    method OnRead(ec: ErrorCode, bytesTransferred: nat)
      requires Valid() && pending.Read? && bytesTransferred <= buffer.Length
      modifies this, request, requestParser
      ensures Valid()
      ensures Contents() == After(old(Contents()), ReadDone(ec, buffer[..bytesTransferred]))
    {
      hide HeadersReady, Run;
      pending := Nothing;
      if ec.Success? {
        assert buffer[0..bytesTransferred] == buffer[..bytesTransferred];
        var result, _ := requestParser.Parse(request, buffer, 0, bytesTransferred);
        receivedCount := receivedCount + bytesTransferred;
        if result == Bad || receivedCount > MAX_REQUEST_SIZE {
          reply := StockBadRequest;
          DoWrite();
        } else if result == Good {
          HandleRequest();
          DoWrite();
        } else {
          DoRead();
        }
      } else if !ec.OperationAborted? {
        log := log + [ManagerStop, CloseSocket];
      }
    }

    /** The write completion handler. */
    method OnWrite(ec: ErrorCode)
      requires Valid() && pending.Write?
      modifies this
      ensures Valid()
      ensures Contents() == After(old(Contents()), WriteDone(ec))
    {
      pending := Nothing;
      ghost var before := log;
      if ec.Success? {
        log := log + [Shutdown];
      }
      if !ec.OperationAborted? {
        log := log + [ManagerStop, CloseSocket];
      }
      log := log + [CloseSocket];
      assert log == before + (if ec.Success? then [Shutdown, ManagerStop, CloseSocket, CloseSocket]
                              else if ec.OperationAborted? then [CloseSocket]
                              else [ManagerStop, CloseSocket, CloseSocket]);
    }
  }
}
