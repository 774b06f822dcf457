/**
 * The life of connections as a step system: operations complete in any order, and the handlers of
 * completed operations run one at a time. `C` is the type of connection identities.
 */
module Lifecycle {
  import opened Text
  import opened Decimal
  import opened RequestParser
  import opened Reply

  // ---------------------------------------------------------------------------------------------
  // Operations, connections and the server
  // ---------------------------------------------------------------------------------------------

  /** How an asynchronous operation ends: with data, cancelled by a close, or with another error. */
  datatype Result = Success(data: string) | Aborted | Failed

  /** An operation is waiting, or it has ended and its handler has yet to run. */
  datatype Progress = Waiting | Ready(result: Result)

  /** What was started; a write refers to the reply as it was when the write was started. */
  datatype Kind = Reading | Writing(reply: ReplyData)

  datatype Operation = Operation(kind: Kind, progress: Progress)

  /**
   * A connection. The last four fields are not stored by the program: the parser as it was at first,
   * everything that it has been fed, the calls of the request handler, and the replies whose
   * writing was started.
   */
  datatype Conn = Conn(
    open: bool,
    parser: Config,
    reply: ReplyData,
    outstanding: seq<Operation>,
    start: Config,
    received: string,
    calls: nat,
    sent: seq<ReplyData>)

  datatype World<C> = World(
    acceptorOpen: bool,
    accepts: seq<Progress>,
    newConnection: C,
    live: set<C>,
    conns: map<C, Conn>,
    stopped: bool,
    crashed: bool)

  /** A connection that has just been created. */
  predicate IsNew(c: Conn) {
    && !c.open && IsStart(c.parser) && c.reply.headers == [] && c.reply.content == ""
    && c.outstanding == [] && c.start == c.parser && c.received == "" && c.calls == 0 && c.sent == []
  }

  // ---------------------------------------------------------------------------------------------
  // The socket
  // ---------------------------------------------------------------------------------------------

  function AbortWaiting(p: Progress): Progress {
    if p.Waiting? then Ready(Aborted) else p
  }

  /**
   * An operation when its socket is closed. A write takes several steps, and one that is between two
   * of them is not aborted: its next step fails on the closed socket.
   */
  function Interrupted(op: Operation, between: bool): Operation {
    op.(progress := if op.progress.Waiting? && op.kind.Writing? && between then Ready(Failed)
                    else AbortWaiting(op.progress))
  }

  /** `socket_.close()`: what is still waiting is ended, what has ended keeps its result. */
  function Close(c: Conn, between: bool): Conn {
    c.(open := false,
       outstanding := seq(|c.outstanding|, i requires 0 <= i < |c.outstanding| =>
                            Interrupted(c.outstanding[i], between)))
  }

  /** Starting an operation: on a closed socket it fails at once. */
  function Begin(c: Conn, kind: Kind): Conn {
    c.(outstanding := c.outstanding + [Operation(kind, if c.open then Waiting else Ready(Failed))])
  }

  /** Starting to write the reply: the buffers refer to the reply itself. */
  function BeginWrite(c: Conn): Conn {
    Begin(c.(sent := c.sent + [c.reply]), Writing(c.reply))
  }

  function Remove<T>(s: seq<T>, i: nat): seq<T>
    requires i < |s|
  {
    s[..i] + s[i + 1..]
  }

  // ---------------------------------------------------------------------------------------------
  // The handlers
  // ---------------------------------------------------------------------------------------------

  /** `connection_manager::stop`. */
  function StopOne<C>(w: World<C>, c: C): World<C>
    requires c in w.conns
  {
    w.(live := w.live - {c}, conns := w.conns[c := Close(w.conns[c], false)])
  }

  /** `server::start_accept`, with the identity of the connection that it creates. */
  function StartAccept<C>(w: World<C>, fresh_: C, created: Conn): World<C> {
    w.(newConnection := fresh_, conns := w.conns[fresh_ := created],
       accepts := w.accepts + [if w.acceptorOpen then Waiting else Ready(Failed)])
  }

  /** `connection_manager::start`. */
  function StartOne<C>(w: World<C>, c: C): World<C>
    requires c in w.conns
  {
    w.(live := w.live + {c}, conns := w.conns[c := Begin(w.conns[c], Reading)])
  }

  /** `server::handle_accept` for the accept operation at position i. */
  function HandleAccept<C>(w: World<C>, i: nat, fresh_: C, created: Conn): World<C>
    requires i < |w.accepts| && w.accepts[i].Ready? && w.newConnection in w.conns
  {
    var v := w.(accepts := Remove(w.accepts, i));
    if !v.acceptorOpen then v
    else StartAccept(if w.accepts[i].result.Success? then StartOne(v, v.newConnection) else v, fresh_, created)
  }

  /** `server::handle_stop`; `between` are the connections whose write is between two of its steps. */
  function HandleStop<C>(w: World<C>, between: set<C>): World<C> {
    w.(acceptorOpen := false,
       accepts := seq(|w.accepts|, i requires 0 <= i < |w.accepts| => AbortWaiting(w.accepts[i])),
       conns := map c | c in w.conns :: if c in w.live then Close(w.conns[c], c in between) else w.conns[c],
       live := {},
       stopped := true)
  }

  /** The part of `connection::handle_read` for data; the second result says that an exception left it. */
  function ReadData(c: Conn, data: string, answer: Answer): (Conn, bool)
    requires Safe(c.parser)
  {
    var report := Feed(c.parser, data);
    var fed := c.(parser := report.config, received := c.received + data);
    match report.verdict
    case NeedMore => (Begin(fed, Reading), false)
    case Rejected => (BeginWrite(fed.(reply := StockReply(BadRequest))), false)
    case Thrown => (fed, true)
    case Accepted =>
      var called := fed.(calls := fed.calls + 1, reply := Answered(fed.reply, answer));
      if answer.Threw? then (called, true) else (BeginWrite(called), false)
  }

  /** `connection::handle_read` for the operation at position i of connection c. */
  function HandleRead<C>(w: World<C>, c: C, i: nat, answer: Answer): World<C>
    requires c in w.conns && i < |w.conns[c].outstanding|
    requires w.conns[c].outstanding[i].progress.Ready? && Safe(w.conns[c].parser)
  {
    var result := w.conns[c].outstanding[i].progress.result;
    var conn := w.conns[c].(outstanding := Remove(w.conns[c].outstanding, i));
    var v := w.(conns := w.conns[c := conn]);
    match result
    case Success(data) =>
      var (next, thrown) := ReadData(conn, data, answer);
      v.(conns := v.conns[c := next], crashed := thrown)
    case Failed => StopOne(v, c)
    case Aborted => v
  }

  /** `connection::handle_write` for the operation at position i of connection c. */
  function HandleWrite<C>(w: World<C>, c: C, i: nat): World<C>
    requires c in w.conns && i < |w.conns[c].outstanding| && w.conns[c].outstanding[i].progress.Ready?
  {
    var result := w.conns[c].outstanding[i].progress.result;
    var conn := w.conns[c].(outstanding := Remove(w.conns[c].outstanding, i));
    var v := w.(conns := w.conns[c := conn]);
    if result.Aborted? then v else StopOne(v, c)
  }

  // ---------------------------------------------------------------------------------------------
  // Events and runs
  // ---------------------------------------------------------------------------------------------

  /** The capacity of a connection's buffer. */
  const BUFFER_SIZE := 1048576

  datatype Event<C> =
    | AcceptEnds(i: nat, result: Result)
    | AcceptRuns(i: nat, fresh_: C, created: Conn)
    | OperationEnds(c: C, i: nat, result: Result)
    | ReadRuns(c: C, i: nat, answer: Answer)
    | WriteRuns(c: C, i: nat)
    | StopRuns(between: set<C>)

  predicate HasOperation<C>(w: World<C>, c: C, i: nat) {
    c in w.conns && i < |w.conns[c].outstanding|
  }

  predicate Enabled<C>(w: World<C>, e: Event<C>) {
    && !w.crashed
    && match e
       case AcceptEnds(i, result) =>
         w.acceptorOpen && i < |w.accepts| && w.accepts[i].Waiting? && !result.Aborted? && w.newConnection in w.conns
       case AcceptRuns(i, fresh_, created) =>
         && i < |w.accepts| && w.accepts[i].Ready? && w.newConnection in w.conns
         && (w.acceptorOpen ==> fresh_ !in w.conns && IsNew(created))
       case OperationEnds(c, i, result) =>
         && HasOperation(w, c, i) && w.conns[c].open && w.conns[c].outstanding[i].progress.Waiting?
         && !result.Aborted?
         && (w.conns[c].outstanding[i].kind.Reading? && result.Success? ==> 1 <= |result.data| <= BUFFER_SIZE)
       case ReadRuns(c, i, answer) =>
         && HasOperation(w, c, i) && w.conns[c].outstanding[i].kind.Reading?
         && w.conns[c].outstanding[i].progress.Ready? && Safe(w.conns[c].parser)
       case WriteRuns(c, i) =>
         && HasOperation(w, c, i) && w.conns[c].outstanding[i].kind.Writing?
         && w.conns[c].outstanding[i].progress.Ready?
       case StopRuns(_) => !w.stopped
  }

  /** A waiting read can end with any number of bytes that the buffer has room for, and with no others. */
  lemma ReadSizes<C>(w: World<C>, c: C, i: nat, data: string)
    requires !w.crashed && HasOperation(w, c, i) && w.conns[c].open
    requires w.conns[c].outstanding[i] == Operation(Reading, Waiting)
    ensures Enabled(w, OperationEnds(c, i, Success(data))) <==> 1 <= |data| <= 1048576
  {
  }

  function Next<C>(w: World<C>, e: Event<C>): World<C>
    requires Enabled(w, e)
  {
    match e
    case AcceptEnds(i, result) =>
      var v := w.(accepts := w.accepts[i := Ready(result)]);
      if result.Success? then v.(conns := v.conns[v.newConnection := v.conns[v.newConnection].(open := true)]) else v
    case AcceptRuns(i, fresh_, created) => HandleAccept(w, i, fresh_, created)
    case OperationEnds(c, i, result) =>
      var op := w.conns[c].outstanding[i].(progress := Ready(result));
      w.(conns := w.conns[c := w.conns[c].(outstanding := w.conns[c].outstanding[i := op])])
    case ReadRuns(c, i, answer) => HandleRead(w, c, i, answer)
    case WriteRuns(c, i) => HandleWrite(w, c, i)
    case StopRuns(between) => HandleStop(w, between)
  }

  /** The server after its constructor: one connection waits to be accepted. */
  predicate IsInitial<C>(w: World<C>) {
    && w.acceptorOpen && w.accepts == [Waiting] && w.live == {} && !w.stopped && !w.crashed
    && w.conns.Keys == {w.newConnection} && IsNew(w.conns[w.newConnection])
  }

  predicate IsRun<C>(w: World<C>, events: seq<Event<C>>)
    decreases |events|
  {
    events != [] ==> Enabled(w, events[0]) && IsRun(Next(w, events[0]), events[1..])
  }

  function After<C>(w: World<C>, events: seq<Event<C>>): World<C>
    requires IsRun(w, events)
    decreases |events|
  {
    if events == [] then w else After(Next(w, events[0]), events[1..])
  }

  // ---------------------------------------------------------------------------------------------
  // Invariants
  // ---------------------------------------------------------------------------------------------

  /** A reply that the server may send: it states the length of its content. */
  predicate IsReply(r: ReplyData) {
    r == StockReply(BadRequest) || r == WithLength(Ok, r.content, "application/json")
  }

  /** At most one operation: a read until the parser has its verdict, the write of the reply after it. */
  predicate OutstandingOk(c: Conn, verdict: Verdict) {
    && |c.outstanding| <= 1
    && (c.outstanding != [] ==>
         && (c.outstanding[0].progress.Waiting? ==> c.open)
         && c.outstanding[0].kind == (if verdict == NeedMore then Reading else Writing(c.reply))
         && (verdict != NeedMore ==> c.sent == [c.reply]))
  }

  /** One request and one reply: nothing is sent or handled before the verdict, and only once after it. */
  predicate ReplyOk(c: Conn, verdict: Verdict) {
    && c.calls == (if verdict == Accepted then 1 else 0)
    && (c.sent != [] ==> c.sent == [c.reply] && IsReply(c.reply))
    && match verdict
       case NeedMore => c.sent == [] && c.reply.headers == [] && c.reply.content == ""
       case Rejected => c.sent == [StockReply(BadRequest)]
       case Thrown => c.sent == []
       case Accepted => true
  }

  /** What holds of every connection; the parser is where everything received so far has led it. */
  predicate ConnOk(c: Conn) {
    && IsStart(c.start)
    && c.parser == Feed(c.start, c.received).config
    && OutstandingOk(c, Feed(c.start, c.received).verdict)
    && ReplyOk(c, Feed(c.start, c.received).verdict)
  }

  /** Before the stop: live connections are those with one operation, and nothing has been aborted. */
  predicate RunningOk<C>(w: World<C>) {
    && w.acceptorOpen && |w.accepts| == 1 && w.accepts[0] != Ready(Aborted)
    && w.newConnection in w.conns && IsNew(w.conns[w.newConnection].(open := false))
    && w.conns[w.newConnection].open == (w.accepts[0].Ready? && w.accepts[0].result.Success?)
    && w.live <= w.conns.Keys
    && forall c :: c in w.conns ==>
         && (c in w.live <==> w.conns[c].outstanding != [])
         && (c in w.live ==> w.conns[c].open && w.conns[c].outstanding[0].progress != Ready(Aborted))
  }

  /** After the stop: nothing is live, and every operation left has ended. */
  predicate StoppedOk<C>(w: World<C>) {
    && !w.acceptorOpen && w.live == {} && |w.accepts| <= 1 && w.newConnection in w.conns
    && (w.accepts != [] ==> w.accepts[0].Ready?)
    && forall c :: c in w.conns && w.conns[c].outstanding != [] ==>
         !w.conns[c].open && w.conns[c].outstanding[0].progress.Ready?
  }

  predicate WorldOk<C>(w: World<C>) {
    && (forall c :: c in w.conns ==> ConnOk(w.conns[c]))
    && (!w.crashed ==> if w.stopped then StoppedOk(w) else RunningOk(w))
  }

  // ---------------------------------------------------------------------------------------------
  // Every step keeps the invariants: one connection
  // ---------------------------------------------------------------------------------------------

  lemma NewOk(c: Conn)
    requires IsNew(c.(open := false))
    ensures ConnOk(c)
  {
  }

  lemma CloseOk(c: Conn, between: bool)
    requires ConnOk(c)
    ensures var closed := Close(c, between);
      && ConnOk(closed) && !closed.open && |closed.outstanding| == |c.outstanding|
      && (c.outstanding != [] ==> closed.outstanding[0] == Interrupted(c.outstanding[0], between))
  {
    hide Feed;
  }

  lemma EndOk(c: Conn, i: nat, result: Result)
    requires ConnOk(c) && i < |c.outstanding|
    ensures ConnOk(c.(outstanding := c.outstanding[i := c.outstanding[i].(progress := Ready(result))]))
  {
    hide Feed, StockReply;
  }

  /** A connection without an outstanding operation may start to read if it has no verdict yet. */
  lemma BeginReadOk(c: Conn)
    requires ConnOk(c) && c.outstanding == [] && Feed(c.start, c.received).verdict == NeedMore
    ensures ConnOk(Begin(c, Reading))
  {
    hide Feed;
  }

  lemma ReadDataOk(c: Conn, data: string, answer: Answer)
    requires ConnOk(c) && c.outstanding == [] && Feed(c.start, c.received).verdict == NeedMore
    ensures var (next, crashed) := ReadData(c, data, answer);
      && ConnOk(next) && next.open == c.open
      && (crashed ==> next.outstanding == [])
      && (!crashed ==>
            |next.outstanding| == 1 && next.outstanding[0].progress == (if c.open then Waiting else Ready(Failed)))
  {
    hide Feed, StockReply;
    FeedConcat(c.start, c.received, data);
  }

  // ---------------------------------------------------------------------------------------------
  // Every step keeps the invariants: the world
  // ---------------------------------------------------------------------------------------------

  lemma InitialOk<C>(w: World<C>)
    requires IsInitial(w)
    ensures WorldOk(w)
  {
    NewOk(w.conns[w.newConnection]);
  }

  lemma AcceptEndsOk<C>(w: World<C>, i: nat, result: Result)
    requires WorldOk(w) && Enabled(w, AcceptEnds(i, result))
    ensures WorldOk(Next(w, AcceptEnds(i, result)))
  {
    hide ConnOk;
    NewOk(w.conns[w.newConnection].(open := true));
  }

  /** A running server while no accept is outstanding. */
  predicate BetweenAccepts<C>(w: World<C>) {
    && w.acceptorOpen && !w.stopped && !w.crashed && w.accepts == [] && w.live <= w.conns.Keys
    && forall c :: c in w.conns ==>
         && ConnOk(w.conns[c])
         && (c in w.live <==> w.conns[c].outstanding != [])
         && (c in w.live ==> w.conns[c].open && w.conns[c].outstanding[0].progress != Ready(Aborted))
  }

  lemma StartOneOk<C>(w: World<C>, c: C)
    requires BetweenAccepts(w) && c in w.conns && w.conns[c].open
    requires IsNew(w.conns[c].(open := false))
    ensures BetweenAccepts(StartOne(w, c))
  {
    hide ConnOk;
    BeginReadOk(w.conns[c]);
    var n := Begin(w.conns[c], Reading);
    assert n.outstanding == [Operation(Reading, Waiting)];
  }

  lemma StartAcceptOk<C>(w: World<C>, fresh_: C, created: Conn)
    requires BetweenAccepts(w) && fresh_ !in w.conns && IsNew(created)
    ensures WorldOk(StartAccept(w, fresh_, created))
  {
    hide ConnOk;
    NewOk(created);
  }

  lemma AcceptRunsOk<C>(w: World<C>, i: nat, fresh_: C, created: Conn)
    requires WorldOk(w) && Enabled(w, AcceptRuns(i, fresh_, created))
    ensures WorldOk(Next(w, AcceptRuns(i, fresh_, created)))
  {
    hide ConnOk, StartAccept, StartOne;
    if w.acceptorOpen {
      var v := w.(accepts := Remove(w.accepts, i));
      assert BetweenAccepts(v);
      if w.accepts[i].result.Success? {
        StartOneOk(v, v.newConnection);
        StartStays(v, v.newConnection, fresh_);
        StartAcceptOk(StartOne(v, v.newConnection), fresh_, created);
      } else {
        StartAcceptOk(v, fresh_, created);
      }
    }
  }

  lemma StartStays<C>(w: World<C>, c: C, other: C)
    requires c in w.conns
    ensures other in StartOne(w, c).conns <==> other in w.conns
  {
  }

  lemma OperationEndsOk<C>(w: World<C>, c: C, i: nat, result: Result)
    requires WorldOk(w) && Enabled(w, OperationEnds(c, i, result))
    ensures WorldOk(Next(w, OperationEnds(c, i, result)))
  {
    hide ConnOk, IsNew;
    EndOk(w.conns[c], i, result);
    RemoveOk(w.conns[c], i);
    if !w.stopped {
      NewIsIdle(w);
    }
  }

  /** The operation of a connection that has one, and the connection without it. */
  lemma RemoveOk(c: Conn, i: nat)
    requires ConnOk(c) && i < |c.outstanding|
    ensures i == 0 && Remove(c.outstanding, i) == [] && ConnOk(c.(outstanding := []))
    ensures c.outstanding[0].kind.Reading? <==> Feed(c.start, c.received).verdict == NeedMore
  {
    hide Feed;
  }

  lemma NewIsIdle<C>(w: World<C>)
    requires RunningOk(w)
    ensures w.conns[w.newConnection].outstanding == []
  {
  }

  /** The world after the handler of connection c has made n of it, and perhaps stopped it. */
  function Settle<C>(w: World<C>, c: C, n: Conn, stop: bool): World<C> {
    w.(conns := w.conns[c := n], live := if stop then w.live - {c} else w.live)
  }

  lemma SettleOk<C>(w: World<C>, c: C, n: Conn, stop: bool)
    requires WorldOk(w) && !w.crashed && c in w.conns && w.conns[c].outstanding != [] && ConnOk(n)
    requires if stop then n.outstanding == []
             else if w.stopped then n.outstanding != [] ==> !n.open && n.outstanding[0].progress.Ready?
             else n.open && n.outstanding != [] && n.outstanding[0].progress != Ready(Aborted)
    ensures WorldOk(Settle(w, c, n, stop))
  {
    hide ConnOk, IsNew;
    if !w.stopped {
      NewIsIdle(w);
    }
  }

  lemma WriteRunsOk<C>(w: World<C>, c: C, i: nat)
    requires WorldOk(w) && Enabled(w, WriteRuns(c, i))
    ensures WorldOk(Next(w, WriteRuns(c, i)))
  {
    hide ConnOk, Feed, IsNew, Close;
    RemoveOk(w.conns[c], i);
    var result, conn := w.conns[c].outstanding[i].progress.result, w.conns[c].(outstanding := []);
    CloseOk(conn, false);
    var n := if result.Aborted? then conn else Close(conn, false);
    SettleOk(w, c, n, !result.Aborted?);
    assert w.conns[c := conn][c := Close(conn, false)] == w.conns[c := Close(conn, false)];
    assert Next(w, WriteRuns(c, i)) == Settle(w, c, n, !result.Aborted?);
  }

  lemma ReadRunsOk<C>(w: World<C>, c: C, i: nat, answer: Answer)
    requires WorldOk(w) && Enabled(w, ReadRuns(c, i, answer))
    ensures WorldOk(Next(w, ReadRuns(c, i, answer)))
  {
    hide ConnOk, Feed, ReadData, Close, IsNew, StockReply;
    RemoveOk(w.conns[c], i);
    var result, conn := w.conns[c].outstanding[i].progress.result, w.conns[c].(outstanding := []);
    match result
    case Success(data) =>
      ReadDataOk(conn, data, answer);
      var (n, thrown) := ReadData(conn, data, answer);
      assert w.conns[c := conn][c := n] == w.conns[c := n];
      if !thrown {
        SettleOk(w, c, n, false);
      }
      assert Next(w, ReadRuns(c, i, answer)) == Settle(w, c, n, false).(crashed := thrown);
    case Failed =>
      CloseOk(conn, false);
      SettleOk(w, c, Close(conn, false), true);
      assert w.conns[c := conn][c := Close(conn, false)] == w.conns[c := Close(conn, false)];
    case Aborted =>
      SettleOk(w, c, conn, false);
  }

  lemma StopRunsOk<C>(w: World<C>, between: set<C>)
    requires WorldOk(w) && Enabled(w, StopRuns(between))
    ensures WorldOk(Next(w, StopRuns(between)))
  {
    hide ConnOk, Close;
    forall c | c in w.conns
      ensures var closed := Close(w.conns[c], c in between);
        && ConnOk(closed) && !closed.open && |closed.outstanding| == |w.conns[c].outstanding|
        && (w.conns[c].outstanding != [] ==> closed.outstanding[0].progress.Ready?)
    {
      CloseOk(w.conns[c], c in between);
    }
  }

  lemma NextOk<C>(w: World<C>, e: Event<C>)
    requires WorldOk(w) && Enabled(w, e)
    ensures WorldOk(Next(w, e))
  {
    hide WorldOk, Next, Enabled;
    match e
    case AcceptEnds(i, result) => AcceptEndsOk(w, i, result);
    case AcceptRuns(i, fresh_, created) => AcceptRunsOk(w, i, fresh_, created);
    case OperationEnds(c, i, result) => OperationEndsOk(w, c, i, result);
    case ReadRuns(c, i, answer) => ReadRunsOk(w, c, i, answer);
    case WriteRuns(c, i) => WriteRunsOk(w, c, i);
    case StopRuns(between) => StopRunsOk(w, between);
  }

  lemma {:induction false} AfterOk<C>(w: World<C>, events: seq<Event<C>>)
    requires WorldOk(w) && IsRun(w, events)
    ensures WorldOk(After(w, events))
    decreases |events|
  {
    hide WorldOk, Enabled, Next;
    if events != [] {
      NextOk(w, events[0]);
      AfterOk(Next(w, events[0]), events[1..]);
    }
  }

  // ---------------------------------------------------------------------------------------------
  // What holds on every run
  // ---------------------------------------------------------------------------------------------

  /**
   * Until the server is stopped, the live connections are exactly those with one outstanding
   * operation, no connection has two, and exactly one accept is outstanding.
   */
  lemma LiveAreOutstanding<C>(w: World<C>, events: seq<Event<C>>)
    requires IsInitial(w) && IsRun(w, events)
    ensures var v := After(w, events);
      && (forall c :: c in v.conns ==> |v.conns[c].outstanding| <= 1)
      && (!v.stopped && !v.crashed ==>
            |v.accepts| == 1 && v.live == set c | c in v.conns && |v.conns[c].outstanding| == 1)
  {
    hide Feed, ReplyOk, IsStart, IsInitial, IsRun, After;
    InitialOk(w);
    AfterOk(w, events);
  }

  /**
   * On every run, the request handler is called once if the bytes received so far contain a whole
   * request, and else not at all; at most one reply is sent, and its length header is right.
   */
  lemma OneReply<C>(w: World<C>, events: seq<Event<C>>, c: C)
    requires IsInitial(w) && IsRun(w, events) && c in After(w, events).conns
    ensures var conn := After(w, events).conns[c];
      && IsStart(conn.start)
      && conn.calls == (if Feed(conn.start, conn.received).verdict == Accepted then 1 else 0)
      && |conn.sent| <= 1
      && (conn.sent != [] ==>
            Feed(conn.start, conn.received).verdict.Accepted? || conn.sent == [StockReply(BadRequest)])
      && (conn.sent != [] && |conn.sent[0].content| < WORD_LIMIT ==>
            var r := conn.sent[0];
            r.headers != [] && Stoul(r.headers[0].value) == Some(|r.content|) && ContentOf(Wire(r)) == Some(r.content))
  {
    hide Feed, IsInitial, IsRun, After, StockReply, Stoul, ContentOf, Wire;
    InitialOk(w);
    AfterOk(w, events);
    var conn := After(w, events).conns[c];
    if conn.sent != [] {
      ReplyIsFramed(conn.reply);
    }
  }

  lemma ReplyIsFramed(r: ReplyData)
    requires IsReply(r)
    ensures r.headers != []
    ensures |r.content| < WORD_LIMIT ==>
              Stoul(r.headers[0].value) == Some(|r.content|) && ContentOf(Wire(r)) == Some(r.content)
  {
    hide Stoul, ContentOf, Wire, StockContent;
    if |r.content| < WORD_LIMIT {
      ReplyFramed(r.status, r.content, r.headers[1].value, "");
    }
  }

  /** The parser is fed only as long as it has not reached a verdict. */
  lemma NotFedAfterVerdict<C>(w: World<C>, events: seq<Event<C>>, c: C, i: nat, answer: Answer)
    requires IsInitial(w) && IsRun(w, events) && Enabled(After(w, events), ReadRuns(c, i, answer))
    ensures var conn := After(w, events).conns[c];
      && IsStart(conn.start)
      && Feed(conn.start, conn.received).verdict == NeedMore
      && conn.parser == Feed(conn.start, conn.received).config
  {
    hide Feed, IsInitial, IsRun, After;
    InitialOk(w);
    AfterOk(w, events);
    RemoveOk(After(w, events).conns[c], i);
  }

  /** While a write is outstanding, no step changes the reply that it refers to. */
  lemma ReplyKept<C>(w: World<C>, events: seq<Event<C>>, e: Event<C>, c: C)
    requires IsInitial(w) && IsRun(w, events) && Enabled(After(w, events), e)
    requires HasOperation(After(w, events), c, 0) && After(w, events).conns[c].outstanding[0].kind.Writing?
    ensures var v := After(w, events);
      && v.conns[c].outstanding[0].kind.reply == v.conns[c].reply
      && c in Next(v, e).conns && Next(v, e).conns[c].reply == v.conns[c].reply
  {
    hide WorldOk, IsInitial, IsRun, After, Enabled, Next;
    InitialOk(w);
    AfterOk(w, events);
    ReplyKeptByStep(After(w, events), e, c);
  }

  lemma ReplyKeptByStep<C>(w: World<C>, e: Event<C>, c: C)
    requires WorldOk(w) && Enabled(w, e)
    requires HasOperation(w, c, 0) && w.conns[c].outstanding[0].kind.Writing?
    ensures w.conns[c].outstanding[0].kind.reply == w.conns[c].reply
    ensures c in Next(w, e).conns && Next(w, e).conns[c].reply == w.conns[c].reply
  {
    hide Feed, WorldOk, Next;
    WritingOk(w, e, c);
    TalkKept(w, e, c);
  }

  lemma WritingOk<C>(w: World<C>, e: Event<C>, c: C)
    requires WorldOk(w) && Enabled(w, e)
    requires HasOperation(w, c, 0) && w.conns[c].outstanding[0].kind.Writing?
    ensures w.conns[c].outstanding[0].kind.reply == w.conns[c].reply
    ensures !(e.ReadRuns? && e.c == c)
  {
    hide Feed, ReplyOk, IsStart, RunningOk, StoppedOk;
  }

  // ---------------------------------------------------------------------------------------------
  // Steps leave alone what other connections have received and sent
  // ---------------------------------------------------------------------------------------------

  /** Nothing that is received, parsed or sent has changed. */
  predicate SameTalk(c: Conn, d: Conn) {
    d.start == c.start && d.received == c.received && d.parser == c.parser && d.reply == c.reply && d.sent == c.sent
  }

  /** A read handler that runs with data. */
  predicate ReadsData<C>(w: World<C>, e: Event<C>) {
    && e.ReadRuns? && HasOperation(w, e.c, e.i) && Safe(w.conns[e.c].parser)
    && w.conns[e.c].outstanding[e.i].progress.Ready? && w.conns[e.c].outstanding[e.i].progress.result.Success?
  }

  lemma AcceptKeepsTalk<C>(w: World<C>, e: Event<C>, c: C)
    requires WorldOk(w) && Enabled(w, e) && c in w.conns && (e.AcceptEnds? || e.AcceptRuns?)
    ensures c in Next(w, e).conns && SameTalk(w.conns[c], Next(w, e).conns[c])
  {
    hide WorldOk, IsNew, Remove;
  }

  lemma EndKeepsTalk<C>(w: World<C>, e: Event<C>, c: C)
    requires WorldOk(w) && Enabled(w, e) && c in w.conns && (e.OperationEnds? || e.StopRuns?)
    ensures c in Next(w, e).conns && SameTalk(w.conns[c], Next(w, e).conns[c])
  {
    hide WorldOk, Interrupted;
  }

  lemma ReadKeepsTalk<C>(w: World<C>, e: Event<C>, c: C)
    requires WorldOk(w) && Enabled(w, e) && c in w.conns && e.ReadRuns?
    requires !(ReadsData(w, e) && e.c == c)
    ensures c in Next(w, e).conns && SameTalk(w.conns[c], Next(w, e).conns[c])
  {
    hide WorldOk, ReadData, Interrupted, Remove;
  }

  lemma WriteKeepsTalk<C>(w: World<C>, e: Event<C>, c: C)
    requires WorldOk(w) && Enabled(w, e) && c in w.conns && e.WriteRuns?
    ensures c in Next(w, e).conns && SameTalk(w.conns[c], Next(w, e).conns[c])
  {
    hide WorldOk, Interrupted, Remove;
  }

  lemma TalkKept<C>(w: World<C>, e: Event<C>, c: C)
    requires WorldOk(w) && Enabled(w, e) && c in w.conns && !(ReadsData(w, e) && e.c == c)
    ensures c in Next(w, e).conns && SameTalk(w.conns[c], Next(w, e).conns[c])
  {
    hide WorldOk, Enabled, Next, SameTalk, ReadsData;
    if e.AcceptEnds? || e.AcceptRuns? {
      AcceptKeepsTalk(w, e, c);
    } else if e.OperationEnds? || e.StopRuns? {
      EndKeepsTalk(w, e, c);
    } else if e.ReadRuns? {
      ReadKeepsTalk(w, e, c);
    } else {
      WriteKeepsTalk(w, e, c);
    }
  }

}
