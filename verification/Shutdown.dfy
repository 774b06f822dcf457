/** After the stop: what is outstanding drains, nothing new is started, and the loop comes to rest. */
module Shutdown {
  import opened RequestParser
  import opened Reply
  import opened Lifecycle

  /** Connections with an operation left. */
  function Busy<C>(w: World<C>): set<C> {
    set c | c in w.conns && w.conns[c].outstanding != []
  }

  /** Connections that have been read from successfully, but whose handler has not yet run. */
  function Full<C>(w: World<C>): set<C> {
    set c | c in w.conns && w.conns[c].outstanding != [] && IsFull(w.conns[c].outstanding[0])
  }

  predicate IsFull(op: Operation) {
    op.kind.Reading? && op.progress.Ready? && op.progress.result.Success?
  }

  /** How many handlers may still run. */
  function Work<C>(w: World<C>): nat {
    |w.accepts| + |Busy(w)| + |Full(w)|
  }

  /** How many handlers may still run for one connection. */
  function WorkOf<C>(w: World<C>, c: C): nat {
    (if c in Busy(w) then 1 else 0) + (if c in Full(w) then 1 else 0)
  }

  function HandlersOf<C(==)>(events: seq<Event<C>>, c: C): nat {
    if events == [] then 0
    else
      var e := events[0];
      (if (e.ReadRuns? || e.WriteRuns?) && e.c == c then 1 else 0) + HandlersOf(events[1..], c)
  }

  function AcceptHandlers<C>(events: seq<Event<C>>): nat {
    if events == [] then 0 else (if events[0].AcceptRuns? then 1 else 0) + AcceptHandlers(events[1..])
  }

  lemma SubsetSize<T>(a: set<T>, b: set<T>)
    requires a <= b
    ensures |a| <= |b|
  {
    assert b == a + (b - a);
  }

  /** The handler of an accept or of one connection runs; nothing else has work to add. */
  lemma AcceptDrains<C>(w: World<C>, e: Event<C>)
    requires WorldOk(w) && w.stopped && Enabled(w, e) && e.AcceptRuns?
    ensures var v := Next(w, e);
      && v.stopped && v.conns == w.conns && v.live == {}
      && |v.accepts| + 1 == |w.accepts| && Work(v) + 1 == Work(w)
  {
    hide ConnOk;
    assert Busy(Next(w, e)) == Busy(w) && Full(Next(w, e)) == Full(w);
  }

  /** After the handler of a connection, it has nothing left, or what was a full read has failed. */
  predicate Lessened(before: Conn, after: Conn) {
    && before.outstanding != []
    && (after.outstanding != [] ==> IsFull(before.outstanding[0]) && !IsFull(after.outstanding[0]))
  }

  lemma HandlerLessens<C>(w: World<C>, e: Event<C>)
    requires WorldOk(w) && w.stopped && Enabled(w, e) && (e.ReadRuns? || e.WriteRuns?)
    ensures var v := Next(w, e);
      && v.stopped && v.accepts == w.accepts && v.live == {}
      && e.c in w.conns && e.c in v.conns && v.conns == w.conns[e.c := v.conns[e.c]]
      && Lessened(w.conns[e.c], v.conns[e.c])
  {
    hide ConnOk, Feed, ReadData;
    var conn := w.conns[e.c];
    RemoveOk(conn, e.i);
    if e.ReadRuns? && conn.outstanding[0].progress.result.Success? {
      ReadDataOk(conn.(outstanding := []), conn.outstanding[0].progress.result.data, e.answer);
    }
  }

  lemma LessenedSets<C>(w: World<C>, v: World<C>, c: C)
    requires c in w.conns && c in v.conns && v.conns == w.conns[c := v.conns[c]] && Lessened(w.conns[c], v.conns[c])
    ensures c in Busy(w) && Busy(v) <= Busy(w) && Full(v) == Full(w) - {c}
    ensures Busy(v) == (if c in Busy(v) then Busy(w) else Busy(w) - {c})
    ensures c in Busy(v) ==> c in Full(w)
  {
    hide IsFull;
  }

  lemma HandlerDrains<C>(w: World<C>, e: Event<C>)
    requires WorldOk(w) && w.stopped && Enabled(w, e) && (e.ReadRuns? || e.WriteRuns?)
    ensures var v := Next(w, e);
      && v.stopped && v.accepts == w.accepts && v.conns.Keys == w.conns.Keys && v.live == {}
      && Busy(v) <= Busy(w) && Full(v) <= Full(w) && e.c in Busy(w)
      && Full(v) == Full(w) - {e.c}
      && Busy(v) == (if e.c in Busy(v) then Busy(w) else Busy(w) - {e.c})
      && (e.c in Busy(v) ==> e.c in Full(w))
  {
    hide WorldOk, Enabled, Next, Lessened, Busy, Full;
    HandlerLessens(w, e);
    LessenedSets(w, Next(w, e), e.c);
  }

  /** After the stop only handlers run, and each of them leaves less work than there was. */
  lemma StepDrains<C>(w: World<C>, e: Event<C>, c: C)
    requires WorldOk(w) && w.stopped && Enabled(w, e)
    ensures var v := Next(w, e);
      && v.stopped && v.conns.Keys == w.conns.Keys && v.live == {}
      && Work(v) + 1 <= Work(w) && Busy(v) <= Busy(w)
      && HandlersOf([e], c) + WorkOf(v, c) <= WorkOf(w, c)
      && AcceptHandlers([e]) + |v.accepts| == |w.accepts|
  {
    hide ConnOk, Next, Busy, Full;
    if e.AcceptRuns? {
      AcceptDrains(w, e);
      assert Busy(Next(w, e)) == Busy(w) && Full(Next(w, e)) == Full(w) by {
        SameWork(w, Next(w, e));
      }
    } else {
      HandlerDrains(w, e);
      SubsetSize(Full(Next(w, e)), Full(w));
    }
  }

  lemma SameWork<C>(w: World<C>, v: World<C>)
    requires v.conns == w.conns
    ensures Busy(v) == Busy(w) && Full(v) == Full(w)
  {
  }

  /** After the stop every run is bounded by the work that is left. */
  lemma {:induction false} RunDrains<C>(w: World<C>, events: seq<Event<C>>, c: C)
    requires WorldOk(w) && w.stopped && IsRun(w, events)
    requires w.live == {} || events != []
    ensures var v := After(w, events);
      && WorldOk(v) && v.stopped && v.conns.Keys == w.conns.Keys && v.live == {}
      && |events| + Work(v) <= Work(w) && Busy(v) <= Busy(w)
      && HandlersOf(events, c) + WorkOf(v, c) <= WorkOf(w, c)
      && AcceptHandlers(events) + |v.accepts| == |w.accepts|
    decreases |events|
  {
    hide WorldOk, Enabled, Next, Work, WorkOf;
    if events != [] {
      var e := events[0];
      StepDrains(w, e, c);
      NextOk(w, e);
      RunDrains(Next(w, e), events[1..], c);
      assert [e][0] == e && [e][1..] == [];
    }
  }

  /** As long as there is work and no exception has ended the loop, some handler can run. */
  lemma WorkEnables<C>(w: World<C>)
    requires WorldOk(w) && w.stopped && !w.crashed
    ensures (exists e :: Enabled(w, e)) <==> Work(w) > 0
  {
    hide WorldOk, Enabled;
    if w.accepts != [] {
      AcceptCanRun(w);
    } else if c :| c in Busy(w) {
      HandlerCanRun(w, c);
    } else {
      NothingCanRun(w);
      FullAreBusy(w);
    }
  }

  lemma AcceptCanRun<C>(w: World<C>)
    requires WorldOk(w) && w.stopped && !w.crashed && w.accepts != []
    ensures w.newConnection in w.conns && Enabled(w, AcceptRuns(0, w.newConnection, w.conns[w.newConnection]))
  {
    hide ConnOk;
  }

  lemma HandlerCanRun<C>(w: World<C>, c: C)
    requires WorldOk(w) && w.stopped && !w.crashed && c in Busy(w)
    ensures Enabled(w, ReadRuns(c, 0, Refused)) || Enabled(w, WriteRuns(c, 0))
  {
    hide ReplyOk, OutstandingOk;
  }

  lemma NothingCanRun<C>(w: World<C>)
    requires WorldOk(w) && w.stopped && w.accepts == [] && Busy(w) == {}
    ensures forall e :: !Enabled(w, e)
  {
    hide ConnOk;
    assert forall c :: c in w.conns ==> c !in Busy(w);
  }

  lemma WorkAtStop<C>(w: World<C>, between: set<C>, c: C)
    requires WorldOk(w) && Enabled(w, StopRuns(between))
    ensures var v := Next(w, StopRuns(between));
      && v.stopped && v.live == {} && v.conns.Keys == w.conns.Keys
      && Work(v) <= 1 + 2 * |w.live| && |v.accepts| == 1 && Busy(v) == w.live
      && WorkOf(v, c) <= (if c in w.live then 2 else 0)
  {
    hide ConnOk;
    var v := Next(w, StopRuns(between));
    assert Busy(v) == w.live;
    SubsetSize(Full(v), Busy(v));
  }

  /**
   * Shutdown ends. Whatever happened before the stop and in whatever order handlers run after it,
   * no connection is live, created or started any more; the accept handler runs at most once, and the
   * handlers of one connection at most twice, and not at all unless it was live; so no more than
   * 1 + 2 * |live| handlers run. The loop comes to rest exactly when none of this work is left.
   */
  lemma ShutdownDrains<C>(w: World<C>, before: seq<Event<C>>, between: set<C>, after: seq<Event<C>>, c: C)
    requires IsInitial(w) && IsRun(w, before) && Enabled(After(w, before), StopRuns(between))
    requires IsRun(Next(After(w, before), StopRuns(between)), after)
    ensures var atStop := After(w, before);
      var v := After(Next(atStop, StopRuns(between)), after);
      && v.live == {} && v.conns.Keys == atStop.conns.Keys && Busy(v) <= atStop.live
      && |after| <= 1 + 2 * |atStop.live|
      && AcceptHandlers(after) <= 1
      && HandlersOf(after, c) <= (if c in atStop.live then 2 else 0)
      && (v.crashed || ((forall e :: !Enabled(v, e)) <==> v.accepts == [] && Busy(v) == {}))
  {
    hide WorldOk, IsInitial, IsRun, After, Enabled, Next, Busy, Full;
    InitialOk(w);
    AfterOk(w, before);
    var atStop := After(w, before);
    WorkAtStop(atStop, between, c);
    NextOk(atStop, StopRuns(between));
    RunDrains(Next(atStop, StopRuns(between)), after, c);
    var v := After(Next(atStop, StopRuns(between)), after);
    if !v.crashed {
      WorkEnables(v);
      FullAreBusy(v);
    }
  }

  lemma FullAreBusy<C>(w: World<C>)
    ensures |Full(w)| <= |Busy(w)|
  {
    SubsetSize(Full(w), Busy(w));
  }

  // ---------------------------------------------------------------------------------------------
  // The bound is reached
  // ---------------------------------------------------------------------------------------------

  function NewConn(): Conn {
    var start := Config(MethodStart, 0, 0, RequestData("", "", 0, 0, [], ""));
    Conn(false, start, ReplyData(Ok, [], ""), [], start, "", 0, [])
  }

  function Beginning(): World<int> {
    World(true, [Waiting], 0, {}, map[0 := NewConn()], false, false)
  }

  lemma RunOf<C>(w: World<C>, e: Event<C>, more: seq<Event<C>>)
    requires Enabled(w, e) && IsRun(Next(w, e), more)
    ensures IsRun(w, [e] + more) && After(w, [e] + more) == After(Next(w, e), more)
  {
    assert ([e] + more)[1..] == more;
  }

  /** The connection once it is accepted, with these operations. */
  function Accepting(outstanding: seq<Operation>): Conn {
    NewConn().(open := true, outstanding := outstanding)
  }

  /** The server once it has accepted that connection and waits for another. */
  function Serving(outstanding: seq<Operation>): World<int> {
    World(true, [Waiting], 1, {0}, map[0 := Accepting(outstanding), 1 := NewConn()], false, false)
  }

  lemma FirstAccepted()
    ensures Enabled(Beginning(), AcceptEnds(0, Success("")))
    ensures var v := Next(Beginning(), AcceptEnds(0, Success("")));
      && Enabled(v, AcceptRuns(0, 1, NewConn()))
      && Next(v, AcceptRuns(0, 1, NewConn())) == Serving([Operation(Reading, Waiting)])
  {
    hide Feed;
    var v := Next(Beginning(), AcceptEnds(0, Success("")));
    assert v.conns == map[0 := Accepting([])];
    var after := Next(v, AcceptRuns(0, 1, NewConn()));
    assert after.conns[0].outstanding == [Operation(Reading, Waiting)];
    assert after.conns == map[0 := Accepting([Operation(Reading, Waiting)]), 1 := NewConn()];
    assert after.accepts == [Waiting];
    assert after.live == {0};
  }

  lemma ReadQueued()
    ensures Enabled(Serving([Operation(Reading, Waiting)]), OperationEnds(0, 0, Success("G")))
    ensures Next(Serving([Operation(Reading, Waiting)]), OperationEnds(0, 0, Success("G"))) ==
            Serving([Operation(Reading, Ready(Success("G")))])
  {
    hide Feed;
    var v := Next(Serving([Operation(Reading, Waiting)]), OperationEnds(0, 0, Success("G")));
    assert v.conns[0].outstanding == [Operation(Reading, Ready(Success("G")))];
    assert v.conns == Serving([Operation(Reading, Ready(Success("G")))]).conns;
  }

  /** A connection is accepted and read from; its handler has not run when the server is stopped. */
  lemma QueuedRead() returns (w: World<int>, before: seq<Event<int>>)
    ensures IsInitial(w) && IsRun(w, before)
    ensures After(w, before) == Serving([Operation(Reading, Ready(Success("G")))])
  {
    hide Feed, Enabled, Next, Serving;
    w := Beginning();
    var e1, e2 := AcceptEnds(0, Success("")), AcceptRuns(0, 1, NewConn());
    var e3 := OperationEnds(0, 0, Success("G"));
    FirstAccepted();
    ReadQueued();
    var v1 := Next(w, e1);
    var v2 := Next(v1, e2);
    RunOf(v2, e3, []);
    RunOf(v1, e2, [e3]);
    RunOf(w, e1, [e2, e3]);
    assert [e1] + [e2, e3] == [e1, e2, e3] && [e2] + [e3] == [e2, e3] && [e3] + [] == [e3];
    before := [e1, e2, e3];
  }

  /** With one live connection, three handlers can run after the stop: the bound cannot be lowered. */
  lemma BoundReached() returns (w: World<int>, before: seq<Event<int>>, after: seq<Event<int>>)
    ensures IsInitial(w) && IsRun(w, before) && Enabled(After(w, before), StopRuns({}))
    ensures IsRun(Next(After(w, before), StopRuns({})), after)
    ensures |after| == 1 + 2 * |After(w, before).live|
  {
    w, before := QueuedRead();
    var atStop := After(w, before);
    var v := Next(atStop, StopRuns({}));
    after := AfterQueuedRead(v);
  }

  /** The handler of the queued read starts another one, which fails at once. */
  lemma QueuedReadRuns(v: World<int>)
    requires !v.crashed && 0 in v.conns && !v.conns[0].open && v.conns[0].parser == NewConn().parser
    requires v.conns[0].outstanding == [Operation(Reading, Ready(Success("G")))]
    ensures Enabled(v, ReadRuns(0, 0, Refused))
    ensures var next := Next(v, ReadRuns(0, 0, Refused));
      && next.conns.Keys == v.conns.Keys && next == v.(conns := next.conns)
      && next.conns[0].outstanding == [Operation(Reading, Ready(Failed))] && Safe(next.conns[0].parser)
  {
    assert "G"[1..] == "";
    assert Feed(NewConn().parser, "G").verdict == NeedMore;
  }

  lemma AfterQueuedRead(v: World<int>) returns (after: seq<Event<int>>)
    requires v.stopped && !v.crashed && !v.acceptorOpen && v.accepts == [Ready(Aborted)] && v.newConnection in v.conns
    requires 0 in v.conns && !v.conns[0].open && v.conns[0].parser == NewConn().parser
    requires v.conns[0].outstanding == [Operation(Reading, Ready(Success("G")))]
    ensures |after| == 3 && IsRun(v, after)
  {
    hide Feed, ReadData, NewConn;
    var e1, e2 := ReadRuns(0, 0, Refused), AcceptRuns(0, v.newConnection, NewConn());
    QueuedReadRuns(v);
    var v1 := Next(v, e1);
    var v2 := Next(v1, e1);
    RunOf(v2, e2, []);
    RunOf(v1, e1, [e2]);
    RunOf(v, e1, [e1, e2]);
    assert [e1] + [e1, e2] == [e1, e1, e2] && [e1] + [e2] == [e1, e2] && [e2] + [] == [e2];
    after := [e1, e1, e2];
  }
}
