/**
 * The objects of the server: connections, their manager, and the server itself. Their handlers change
 * themselves in place, and every one of them is a step of the system of `Lifecycle`.
 */
module Server {
  import opened RequestParser
  import opened Reply
  import opened History
  import opened RequestHandler
  import opened StoredRuns
  import L = Lifecycle

  // ---------------------------------------------------------------------------------------------
  // Connections
  // ---------------------------------------------------------------------------------------------

  class Connection {
    var open: bool
    const parser: Parser
    const request: Request
    const reply: ReplyObject
    /** The operations on the socket, as the event loop holds them. */
    var outstanding: seq<L.Operation>

    ghost var start: Config
    ghost var received: string
    ghost var calls: nat
    ghost var sent: seq<ReplyData>

    ghost function View(): L.Conn
      reads this, parser, request, reply
    {
      L.Conn(open, parser.View(request), reply.Data(), outstanding, start, received, calls, sent)
    }

    lemma ViewFields()
      ensures View().outstanding == outstanding && View().parser == parser.View(request)
    {
    }

    constructor ()
      ensures L.IsNew(View()) && fresh(parser) && fresh(request) && fresh(reply)
    {
      open, outstanding := false, [];
      parser := new Parser();
      request := new Request();
      reply := new ReplyObject();
      received, calls, sent := "", 0, [];
      new;
      start := parser.View(request);
    }

    /** An operation on the socket is started. */
    method Initiate(kind: L.Kind)
      modifies this`outstanding
      ensures View() == L.Begin(old(View()), kind)
    {
      outstanding := outstanding + [L.Operation(kind, if open then L.Waiting else L.Ready(L.Failed))];
    }

    method Start()
      modifies this`outstanding
      ensures View() == L.Begin(old(View()), L.Reading)
    {
      Initiate(L.Reading);
    }

    /** `between`: a write of this connection is between two of its steps. */
    method Stop(between: bool)
      modifies this`open, this`outstanding
      ensures View() == L.Close(old(View()), between)
    {
      hide L.Interrupted;
      open := false;
      for i := 0 to |outstanding|
        invariant !open && |outstanding| == |old(outstanding)|
        invariant forall k :: 0 <= k < i ==> outstanding[k] == L.Interrupted(old(outstanding)[k], between)
        invariant forall k :: i <= k < |outstanding| ==> outstanding[k] == old(outstanding)[k]
      {
        outstanding := outstanding[i := L.Interrupted(outstanding[i], between)];
      }
      assert outstanding == L.Close(old(View()), between).outstanding;
    }

    method Write()
      modifies this`outstanding, this`sent
      ensures View() == L.BeginWrite(old(View()))
    {
      sent := sent + [reply.Data()];
      Initiate(L.Writing(reply.Data()));
    }

    /** The event loop takes the operation whose handler it calls. */
    method Take(i: nat) returns (result: L.Result)
      requires i < |outstanding| && outstanding[i].progress.Ready?
      modifies this`outstanding
      ensures result == old(outstanding[i].progress.result)
      ensures View() == old(View()).(outstanding := L.Remove(old(outstanding), i))
    {
      result := outstanding[i].progress.result;
      outstanding := outstanding[..i] + outstanding[i + 1..];
    }

    /** A whole request: the handler is called, and its reply is written. */
    method Respond(store: HistoryStorage, analyse: Pipeline) returns (thrown: bool, ghost answer: Answer)
      requires store.Valid()
      modifies this`outstanding, this`calls, this`sent, reply, store
      ensures store.Valid() && thrown == answer.Threw?
      ensures AnswerFits(request.Data(), analyse, old(store.View()), answer)
      ensures store.View() == StoreAfter(request.Data(), analyse, old(store.View()))
      ensures var called := old(View()).(calls := old(calls) + 1, reply := Answered(old(View()).reply, answer));
        View() == if thrown then called else L.BeginWrite(called)
    {
      hide Answered, AnswerFits, StoreAfter;
      calls := calls + 1;
      thrown, answer := HandleRequest(request, reply, store, analyse);
      if !thrown {
        Write();
      }
    }

    method ReceiveData(data: string, store: HistoryStorage, analyse: Pipeline)
      returns (thrown: bool, ghost answer: Answer)
      requires Safe(parser.View(request)) && store.Valid()
      modifies this`outstanding, this`received, this`calls, this`sent, parser, request, reply, store
      ensures store.Valid()
      ensures (View(), thrown) == L.ReadData(old(View()), data, answer)
      ensures Handled(Feed(old(View()).parser, data), analyse, old(store.View()), answer, store.View())
    {
      hide Feed, StockReply, Answered, AnswerFits, StoreAfter, L.BeginWrite, L.Begin;
      thrown, answer := false, Refused;
      received := received + data;
      var verdict, _ := parser.Parse(request, data);
      match verdict
      case Accepted =>
        thrown, answer := Respond(store, analyse);
      case Rejected =>
        reply.SetStockReply(BadRequest);
        Write();
      case NeedMore =>
        Start();
      case Thrown =>
        thrown := true;
    }

    /** `answer` is what the request handler did, if it was called. */
    method HandleRead(i: nat, manager: ConnectionManager, store: HistoryStorage, analyse: Pipeline)
      returns (thrown: bool, ghost answer: Answer)
      requires i < |outstanding| && outstanding[i].progress.Ready?
      requires Safe(parser.View(request)) && store.Valid()
      modifies this`open, this`outstanding, this`received, this`calls, this`sent
      modifies parser, request, reply, store, manager
      ensures store.Valid()
      ensures var taken := old(View()).(outstanding := L.Remove(old(View()).outstanding, i));
        match old(View()).outstanding[i].progress.result
        case Success(data) =>
          && (View(), thrown) == L.ReadData(taken, data, answer) && manager.connections == old(manager.connections)
          && Handled(Feed(taken.parser, data), analyse, old(store.View()), answer, store.View())
        case Failed =>
          && View() == L.Close(taken, false) && manager.connections == old(manager.connections) - {this} && !thrown
          && store.View() == old(store.View())
        case Aborted =>
          && View() == taken && manager.connections == old(manager.connections) && !thrown
          && store.View() == old(store.View())
    {
      hide Feed, L.ReadData, L.Close, Handled;
      thrown, answer := false, Refused;
      var result := Take(i);
      match result
      case Success(data) => thrown, answer := ReceiveData(data, store, analyse);
      case Failed => manager.Stop(this);
      case Aborted =>
    }

    method HandleWrite(i: nat, manager: ConnectionManager)
      requires i < |outstanding| && outstanding[i].progress.Ready?
      modifies this`open, this`outstanding, manager
      ensures var taken := old(View()).(outstanding := L.Remove(old(View()).outstanding, i));
        if old(View()).outstanding[i].progress.result.Aborted? then
          View() == taken && manager.connections == old(manager.connections)
        else
          View() == L.Close(taken, false) && manager.connections == old(manager.connections) - {this}
    {
      hide L.Close;
      var result := Take(i);
      if !result.Aborted? {
        manager.Stop(this);
      }
    }
  }

  // ---------------------------------------------------------------------------------------------
  // The connection manager
  // ---------------------------------------------------------------------------------------------

  class ConnectionManager {
    var connections: set<Connection>

    constructor ()
      ensures connections == {}
    {
      connections := {};
    }

    method Start(c: Connection)
      modifies this, c`outstanding
      ensures connections == old(connections) + {c} && c.View() == L.Begin(old(c.View()), L.Reading)
    {
      connections := connections + {c};
      c.Start();
    }

    method Stop(c: Connection)
      modifies this, c`open, c`outstanding
      ensures connections == old(connections) - {c} && c.View() == L.Close(old(c.View()), false)
    {
      connections := connections - {c};
      c.Stop(false);
    }

    method StopAll(between: set<Connection>)
      modifies this, connections`open, connections`outstanding
      ensures connections == {}
      ensures forall c :: c in old(connections) ==> c.View() == L.Close(old(c.View()), c in between)
    {
      hide L.Close, Connection.View;
      var rest := connections;
      while rest != {}
        invariant rest <= connections == old(connections)
        invariant forall c :: c in rest ==> c.View() == old(c.View())
        invariant forall c :: c in connections - rest ==> c.View() == L.Close(old(c.View()), c in between)
        decreases rest
      {
        var c :| c in rest;
        c.Stop(c in between);
        rest := rest - {c};
      }
      connections := {};
    }
  }

  /** No two connections share a parser, a request or a reply. */
  ghost predicate Separate(all: set<Connection>) {
    forall c, d :: c in all && d in all && c != d ==>
      c.parser != d.parser && c.request != d.request && c.reply != d.reply
  }

  lemma OthersApart(all: set<Connection>, c: Connection)
    requires Separate(all) && c in all
    ensures forall d :: d in all && d != c ==> d.parser != c.parser && d.request != c.request && d.reply != c.reply
  {
  }

  // ---------------------------------------------------------------------------------------------
  // The server
  // ---------------------------------------------------------------------------------------------

  class Server {
    var acceptorOpen: bool
    /** The accept operations, as the event loop holds them. */
    var accepts: seq<L.Progress>
    var newConnection: Connection
    const manager: ConnectionManager
    const store: HistoryStorage

    /** Every connection that was ever created. */
    ghost var all: set<Connection>
    ghost var stopped: bool
    ghost var crashed: bool

    ghost function View(): L.World<Connection>
      reads this, manager, all, set c | c in all :: c.parser, set c | c in all :: c.request, set c | c in all :: c.reply
    {
      L.World(acceptorOpen, accepts, newConnection, manager.connections, map c | c in all :: c.View(), stopped, crashed)
    }

    ghost predicate Valid()
      reads this, manager, store
    {
      newConnection in all && manager.connections <= all && store.Valid() && Separate(all)
    }

    constructor ()
      ensures Valid() && L.IsInitial(View()) && store.View() == EMPTY_STORE
    {
      acceptorOpen, accepts, all, stopped, crashed := true, [], {}, false, false;
      newConnection := new Connection();
      manager := new ConnectionManager();
      store := new HistoryStorage();
      new;
      StartAccept();
    }

    method StartAccept()
      requires manager.connections <= all && store.Valid() && Separate(all)
      modifies this`newConnection, this`accepts, this`all
      ensures Valid() && fresh(newConnection) && L.IsNew(newConnection.View())
      ensures View() == L.StartAccept(old(View()), newConnection, newConnection.View())
    {
      hide Connection.View, L.IsNew;
      newConnection := new Connection();
      all := all + {newConnection};
      accepts := accepts + [if acceptorOpen then L.Waiting else L.Ready(L.Failed)];
    }

    method HandleAccept(i: nat)
      requires Valid() && i < |accepts| && accepts[i].Ready?
      modifies this`newConnection, this`accepts, this`all, manager, newConnection`outstanding
      ensures Valid()
      ensures acceptorOpen ==> fresh(newConnection) && L.IsNew(newConnection.View())
      ensures View() == L.HandleAccept(old(View()), i, newConnection, newConnection.View())
    {
      hide Connection.View, L.IsNew, L.Begin, L.StartAccept, Separate;
      var result := accepts[i].result;
      accepts := accepts[..i] + accepts[i + 1..];
      assert View() == old(View()).(accepts := L.Remove(old(View()).accepts, i));
      if !acceptorOpen {
        return;
      }
      if result.Success? {
        ghost var before := View();
        manager.Start(newConnection);
        OneChanged(before, View(), newConnection, View().conns[newConnection]);
        assert View() == L.StartOne(before, newConnection);
      }
      StartAccept();
    }

    /** `acceptor_.close()`: accepts that still wait are aborted. */
    method CloseAcceptor()
      modifies this`acceptorOpen, this`accepts
      ensures !acceptorOpen && |accepts| == |old(accepts)|
      ensures forall k :: 0 <= k < |accepts| ==> accepts[k] == L.AbortWaiting(old(accepts)[k])
    {
      acceptorOpen := false;
      for i := 0 to |accepts|
        invariant !acceptorOpen && |accepts| == |old(accepts)|
        invariant forall k :: 0 <= k < i ==> accepts[k] == L.AbortWaiting(old(accepts)[k])
        invariant forall k :: i <= k < |accepts| ==> accepts[k] == old(accepts)[k]
      {
        accepts := accepts[i := L.AbortWaiting(accepts[i])];
      }
    }

    /** Every live connection is closed; the others stay as they are. */
    method StopConnections(between: set<Connection>)
      requires Valid()
      modifies manager, manager.connections`open, manager.connections`outstanding
      ensures Valid() && manager.connections == {}
      ensures forall c :: c in all ==>
        c.View() == if c in old(manager.connections) then L.Close(old(c.View()), c in between) else old(c.View())
    {
      hide L.Close, Connection.View, Separate;
      manager.StopAll(between);
    }

    /** `between`: the connections whose write is between two of its steps. */
    method HandleStop(between: set<Connection>)
      requires Valid()
      modifies this`acceptorOpen, this`accepts, this`stopped, manager
      modifies manager.connections`open, manager.connections`outstanding
      ensures Valid()
      ensures View() == L.HandleStop(old(View()), between)
    {
      hide L.Close, Connection.View, L.HandleStop, L.AbortWaiting, Separate;
      ghost var w := View();
      stopped := true;
      CloseAcceptor();
      assert View() == w.(acceptorOpen := false, accepts := accepts, stopped := true);
      StopConnections(between);
      StopRefines(w, View(), between);
    }

    /** The read handler of a connection changes no other connection. */
    method ReadOne(c: Connection, i: nat, analyse: Pipeline) returns (thrown: bool, ghost answer: Answer)
      requires Valid() && c in all && i < |c.outstanding| && c.outstanding[i].progress.Ready?
      requires Safe(c.parser.View(c.request))
      modifies manager, c, c.parser, c.request, c.reply, store
      ensures Valid()
      ensures forall d :: d in all && d != c ==> d.View() == old(d.View())
      ensures var taken := old(c.View()).(outstanding := L.Remove(old(c.View()).outstanding, i));
        match old(c.View()).outstanding[i].progress.result
        case Success(data) =>
          && (c.View(), thrown) == L.ReadData(taken, data, answer) && manager.connections == old(manager.connections)
          && Handled(Feed(taken.parser, data), analyse, old(store.View()), answer, store.View())
        case Failed =>
          && c.View() == L.Close(taken, false) && manager.connections == old(manager.connections) - {c} && !thrown
          && store.View() == old(store.View())
        case Aborted =>
          && c.View() == taken && manager.connections == old(manager.connections) && !thrown
          && store.View() == old(store.View())
    {
      hide Feed, L.ReadData, L.Close, L.Remove, Connection.View, Handled, Separate;
      OthersApart(all, c);
      thrown, answer := c.HandleRead(i, manager, store, analyse);
    }

    /**
     * The event loop calls the read handler of a connection: the step of the server, and of its store
     * what the request asks for.
     */
    method RunRead(c: Connection, i: nat, analyse: Pipeline) returns (ghost answer: Answer)
      requires Valid() && c in all && i < |c.outstanding| && c.outstanding[i].progress.Ready?
      requires Safe(c.parser.View(c.request)) && !crashed
      modifies this`crashed, manager, c, c.parser, c.request, c.reply, store
      ensures Valid()
      ensures View() == L.HandleRead(old(View()), c, i, answer)
      ensures StoreSteps(old(View()), L.ReadRuns(c, i, answer), analyse, old(store.View()), store.View())
    {
      hide Feed, L.ReadData, L.Close, L.Remove, L.HandleRead, L.ReadsData, Connection.View, Handled,
           StoreSteps, Separate;
      ghost var w := View();
      c.ViewFields();
      var thrown;
      thrown, answer := ReadOne(c, i, analyse);
      crashed := thrown;
      ReadRefines(w, View(), c, i, answer);
      ReadStoreSteps(w, c, i, answer, analyse, old(store.View()), store.View());
    }

    /** The event loop calls the write handler of a connection. */
    method RunWrite(c: Connection, i: nat)
      requires Valid() && c in all && i < |c.outstanding| && c.outstanding[i].progress.Ready?
      modifies manager, c`open, c`outstanding
      ensures Valid()
      ensures View() == L.HandleWrite(old(View()), c, i)
    {
      hide L.Close, Connection.View, Separate;
      c.ViewFields();
      ghost var conn := c.View();
      c.HandleWrite(i, manager);
      OneChanged(old(View()), View(), c, conn.(outstanding := L.Remove(conn.outstanding, i)));
    }
  }

  lemma OneChanged<C>(w: L.World<C>, v: L.World<C>, c: C, n: L.Conn)
    requires v.conns.Keys == w.conns.Keys && c in w.conns
    requires forall d :: d in w.conns && d != c ==> v.conns[d] == w.conns[d]
    ensures v.conns == w.conns[c := v.conns[c]]
    ensures v.conns == w.conns[c := n][c := v.conns[c]]
  {
  }

  lemma StopRefines<C>(w: L.World<C>, v: L.World<C>, between: set<C>)
    requires v.conns.Keys == w.conns.Keys && v.live == {} && v.newConnection == w.newConnection
    requires !v.acceptorOpen && v.stopped && v.crashed == w.crashed && |v.accepts| == |w.accepts|
    requires forall k :: 0 <= k < |w.accepts| ==> v.accepts[k] == L.AbortWaiting(w.accepts[k])
    requires forall c :: c in w.conns ==>
               v.conns[c] == if c in w.live then L.Close(w.conns[c], c in between) else w.conns[c]
    ensures v == L.HandleStop(w, between)
  {
    hide L.Close, L.AbortWaiting;
    assert v.accepts == L.HandleStop(w, between).accepts;
    assert v.conns == L.HandleStop(w, between).conns;
  }

  lemma ReadRefines<C>(w: L.World<C>, v: L.World<C>, c: C, i: nat, answer: Answer)
    requires v.conns.Keys == w.conns.Keys && c in w.conns && !w.crashed
    requires forall d :: d in w.conns && d != c ==> v.conns[d] == w.conns[d]
    requires v == w.(live := v.live, conns := v.conns, crashed := v.crashed)
    requires Safe(w.conns[c].parser)
    requires i < |w.conns[c].outstanding| && w.conns[c].outstanding[i].progress.Ready?
    requires var taken := w.conns[c].(outstanding := L.Remove(w.conns[c].outstanding, i));
      match w.conns[c].outstanding[i].progress.result
      case Success(data) => (v.conns[c], v.crashed) == L.ReadData(taken, data, answer) && v.live == w.live
      case Failed => v.conns[c] == L.Close(taken, false) && v.live == w.live - {c} && !v.crashed
      case Aborted => v.conns[c] == taken && v.live == w.live && !v.crashed
    ensures v == L.HandleRead(w, c, i, answer)
  {
    hide L.Close, L.ReadData, L.Remove;
    OneChanged(w, v, c, w.conns[c].(outstanding := L.Remove(w.conns[c].outstanding, i)));
  }

  lemma ReadStoreSteps<C>(w: L.World<C>, c: C, i: nat, answer: Answer, analyse: Pipeline, before: Store, after: Store)
    requires c in w.conns && Safe(w.conns[c].parser)
    requires i < |w.conns[c].outstanding| && w.conns[c].outstanding[i].progress.Ready?
    requires match w.conns[c].outstanding[i].progress.result
      case Success(data) => Handled(Feed(w.conns[c].parser, data), analyse, before, answer, after)
      case _ => after == before
    ensures StoreSteps(w, L.ReadRuns(c, i, answer), analyse, before, after)
  {
    hide Feed, Handled;
  }
}
