/**
 * The life of connections together with the store: what is answered, recorded and listed on every
 * run, and when a run ends by an exception.
 */
module StoredRuns {
  import opened Text
  import opened Decimal
  import opened RequestParser
  import opened Reply
  import opened ReplyBytes
  import opened History
  import opened RequestHandler
  import L = Lifecycle

  // ---------------------------------------------------------------------------------------------
  // The step system with its store
  // ---------------------------------------------------------------------------------------------

  /** What the parser makes of the data of a read. */
  function ReportOf<C>(w: L.World<C>, e: L.Event<C>): Report
    requires L.ReadsData(w, e)
  {
    Feed(w.conns[e.c].parser, w.conns[e.c].outstanding[e.i].progress.result.data)
  }

  /** How the store changes with a step, and which answers the request handler may give in it. */
  ghost predicate StoreSteps<C>(w: L.World<C>, e: L.Event<C>, analyse: Pipeline, before: Store, after: Store) {
    if L.ReadsData(w, e) then Handled(ReportOf(w, e), analyse, before, e.answer, after) else after == before
  }

  /**
   * The server with its store. The program does not keep the last three: the store that the request
   * handler was called with, by connection, and the predictions so far: for which connection, and
   * their texts.
   */
  datatype Site<C> = Site(
    world: L.World<C>,
    store: Store,
    asked: map<C, Store>,
    made: seq<C>,
    texts: seq<string>)

  /** A step in which the request handler is called. */
  predicate Calls<C>(w: L.World<C>, e: L.Event<C>) {
    L.ReadsData(w, e) && ReportOf(w, e).verdict == Accepted
  }

  /** The text that a step records, if it does. */
  function RecordedBy<C>(w: L.World<C>, e: L.Event<C>, analyse: Pipeline): Option<string> {
    if Calls(w, e) then Recorded(ReportOf(w, e).config.request, analyse) else None
  }

  ghost predicate Steps<C>(s: Site<C>, e: L.Event<C>, analyse: Pipeline, t: Site<C>) {
    && L.Enabled(s.world, e) && t.world == L.Next(s.world, e)
    && StoreSteps(s.world, e, analyse, s.store, t.store)
    && t.asked == (if Calls(s.world, e) then s.asked[e.c := s.store] else s.asked)
    && match RecordedBy(s.world, e, analyse)
       case None => t.made == s.made && t.texts == s.texts
       case Some(text) => e.ReadRuns? && t.made == s.made + [e.c] && t.texts == s.texts + [text]
  }

  ghost predicate Starts<C>(s: Site<C>) {
    L.IsInitial(s.world) && s.store == EMPTY_STORE && s.asked == map[] && s.made == [] && s.texts == []
  }

  /** Sites one after another, each reached from the one before by the event between them. */
  ghost predicate IsHistory<C>(sites: seq<Site<C>>, events: seq<L.Event<C>>, analyse: Pipeline) {
    && |sites| == |events| + 1 && Starts(sites[0])
    && forall i :: 0 <= i < |events| ==> Steps(sites[i], events[i], analyse, sites[i + 1])
  }

  // ---------------------------------------------------------------------------------------------
  // What is answered and what is stored
  // ---------------------------------------------------------------------------------------------

  predicate Complete(c: L.Conn)
    requires Safe(c.start)
  {
    Feed(c.start, c.received).verdict == Accepted
  }

  /** The text of the prediction that a connection has asked for. */
  function TextOf(c: L.Conn, analyse: Pipeline): Option<string>
    requires Safe(c.start)
  {
    if Complete(c) then Recorded(c.parser.request, analyse) else None
  }

  /** What has been sent for a complete request is what its route says of the store that was asked. */
  ghost predicate SentFits(c: L.Conn, analyse: Pipeline, store: Store) {
    match RouteOf(c.parser.request)
    case Refuse => c.sent == [StockReply(BadRequest)]
    case ListHistory =>
      && |c.sent| == 1 && c.sent[0] == WithLength(Ok, c.sent[0].content, "application/json")
      && IsListing(c.sent[0].content, store.history)
    case Predict(images) =>
      match Prediction(images, analyse)
      case None => c.sent == []
      case Some(json) => c.sent == [WithLength(Ok, json, "application/json")]
  }

  /** A request on which the handler throws. */
  predicate Raises(req: RequestData, analyse: Pipeline) {
    var route := RouteOf(req);
    route.Predict? && Prediction(route.images, analyse).None?
  }

  /** What a connection has received has made the parser or the request handler throw. */
  predicate HasRaised(c: L.Conn, analyse: Pipeline)
    requires Safe(c.start)
  {
    || Feed(c.start, c.received).verdict == Thrown
    || (Complete(c) && Raises(c.parser.request, analyse))
  }

  /** Every complete request has been asked of the store once, and what was sent for it is right. */
  ghost predicate TalkOk<C>(s: Site<C>, analyse: Pipeline, c: C)
    requires c in s.world.conns
  {
    && Safe(s.world.conns[c].start)
    && (c in s.asked <==> Complete(s.world.conns[c]))
    && (c in s.asked ==> SentFits(s.world.conns[c], analyse, s.asked[c]))
    && (TextOf(s.world.conns[c], analyse).Some? ==> c in s.made)
    && (HasRaised(s.world.conns[c], analyse) ==> s.world.crashed)
  }

  /** The store holds the predictions made, and these are those of the connections, each once. */
  ghost predicate MadeOk<C>(s: Site<C>, analyse: Pipeline) {
    && s.store == Stored(s.texts) && |s.made| == |s.texts|
    && (forall i, j :: 0 <= i < j < |s.made| ==> s.made[i] != s.made[j])
    && forall i :: 0 <= i < |s.made| ==>
         && s.made[i] in s.world.conns && Safe(s.world.conns[s.made[i]].start)
         && TextOf(s.world.conns[s.made[i]], analyse) == Some(s.texts[i])
  }

  /** The loop has ended by an exception only if some connection's data have made it. */
  ghost predicate CrashOk<C>(s: Site<C>, analyse: Pipeline) {
    s.world.crashed ==> exists c ::
      c in s.world.conns && Safe(s.world.conns[c].start) && HasRaised(s.world.conns[c], analyse)
  }

  ghost predicate Truthful<C>(s: Site<C>, analyse: Pipeline) {
    && L.WorldOk(s.world) && s.asked.Keys <= s.world.conns.Keys && MadeOk(s, analyse) && CrashOk(s, analyse)
    && forall c :: c in s.world.conns ==> TalkOk(s, analyse, c)
  }

  // ---------------------------------------------------------------------------------------------
  // Every step keeps this: one connection
  // ---------------------------------------------------------------------------------------------

  lemma SameTalkKeeps(c: L.Conn, d: L.Conn, analyse: Pipeline, store: Store)
    requires Safe(c.start) && L.SameTalk(c, d)
    ensures TextOf(d, analyse) == TextOf(c, analyse) && Complete(d) == Complete(c)
    ensures SentFits(d, analyse, store) == SentFits(c, analyse, store)
    ensures HasRaised(d, analyse) == HasRaised(c, analyse)
  {
    hide Feed, RouteOf, Prediction, IsListing, StockReply, WithLength;
  }

  lemma NewHasNoTalk<C>(w: L.World<C>, e: L.Event<C>, c: C)
    requires L.Enabled(w, e) && c in L.Next(w, e).conns && c !in w.conns
    ensures var d := L.Next(w, e).conns[c]; IsStart(d.start) && d.received == ""
  {
    hide Feed, L.ReadData, L.Close, L.Begin, L.Remove;
  }

  lemma NewIsSilent(c: L.Conn, analyse: Pipeline)
    requires IsStart(c.start) && c.received == ""
    ensures !Complete(c) && TextOf(c, analyse) == None && !HasRaised(c, analyse)
  {
    hide RouteOf, Prediction;
  }

  /** A read with data: everything received so far has led the parser where it is. */
  lemma ReadTalk(c: L.Conn, data: string, answer: Answer)
    requires L.ConnOk(c) && c.outstanding == [] && Feed(c.start, c.received).verdict == NeedMore
    ensures var (d, thrown) := L.ReadData(c, data, answer);
      var report := Feed(c.parser, data);
      && IsStart(c.start) && d.start == c.start && d.received == c.received + data && d.parser == report.config
      && Feed(d.start, d.received).verdict == report.verdict
      && c.reply.content == ""
      && (report.verdict == Accepted ==> d.sent == if answer.Threw? then [] else [Answered(c.reply, answer)])
      && thrown == (report.verdict == Thrown || (report.verdict == Accepted && answer.Threw?))
  {
    hide Feed, StockReply, Answered;
    FeedConcat(c.start, c.received, data);
  }

  lemma AnsweredFits(c: L.Conn, reply: ReplyData, answer: Answer, analyse: Pipeline, store: Store)
    requires reply.content == "" && AnswerFits(c.parser.request, analyse, store, answer)
    requires c.sent == if answer.Threw? then [] else [Answered(reply, answer)]
    ensures SentFits(c, analyse, store) && (Raises(c.parser.request, analyse) <==> answer.Threw?)
  {
    hide RouteOf, Prediction, IsListing, StockReply, ToDecimal;
    assert answer.Completed? ==> "" + answer.text == answer.text;
  }

  /** A read handler with data, on its own connection. */
  lemma ReadNext<C>(w: L.World<C>, e: L.Event<C>)
    requires L.WorldOk(w) && L.Enabled(w, e) && L.ReadsData(w, e)
    ensures var c := w.conns[e.c];
      var taken := c.(outstanding := []);
      && L.ConnOk(taken) && IsStart(c.start) && Feed(c.start, c.received).verdict == NeedMore
      && e.c in L.Next(w, e).conns
      && (L.Next(w, e).conns[e.c], L.Next(w, e).crashed) ==
         L.ReadData(taken, c.outstanding[e.i].progress.result.data, e.answer)
  {
    hide Feed, L.ReadData, L.ConnOk, L.RunningOk, L.StoppedOk;
    L.RemoveOk(w.conns[e.c], e.i);
    ConnStarts(w.conns[e.c]);
  }

  lemma ConnStarts(c: L.Conn)
    requires L.ConnOk(c)
    ensures IsStart(c.start)
  {
  }

  /** The connection that a read with data belongs to, after it. */
  lemma ReadStep<C>(s: Site<C>, e: L.Event<C>, analyse: Pipeline, t: Site<C>)
    requires L.WorldOk(s.world) && Steps(s, e, analyse, t) && L.ReadsData(s.world, e)
    ensures e.c in t.world.conns && IsStart(s.world.conns[e.c].start) && IsStart(t.world.conns[e.c].start)
    ensures !Complete(s.world.conns[e.c])
    ensures Complete(t.world.conns[e.c]) <==> Calls(s.world, e)
    ensures TextOf(t.world.conns[e.c], analyse) == RecordedBy(s.world, e, analyse)
    ensures Calls(s.world, e) ==> SentFits(t.world.conns[e.c], analyse, s.store)
    ensures Calls(s.world, e) ==> t.store == StoreAfter(t.world.conns[e.c].parser.request, analyse, s.store)
    ensures HasRaised(t.world.conns[e.c], analyse) <==> t.world.crashed
  {
    hide Feed, RouteOf, Raises, Recorded, AnswerFits, Answered, SentFits, L.ReadData, L.ConnOk, StoreAfter, L.Next,
         L.Enabled, L.WorldOk;
    var c, report := s.world.conns[e.c], ReportOf(s.world, e);
    ReadNext(s.world, e);
    ReadTalk(c.(outstanding := []), c.outstanding[e.i].progress.result.data, e.answer);
    if report.verdict == Accepted {
      AnsweredFits(t.world.conns[e.c], c.reply, e.answer, analyse, s.store);
    }
  }

  /** Steps without data change neither what connections have said nor whether the loop has ended. */
  lemma SilentStep<C>(w: L.World<C>, e: L.Event<C>)
    requires L.WorldOk(w) && L.Enabled(w, e) && !L.ReadsData(w, e)
    ensures L.Next(w, e).crashed == w.crashed
  {
    hide L.ConnOk, L.RunningOk, L.StoppedOk, L.ReadData, L.Close, L.Begin, L.Remove, L.IsNew;
    if e.ReadRuns? {
      SafeParser(w, e);
    }
  }

  lemma SafeParser<C>(w: L.World<C>, e: L.Event<C>)
    requires L.Enabled(w, e) && e.ReadRuns? && !L.ReadsData(w, e)
    ensures L.HasOperation(w, e.c, e.i) && !w.conns[e.c].outstanding[e.i].progress.result.Success?
  {
  }

  /** A connection that is there before and after a step. */
  lemma TalkStep<C>(s: Site<C>, e: L.Event<C>, analyse: Pipeline, t: Site<C>, c: C)
    requires Truthful(s, analyse) && Steps(s, e, analyse, t) && c in s.world.conns
    ensures c in t.world.conns && TalkOk(t, analyse, c)
    ensures var own := RecordedBy(s.world, e, analyse);
      TextOf(t.world.conns[c], analyse) ==
      if own.Some? && e.ReadRuns? && e.c == c then own else TextOf(s.world.conns[c], analyse)
  {
    hide Feed, TextOf, SentFits, HasRaised, L.WorldOk, L.Next, L.Enabled, Recorded, Handled, ReportOf, MadeOk, CrashOk,
         StoreSteps, Complete;
    RunsOn(s.world, e);
    assert TalkOk(s, analyse, c);
    if L.ReadsData(s.world, e) && e.ReadRuns? && e.c == c {
      ReadStep(s, e, analyse, t);
      if RecordedBy(s.world, e, analyse).None? {
        NoText(s, analyse, c);
      }
    } else {
      L.TalkKept(s.world, e, c);
      SameTalkKeeps(s.world.conns[c], t.world.conns[c], analyse, if c in s.asked then s.asked[c] else s.store);
    }
  }

  lemma RunsOn<C>(w: L.World<C>, e: L.Event<C>)
    requires L.Enabled(w, e)
    ensures !w.crashed
  {
  }

  lemma NoText<C>(s: Site<C>, analyse: Pipeline, c: C)
    requires c in s.world.conns && Safe(s.world.conns[c].start) && !Complete(s.world.conns[c])
    ensures TextOf(s.world.conns[c], analyse) == None
  {
  }

  /** A connection that a step creates. */
  lemma NewTalk<C>(s: Site<C>, e: L.Event<C>, analyse: Pipeline, t: Site<C>, c: C)
    requires Truthful(s, analyse) && Steps(s, e, analyse, t) && c in t.world.conns && c !in s.world.conns
    ensures TalkOk(t, analyse, c)
  {
    hide Feed, TextOf, SentFits, HasRaised, L.WorldOk, L.Next, L.Enabled, Recorded, Handled, ReportOf, MadeOk, CrashOk,
         StoreSteps, Complete;
    NewHasNoTalk(s.world, e, c);
    NewIsSilent(t.world.conns[c], analyse);
  }

  // ---------------------------------------------------------------------------------------------
  // Every step keeps this: the whole
  // ---------------------------------------------------------------------------------------------

  lemma StoreStep<C>(s: Site<C>, e: L.Event<C>, analyse: Pipeline, t: Site<C>)
    requires s.store == Stored(s.texts) && Steps(s, e, analyse, t)
    ensures t.store == Stored(t.texts)
  {
    hide Feed, RouteOf, Prediction, AnswerFits, AfterJob, L.Next, L.Enabled;
    var own := RecordedBy(s.world, e, analyse);
    if own.Some? {
      assert (s.texts + [own.value])[..|s.texts|] == s.texts;
    }
  }

  lemma MadeStep<C>(s: Site<C>, e: L.Event<C>, analyse: Pipeline, t: Site<C>)
    requires Truthful(s, analyse) && Steps(s, e, analyse, t)
    ensures MadeOk(t, analyse)
  {
    hide Feed, TextOf, SentFits, HasRaised, L.WorldOk, L.Next, L.Enabled, Stored, Recorded, StoreSteps, L.ReadsData,
         RecordedBy, Calls, CrashOk;
    StoreStep(s, e, analyse, t);
    var own := RecordedBy(s.world, e, analyse);
    if own.Some? {
      RecorderIsNew(s, e, analyse, t);
      TalkStep(s, e, analyse, t, e.c);
    }
    forall i | 0 <= i < |t.made|
      ensures t.made[i] in t.world.conns && Safe(t.world.conns[t.made[i]].start)
      ensures TextOf(t.world.conns[t.made[i]], analyse) == Some(t.texts[i])
    {
      if i < |s.made| {
        assert s.made[i] == t.made[i] && s.made[i] in s.made;
        TalkStep(s, e, analyse, t, t.made[i]);
      }
    }
  }

  /** A connection that records a text has not recorded one before. */
  lemma RecorderIsNew<C>(s: Site<C>, e: L.Event<C>, analyse: Pipeline, t: Site<C>)
    requires Truthful(s, analyse) && Steps(s, e, analyse, t) && RecordedBy(s.world, e, analyse).Some?
    ensures e.ReadRuns? && e.c in s.world.conns && e.c in t.world.conns && e.c !in s.made
  {
    hide Feed, SentFits, HasRaised, L.WorldOk, L.Next, L.Enabled, Stored, Recorded, Handled, ReportOf, CrashOk,
         Complete, TalkOk;
    ReadStep(s, e, analyse, t);
  }

  lemma CrashStep<C>(s: Site<C>, e: L.Event<C>, analyse: Pipeline, t: Site<C>)
    requires L.WorldOk(s.world) && Steps(s, e, analyse, t)
    ensures CrashOk(t, analyse)
  {
    hide Feed, HasRaised, L.WorldOk, L.Next, L.Enabled, Handled, StoreSteps, RecordedBy, Calls, L.ReadsData;
    RunsOn(s.world, e);
    if L.ReadsData(s.world, e) {
      ReadStep(s, e, analyse, t);
    } else {
      SilentStep(s.world, e);
    }
  }

  lemma StepTruthful<C>(s: Site<C>, e: L.Event<C>, analyse: Pipeline, t: Site<C>)
    requires Truthful(s, analyse) && Steps(s, e, analyse, t)
    ensures Truthful(t, analyse)
  {
    hide Feed, L.WorldOk, L.Next, L.Enabled, StoreSteps, RecordedBy, MadeOk, CrashOk, TalkOk;
    L.NextOk(s.world, e);
    MadeStep(s, e, analyse, t);
    CrashStep(s, e, analyse, t);
    forall c | c in s.world.conns
      ensures c in t.world.conns && TalkOk(t, analyse, c)
    {
      TalkStep(s, e, analyse, t, c);
    }
    forall c | c in t.world.conns && c !in s.world.conns
      ensures TalkOk(t, analyse, c)
    {
      NewTalk(s, e, analyse, t, c);
    }
  }

  lemma StartTruthful<C>(s: Site<C>, analyse: Pipeline)
    requires Starts(s)
    ensures Truthful(s, analyse)
  {
    hide Feed, TextOf, SentFits, HasRaised, Complete, L.WorldOk;
    L.InitialOk(s.world);
    forall c | c in s.world.conns
      ensures TalkOk(s, analyse, c)
    {
      NewIsSilent(s.world.conns[c], analyse);
    }
  }

  lemma {:induction false} HistoryTruthful<C>(sites: seq<Site<C>>, events: seq<L.Event<C>>, analyse: Pipeline, n: nat)
    requires IsHistory(sites, events, analyse) && n <= |events|
    ensures |sites| == |events| + 1 && Truthful(sites[n], analyse)
  {
    hide Truthful, Steps, Starts;
    if n == 0 {
      StartTruthful(sites[0], analyse);
    } else {
      HistoryTruthful(sites, events, analyse, n - 1);
      StepTruthful(sites[n - 1], events[n - 1], analyse, sites[n]);
    }
  }

  /** A history of sites is a run of the step system without the store. */
  lemma {:induction false} HistoryIsRun<C>(sites: seq<Site<C>>, events: seq<L.Event<C>>, analyse: Pipeline, k: nat)
    requires IsHistory(sites, events, analyse) && k <= |events|
    ensures L.IsRun(sites[k].world, events[k..])
    ensures L.After(sites[k].world, events[k..]) == sites[|events|].world
    decreases |events| - k
  {
    hide StoreSteps, RecordedBy, L.Enabled, L.Next;
    if k < |events| {
      HistoryIsRun(sites, events, analyse, k + 1);
      assert Steps(sites[k], events[k], analyse, sites[k + 1]);
      assert events[k..][0] == events[k] && events[k..][1..] == events[k + 1..];
    }
  }

  // ---------------------------------------------------------------------------------------------
  // What holds on every run
  // ---------------------------------------------------------------------------------------------

  /**
   * On every run: the predictions made are those of the connections that have sent a whole prediction
   * request on which nothing threw, each once; the store is the one that their texts leave, and its
   * values are exactly these texts, as often as they were made, if and only if there are at most 2^32.
   */
  lemma StoreHoldsPredictions<C>(sites: seq<Site<C>>, events: seq<L.Event<C>>, analyse: Pipeline)
    requires IsHistory(sites, events, analyse)
    ensures var s := sites[|events|];
      && s.store == Stored(s.texts) && |s.made| == |s.texts|
      && (forall i, j :: 0 <= i < j < |s.made| ==> s.made[i] != s.made[j])
      && (forall c :: c in s.world.conns ==> Safe(s.world.conns[c].start))
      && (forall c :: c in s.made <==> c in s.world.conns && TextOf(s.world.conns[c], analyse).Some?)
      && (forall i :: 0 <= i < |s.made| ==> TextOf(s.world.conns[s.made[i]], analyse) == Some(s.texts[i]))
      && (Values(s.store.history) == multiset(s.texts) <==> |s.texts| <= 4294967296)
  {
    hide IsHistory, Feed, TextOf, SentFits, HasRaised, Complete, Stored, Values, L.WorldOk, CrashOk;
    HistoryTruthful(sites, events, analyse, |events|);
    var s := sites[|events|];
    assert forall c :: c in s.world.conns ==> TalkOk(s, analyse, c);
    PredictionsListed(s.texts);
  }

  /**
   * On every run, the loop has ended by an exception if and only if some connection has sent a
   * Content-Length that is no number, or a prediction whose images cannot be decoded or analysed.
   */
  lemma CrashedExactly<C>(sites: seq<Site<C>>, events: seq<L.Event<C>>, analyse: Pipeline)
    requires IsHistory(sites, events, analyse)
    ensures var w := sites[|events|].world;
      && (forall c :: c in w.conns ==> Safe(w.conns[c].start))
      && (w.crashed <==> exists c :: c in w.conns && HasRaised(w.conns[c], analyse))
  {
    hide IsHistory, HasRaised, SentFits, TextOf, Complete, L.WorldOk, MadeOk;
    HistoryTruthful(sites, events, analyse, |events|);
    assert forall c :: c in sites[|events|].world.conns ==> TalkOk(sites[|events|], analyse, c);
  }

  /** The connection completes its request in this step, which changes the store as the request says. */
  ghost predicate AskedBetween<C>(s: Site<C>, t: Site<C>, analyse: Pipeline, c: C) {
    && c in s.world.conns && c in t.world.conns
    && Safe(s.world.conns[c].start) && !Complete(s.world.conns[c])
    && Safe(t.world.conns[c].start) && Complete(t.world.conns[c])
    && t.store == StoreAfter(t.world.conns[c].parser.request, analyse, s.store)
  }

  /** What a connection has received and sent, and its request, are still the same. */
  ghost predicate TalkStays<C>(s: Site<C>, t: Site<C>, c: C) {
    c in s.world.conns && c in t.world.conns && L.SameTalk(s.world.conns[c], t.world.conns[c])
  }

  lemma TalkStaysOn<C>(s: Site<C>, t: Site<C>, u: Site<C>, c: C)
    requires TalkStays(s, t, c) && TalkStays(t, u, c)
    ensures TalkStays(s, u, c)
  {
  }

  lemma AskedByStep<C>(s: Site<C>, e: L.Event<C>, analyse: Pipeline, t: Site<C>, c: C)
    requires Truthful(s, analyse) && Steps(s, e, analyse, t) && c in t.asked
    ensures (c in s.asked && t.asked[c] == s.asked[c] && TalkStays(s, t, c))
            || (t.asked[c] == s.store && AskedBetween(s, t, analyse, c))
  {
    hide Feed, L.Next, L.Enabled, L.WorldOk, L.SameTalk, L.ReadsData, Complete, SentFits, TextOf, HasRaised, ReportOf,
         StoreSteps, RecordedBy, MadeOk, CrashOk, StoreAfter;
    if L.ReadsData(s.world, e) && e.ReadRuns? && e.c == c {
      OwnConnection(s.world, e);
      ReadStep(s, e, analyse, t);
      assert TalkOk(s, analyse, c);
    } else {
      CallsItself(s.world, e, c);
      assert c in s.asked.Keys;
      L.TalkKept(s.world, e, c);
    }
  }

  lemma OwnConnection<C>(w: L.World<C>, e: L.Event<C>)
    requires L.ReadsData(w, e)
    ensures e.ReadRuns? && e.c in w.conns
  {
  }

  lemma CallsItself<C>(w: L.World<C>, e: L.Event<C>, c: C)
    requires !(L.ReadsData(w, e) && e.ReadRuns? && e.c == c)
    ensures !(L.ReadsData(w, e) && e.c == c)
    ensures Calls(w, e) ==> e.ReadRuns? && e.c != c
  {
  }

  /**
   * Whoever is recorded as having asked has completed its request in exactly such a step, and neither
   * the request nor what was sent for it has changed since.
   */
  lemma {:induction false} AskedInStep<C>(sites: seq<Site<C>>, events: seq<L.Event<C>>, analyse: Pipeline, n: nat, c: C)
    returns (k: nat)
    requires IsHistory(sites, events, analyse) && n <= |events| && c in sites[n].asked && c in sites[n].world.conns
    ensures k < n && AskedBetween(sites[k], sites[k + 1], analyse, c) && sites[n].asked[c] == sites[k].store
    ensures TalkStays(sites[k + 1], sites[n], c)
  {
    hide Truthful, Steps, AskedBetween, TalkStays, Starts;
    if n == 0 {
      NobodyAsked(sites[0]);
    } else {
      HistoryTruthful(sites, events, analyse, n - 1);
      AskedByStep(sites[n - 1], events[n - 1], analyse, sites[n], c);
      if c in sites[n - 1].asked && sites[n].asked[c] == sites[n - 1].asked[c] && TalkStays(sites[n - 1], sites[n], c) {
        StillThere(sites[n - 1], sites[n], c);
        k := AskedInStep(sites, events, analyse, n - 1, c);
        TalkStaysOn(sites[k + 1], sites[n - 1], sites[n], c);
      } else {
        k := n - 1;
        StaysItself(sites[n], c);
      }
    }
  }

  lemma NobodyAsked<C>(s: Site<C>)
    requires Starts(s)
    ensures s.asked == map[]
  {
  }

  lemma StillThere<C>(s: Site<C>, t: Site<C>, c: C)
    requires TalkStays(s, t, c)
    ensures c in s.world.conns
  {
  }

  lemma StaysItself<C>(s: Site<C>, c: C)
    requires c in s.world.conns
    ensures TalkStays(s, s, c)
  {
  }

  lemma WorldOfTruthful<C>(s: Site<C>, analyse: Pipeline)
    requires Truthful(s, analyse)
    ensures L.WorldOk(s.world)
  {
  }

  /**
   * On every run, what has been sent for a complete request is what its route says of the store as it
   * was when the request became complete; and that step has changed the store as the request says.
   */
  lemma AnsweredFromStore<C>(sites: seq<Site<C>>, events: seq<L.Event<C>>, analyse: Pipeline, c: C) returns (k: nat)
    requires IsHistory(sites, events, analyse) && c in sites[|events|].world.conns
    requires IsStart(sites[|events|].world.conns[c].start) && Complete(sites[|events|].world.conns[c])
    ensures k < |events| && AskedBetween(sites[k], sites[k + 1], analyse, c)
    ensures SentFits(sites[|events|].world.conns[c], analyse, sites[k].store)
    ensures sites[k + 1].store ==
            StoreAfter(sites[|events|].world.conns[c].parser.request, analyse, sites[k].store)
  {
    hide IsHistory, Complete, SentFits, HasRaised, TextOf, L.WorldOk, MadeOk, CrashOk, StoreAfter;
    HistoryTruthful(sites, events, analyse, |events|);
    assert TalkOk(sites[|events|], analyse, c);
    k := AskedInStep(sites, events, analyse, |events|, c);
  }

  /**
   * On every run, a complete request that asks neither for the history nor for a prediction whose body
   * can be split has been sent the 400 reply and nothing else, and has left the store as it was.
   */
  lemma UnroutedRefused<C>(sites: seq<Site<C>>, events: seq<L.Event<C>>, analyse: Pipeline, c: C) returns (k: nat)
    requires IsHistory(sites, events, analyse) && c in sites[|events|].world.conns
    requires IsStart(sites[|events|].world.conns[c].start) && Complete(sites[|events|].world.conns[c])
    requires !IsRouted(sites[|events|].world.conns[c].parser.request)
    ensures k < |events| && AskedBetween(sites[k], sites[k + 1], analyse, c)
    ensures sites[|events|].world.conns[c].sent == [StockReply(BadRequest)]
    ensures sites[k + 1].store == sites[k].store
  {
    hide Steps, Starts, Complete, RouteOf, IsRouted, AskedBetween, StockReply, Prediction, IsListing, WithLength;
    RouteExact(sites[|events|].world.conns[c].parser.request);
    k := AnsweredFromStore(sites, events, analyse, c);
  }

  /**
   * On every run, a connection that has asked for the history has been sent the texts of exactly the
   * predictions that were made before its request was complete, as long as there were at most 2^32;
   * and it has left the store as it was.
   */
  lemma HistoryListed<C>(sites: seq<Site<C>>, events: seq<L.Event<C>>, analyse: Pipeline, c: C)
    returns (k: nat, records: seq<string>)
    requires IsHistory(sites, events, analyse) && c in sites[|events|].world.conns
    requires IsStart(sites[|events|].world.conns[c].start) && Complete(sites[|events|].world.conns[c])
    requires RouteOf(sites[|events|].world.conns[c].parser.request).ListHistory?
    ensures k < |events| && AskedBetween(sites[k], sites[k + 1], analyse, c)
    ensures multiset(records) == Values(sites[k].store.history)
    ensures |sites[k].texts| <= 4294967296 ==> multiset(records) == multiset(sites[k].texts)
    ensures sites[|events|].world.conns[c].sent == [WithLength(Ok, Concat(records), "application/json")]
    ensures sites[k + 1].store == sites[k].store
  {
    hide Steps, Starts, Complete, RouteOf, Values, WithLength, AskedBetween, Truthful, Concat;
    k := AnsweredFromStore(sites, events, analyse, c);
    var sent := sites[|events|].world.conns[c].sent;
    records :| multiset(records) == Values(sites[k].store.history) && sent[0].content == Concat(records);
    HistoryTruthful(sites, events, analyse, k);
    StoreOfTruthful(sites[k], analyse);
    PredictionsListed(sites[k].texts);
  }

  /** The bytes of what has been sent begin with this line. */
  predicate Begins(sent: seq<ReplyData>, line: string) {
    sent != [] && line <= Wire(sent[0])
  }

  lemma OneLine(sent: seq<ReplyData>)
    ensures sent == [] ==> !Begins(sent, "HTTP/1.0 200 OK\r\n") && !Begins(sent, "HTTP/1.0 400 Bad Request\r\n")
    ensures sent != [] && sent[0].status == Ok ==>
              Begins(sent, "HTTP/1.0 200 OK\r\n") && !Begins(sent, "HTTP/1.0 400 Bad Request\r\n")
    ensures sent != [] && sent[0].status == BadRequest ==>
              Begins(sent, "HTTP/1.0 400 Bad Request\r\n") && !Begins(sent, "HTTP/1.0 200 OK\r\n")
  {
    hide Wire;
    if sent != [] {
      FirstLines(sent[0]);
      assert "HTTP/1.0 200 OK\r\n"[9] == '2' && "HTTP/1.0 400 Bad Request\r\n"[9] == '4';
    }
  }

  /** The statuses of what has been sent for a complete request. */
  lemma StatusFits(c: L.Conn, analyse: Pipeline, store: Store)
    requires SentFits(c, analyse, store)
    ensures c.sent == [] <==> Raises(c.parser.request, analyse)
    ensures c.sent != [] ==> |c.sent| == 1 && c.sent[0].status == if IsRouted(c.parser.request) then Ok else BadRequest
    ensures !IsRouted(c.parser.request) ==> !Raises(c.parser.request, analyse)
  {
    hide RouteOf, IsRouted, Prediction, IsListing, StockContent;
    RouteExact(c.parser.request);
  }

  /**
   * On every run, the first line that has been sent: 400 if and only if the bytes received are refused
   * or hold a complete request for neither route, 200 if and only if they hold one that is served, and
   * nothing as long as a part is missing or when an exception has left the loop.
   */
  lemma FirstLineSent<C>(sites: seq<Site<C>>, events: seq<L.Event<C>>, analyse: Pipeline, c: C)
    requires IsHistory(sites, events, analyse) && c in sites[|events|].world.conns
    ensures Safe(sites[|events|].world.conns[c].start)
    ensures var conn := sites[|events|].world.conns[c];
      var verdict, req := Feed(conn.start, conn.received).verdict, conn.parser.request;
      && |conn.sent| <= 1
      && (Begins(conn.sent, "HTTP/1.0 400 Bad Request\r\n")
          <==> verdict == Rejected || (verdict == Accepted && !IsRouted(req)))
      && (Begins(conn.sent, "HTTP/1.0 200 OK\r\n")
          <==> verdict == Accepted && IsRouted(req) && !Raises(req, analyse))
      && (conn.sent == []
          <==> verdict == NeedMore || verdict == Thrown || (verdict == Accepted && Raises(req, analyse)))
  {
    hide IsHistory, SentFits, HasRaised, TextOf, MadeOk, CrashOk, RouteOf, IsRouted, Raises, Feed, Begins, StockContent,
         L.RunningOk, L.StoppedOk, L.OutstandingOk, L.IsReply;
    HistoryTruthful(sites, events, analyse, |events|);
    var s := sites[|events|];
    assert TalkOk(s, analyse, c) && L.ConnOk(s.world.conns[c]);
    OneLine(s.world.conns[c].sent);
    if c in s.asked {
      StatusFits(s.world.conns[c], analyse, s.asked[c]);
    }
  }

  lemma StoreOfTruthful<C>(s: Site<C>, analyse: Pipeline)
    requires Truthful(s, analyse)
    ensures s.store == Stored(s.texts)
  {
  }
}
