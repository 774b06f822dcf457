/**
 * The codec, the life of connections and the store together: what the server does with the client's
 * bytes on every run, and what it answers.
 */
module Service {
  import opened Text
  import opened Decimal
  import opened RequestParser
  import opened RequestGrammar
  import opened RequestSoundness
  import opened Reply
  import opened ReplyBytes
  import opened History
  import opened RequestHandler
  import opened StoredRuns
  import opened MultipartBody
  import opened Client
  import opened EndToEnd
  import opened ClientNames
  import opened Base64
  import L = Lifecycle

  /** A part of a message that is not all of it neither completes a request nor is refused. */
  lemma PartOfMessage(start: Config, m: Message, s: string, rest: string)
    requires IsStart(start) && WellFormed(m) && Print(m) == s + rest && rest != ""
    ensures Feed(start, s).verdict == NeedMore
  {
    hide Feed, WellFormed, Print, Denote;
    RefusedForever(start, s, m, rest);
    if Feed(start, s).verdict == Accepted {
      var n, more := AcceptedWellFormed(start, s);
      ThreeParts(Print(n), more, rest);
      MessagesPrefixFree(n, m, more + rest);
      assert false;
    }
  }

  /**
   * On every run, and however the client's bytes reach a connection: as long as a part of a message
   * is missing, the request handler is not called and nothing is sent.
   */
  lemma NothingBeforeTheEnd<C>(w: L.World<C>, events: seq<L.Event<C>>, c: C, m: Message, rest: string)
    requires L.IsInitial(w) && L.IsRun(w, events) && c in L.After(w, events).conns
    requires WellFormed(m) && rest != "" && Print(m) == L.After(w, events).conns[c].received + rest
    ensures var conn := L.After(w, events).conns[c];
      conn.calls == 0 && conn.sent == []
  {
    hide Feed, WellFormed, Print, L.IsInitial, L.IsRun, L.After, L.OutstandingOk;
    L.InitialOk(w);
    L.AfterOk(w, events);
    var conn := L.After(w, events).conns[c];
    PartOfMessage(conn.start, m, conn.received, rest);
  }

  /**
   * On every run, a connection that has received a prediction request of the client, with or without
   * bytes after it, has called the request handler exactly once. The request that it has then takes
   * the prediction route with every image that was sent, and exactly the files that were sent if and
   * only if no name has a quote.
   */
  lemma PredictServed<C>(w: L.World<C>, events: seq<L.Event<C>>, c: C, files: seq<File>, after: string)
    requires L.IsInitial(w) && L.IsRun(w, events) && c in L.After(w, events).conns
    requires files != [] && NamesPrintable(files) && |Lines(BodyOf(files))| < WORD_LIMIT
    requires L.After(w, events).conns[c].received == Print(PredictMessage(files)) + after
    ensures var conn := L.After(w, events).conns[c];
      var route := RouteOf(conn.parser.request);
      && conn.calls == 1
      && route.Predict? && DecodeAll(route.images) == Some(FileMap(map[], Clipped(files)))
      && (DecodeAll(route.images) == Some(FileMap(map[], files))
          <==> forall i :: 0 <= i < |files| ==> Free(files[i].name, '"'))
  {
    hide Feed, Print, Lines, NamesPrintable, RouteOf, DecodeAll, FileMap, Clipped, L.IsInitial, L.IsRun, L.After,
         L.OutstandingOk;
    L.InitialOk(w);
    L.AfterOk(w, events);
    var conn := L.After(w, events).conns[c];
    OneChunk(conn.start, conn.received);
    PredictEndToEnd(conn.start, files, [conn.received], after);
  }

  /**
   * For arbitrary names: on every run, the request handler has been called, with exactly the files that
   * were sent, if and only if the names fit.
   */
  lemma FilesServedExactly<C>(w: L.World<C>, events: seq<L.Event<C>>, c: C, files: seq<File>, after: string)
    requires L.IsInitial(w) && L.IsRun(w, events) && c in L.After(w, events).conns
    requires |Lines(BodyOf(files))| < WORD_LIMIT
    requires L.After(w, events).conns[c].received == Print(PredictMessage(files)) + after
    ensures var conn := L.After(w, events).conns[c];
      conn.calls == 1 && Delivered(conn.parser.request, files)
      <==> NamesFit(files) && forall i :: 0 <= i < |files| ==> Framed(files[i].name)
  {
    hide Feed, Print, Lines, NamesFit, Delivered, Framed, L.IsInitial, L.IsRun, L.After, L.OutstandingOk;
    L.InitialOk(w);
    L.AfterOk(w, events);
    var conn := L.After(w, events).conns[c];
    OneChunk(conn.start, conn.received);
    DeliveredExactly(conn.start, files, [conn.received], after);
  }

  lemma OneChunk(start: Config, s: string)
    requires Safe(start)
    ensures Concat([s]) == s && FeedChunks(start, [s]) == Feed(start, s)
  {
    hide Feed, FeedChunks;
    assert Concat([s]) == s + "" == s;
    SegmentationIndependence(start, [s]);
  }

  // ---------------------------------------------------------------------------------------------
  // What the client is answered
  // ---------------------------------------------------------------------------------------------

  lemma HistoryStarts<C>(sites: seq<Site<C>>, events: seq<L.Event<C>>, analyse: Pipeline)
    requires IsHistory(sites, events, analyse)
    ensures |sites| == |events| + 1
    ensures L.IsInitial(sites[0].world) && L.IsRun(sites[0].world, events)
    ensures L.After(sites[0].world, events) == sites[|events|].world
  {
    hide Starts, Steps, L.IsRun, L.After;
    HistoryIsRun(sites, events, analyse, 0);
    assert events[0..] == events;
    FirstSite(sites[0]);
  }

  lemma FirstSite<C>(s: Site<C>)
    requires Starts(s)
    ensures L.IsInitial(s.world)
  {
  }

  lemma CalledOnce<C>(w: L.World<C>, events: seq<L.Event<C>>, c: C)
    requires L.IsInitial(w) && L.IsRun(w, events) && c in L.After(w, events).conns
    ensures IsStart(L.After(w, events).conns[c].start)
    ensures L.After(w, events).conns[c].calls == 1 <==> Complete(L.After(w, events).conns[c])
  {
    hide Feed, L.IsInitial, L.IsRun, L.After;
    L.OneReply(w, events, c);
  }

  /** The bytes that serve a text, and how the client finds the text again. */
  lemma JsonRecovered(json: string)
    ensures Wire(WithLength(Ok, json, "application/json")) == Served(json)
    ensures ContentOf(Served(json)) == Some(json)
  {
    hide ContentOf, Wire, ToDecimal, Served;
    ServedBytes(json);
    var r := WithLength(Ok, json, "application/json");
    DigitsAreLine(ToDecimal(|json|));
    assert IsLine("application/json") && IsLine("Content-Length") && IsLine("Content-Type");
    ContentRecovered(r);
  }

  /** What a connection has sent and the store has recorded for a prediction on these files. */
  ghost predicate AnsweredWith<C>(s: Site<C>, c: C, json: Option<string>)
    requires c in s.world.conns
  {
    match json
    case None => s.world.conns[c].sent == [] && c !in s.made
    case Some(text) =>
      && s.world.conns[c].sent == [WithLength(Ok, text, "application/json")]
      && Wire(s.world.conns[c].sent[0]) == Served(text) && ContentOf(Served(text)) == Some(text)
      && exists i :: 0 <= i < |s.made| == |s.texts| && s.made[i] == c && s.texts[i] == text
  }

  lemma AnsweredOnSite<C>(s: Site<C>, analyse: Pipeline, c: C, files: map<string, seq<Byte>>)
    requires Truthful(s, analyse) && c in s.world.conns
    requires IsStart(s.world.conns[c].start) && Complete(s.world.conns[c])
    requires var route := RouteOf(s.world.conns[c].parser.request);
      route.Predict? && DecodeAll(route.images) == Some(files)
    ensures AnsweredWith(s, c, analyse(files))
  {
    hide Feed, RouteOf, DecodeAll, Stored, ContentOf, Wire, Served, L.WorldOk, CrashOk, HasRaised, WithLength,
         Complete;
    assert TalkOk(s, analyse, c);
    if analyse(files).Some? {
      JsonRecovered(analyse(files).value);
    }
  }

  /**
   * On every run, what a connection that has received the client's prediction request has sent: the
   * text that the pipeline makes of the files, which the client finds again after the blank line and
   * which the store has recorded for this connection; and nothing if the pipeline throws.
   */
  lemma PredictAnswered<C>(sites: seq<Site<C>>, events: seq<L.Event<C>>, analyse: Pipeline, c: C, files: seq<File>,
                           after: string)
    requires IsHistory(sites, events, analyse) && c in sites[|events|].world.conns
    requires files != [] && NamesPrintable(files) && |Lines(BodyOf(files))| < WORD_LIMIT
    requires sites[|events|].world.conns[c].received == Print(PredictMessage(files)) + after
    ensures sites[|events|].world.conns[c].calls == 1
    ensures AnsweredWith(sites[|events|], c, analyse(FileMap(map[], Clipped(files))))
  {
    hide IsHistory, Complete, Print, Lines, NamesPrintable, RouteOf, DecodeAll, FileMap, Clipped, Truthful,
         AnsweredWith, L.IsInitial, L.IsRun, L.After;
    HistoryStarts(sites, events, analyse);
    HistoryTruthful(sites, events, analyse, |events|);
    PredictServed(sites[0].world, events, c, files, after);
    CalledOnce(sites[0].world, events, c);
    AnsweredOnSite(sites[|events|], analyse, c, FileMap(map[], Clipped(files)));
  }

  /** The same for arbitrary names that fit: the answer is the one for exactly the files that were sent. */
  lemma FilesAnswered<C>(sites: seq<Site<C>>, events: seq<L.Event<C>>, analyse: Pipeline, c: C, files: seq<File>,
                         after: string)
    requires IsHistory(sites, events, analyse) && c in sites[|events|].world.conns
    requires NamesFit(files) && |Lines(BodyOf(files))| < WORD_LIMIT
    requires forall i :: 0 <= i < |files| ==> Framed(files[i].name)
    requires sites[|events|].world.conns[c].received == Print(PredictMessage(files)) + after
    ensures sites[|events|].world.conns[c].calls == 1
    ensures AnsweredWith(sites[|events|], c, analyse(FileMap(map[], files)))
  {
    hide IsHistory, Complete, Print, Lines, NamesFit, Framed, RouteOf, DecodeAll, FileMap, Truthful, AnsweredWith,
         L.IsInitial, L.IsRun, L.After;
    HistoryStarts(sites, events, analyse);
    HistoryTruthful(sites, events, analyse, |events|);
    FilesServedExactly(sites[0].world, events, c, files, after);
    CalledOnce(sites[0].world, events, c);
    AnsweredOnSite(sites[|events|], analyse, c, FileMap(map[], files));
  }

  /**
   * On every run, a connection that has received the client's history request has been sent, and the
   * client finds after the blank line, every text that the store held in the step that completed the
   * request: up to 2^32 predictions, the texts of exactly those that were made before that step.
   */
  lemma HistoryAnswered<C>(sites: seq<Site<C>>, events: seq<L.Event<C>>, analyse: Pipeline, c: C, after: string)
    returns (k: nat, records: seq<string>)
    requires IsHistory(sites, events, analyse) && c in sites[|events|].world.conns
    requires sites[|events|].world.conns[c].received == Print(HistoryMessage()) + after
    ensures sites[|events|].world.conns[c].calls == 1
    ensures k < |events| && AskedBetween(sites[k], sites[k + 1], analyse, c)
    ensures multiset(records) == Values(sites[k].store.history)
    ensures |sites[k].texts| <= 4294967296 ==> multiset(records) == multiset(sites[k].texts)
    ensures sites[|events|].world.conns[c].sent == [WithLength(Ok, Concat(records), "application/json")]
    ensures Wire(sites[|events|].world.conns[c].sent[0]) == Served(Concat(records))
    ensures ContentOf(Served(Concat(records))) == Some(Concat(records))
  {
    hide IsHistory, Complete, Print, RouteOf, Values, AskedBetween, WithLength, ContentOf, Wire, Served, Concat,
         L.IsInitial, L.IsRun, L.After;
    HistoryStarts(sites, events, analyse);
    CalledOnce(sites[0].world, events, c);
    HistoryServed(sites[0].world, events, c, after);
    k, records := HistoryListed(sites, events, analyse, c);
    JsonRecovered(Concat(records));
  }

  /** On every run, the client's history request has been handled once and asks for the listing. */
  lemma HistoryServed<C>(w: L.World<C>, events: seq<L.Event<C>>, c: C, after: string)
    requires L.IsInitial(w) && L.IsRun(w, events) && c in L.After(w, events).conns
    requires L.After(w, events).conns[c].received == Print(HistoryMessage()) + after
    ensures L.After(w, events).conns[c].calls == 1
    ensures RouteOf(L.After(w, events).conns[c].parser.request) == ListHistory
  {
    hide Feed, Print, RouteOf, L.IsInitial, L.IsRun, L.After, L.OutstandingOk;
    L.InitialOk(w);
    L.AfterOk(w, events);
    var conn := L.After(w, events).conns[c];
    OneChunk(conn.start, conn.received);
    HistoryEndToEnd(conn.start, [conn.received], after);
  }
}
