/** Handling one complete request: the route, the reply, and what is stored. */
module RequestHandler {
  import opened Text
  import opened Base64
  import opened LineBreaks
  import opened RequestParser
  import opened UrlCodec
  import opened Multipart
  import opened Reply
  import opened History

  // ---------------------------------------------------------------------------------------------
  // Specification
  // ---------------------------------------------------------------------------------------------

  datatype Route = Refuse | Predict(images: map<string, string>) | ListHistory

  /** The boundary after these headers: the last Content-Type wins, but each must name a boundary. */
  function BoundaryFrom(headers: seq<Header>, boundary: string): Option<string>
    decreases |headers|
  {
    if headers == [] then Some(boundary)
    else if headers[0].name != "Content-Type" then BoundaryFrom(headers[1..], boundary)
    else
      match BoundaryIn(headers[0].value)
      case None => None
      case Some(b) => BoundaryFrom(headers[1..], b)
  }

  function ImagesOf(req: RequestData): Option<map<string, string>> {
    match BoundaryFrom(req.headers, "")
    case None => None
    case Some(boundary) => if boundary == "" then None else ImagesIn(boundary, req.jsonData)
  }

  predicate PathOk(path: string) {
    path != "" && path[0] == '/' && Find(path, "..", 0).None?
  }

  function RouteOf(req: RequestData): Route {
    match UrlDecode(req.uri)
    case None => Refuse
    case Some(path) =>
      if !PathOk(path) then Refuse
      else if path == "/predict" then
        (match ImagesOf(req) case None => Refuse case Some(images) => Predict(images))
      else if path == "/history" then ListHistory
      else Refuse
  }

  /** The bytes of every image, or None when the text of one of them cannot be decoded. */
  function DecodeAll(images: map<string, string>): Option<map<string, seq<Byte>>> {
    if forall name :: name in images ==> DecodeLines(images[name]).Some? then
      Some(map name | name in images :: DecodeLines(images[name]).value)
    else None
  }

  /** The inference pipeline with the combination of its results; None when it throws. */
  type Pipeline = map<string, seq<Byte>> -> Option<string>

  function Prediction(images: map<string, string>, analyse: Pipeline): Option<string> {
    match DecodeAll(images)
    case None => None
    case Some(files) => analyse(files)
  }

  /** A history reply: every stored text once, in some order. */
  ghost predicate IsListing(text: string, history: map<string, string>) {
    exists records :: multiset(records) == Values(history) && text == Concat(records)
  }

  /** How the handler may answer a request: only the order of a listing is left open. */
  ghost predicate AnswerFits(req: RequestData, analyse: Pipeline, store: Store, answer: Answer) {
    match RouteOf(req)
    case Refuse => answer == Refused
    case ListHistory => answer.Completed? && IsListing(answer.text, store.history)
    case Predict(images) =>
      match Prediction(images, analyse)
      case None => answer == Threw
      case Some(json) => answer == Completed(json)
  }

  /** The text that a request's prediction stores, if it is one and does not throw. */
  function Recorded(req: RequestData, analyse: Pipeline): Option<string> {
    match RouteOf(req)
    case Predict(images) => Prediction(images, analyse)
    case _ => None
  }

  /** The store after a request: only a prediction changes it, by one record. */
  function StoreAfter(req: RequestData, analyse: Pipeline, store: Store): Store {
    match Recorded(req, analyse)
    case None => store
    case Some(json) => AfterJob(store, json)
  }

  /** What a read does to the store: nothing, unless it completes a request. */
  ghost predicate Handled(report: Report, analyse: Pipeline, before: Store, answer: Answer, after: Store) {
    if report.verdict == Accepted then
      && AnswerFits(report.config.request, analyse, before, answer)
      && after == StoreAfter(report.config.request, analyse, before)
    else
      after == before
  }

  // ---------------------------------------------------------------------------------------------
  // The routes, in what the request holds
  // ---------------------------------------------------------------------------------------------

  lemma NoDotsFound(path: string)
    requires forall i :: 0 <= i < |path| ==> path[i] != '.'
    ensures Find(path, "..", 0).None?
  {
    hide Find;
    forall j: nat
      ensures !OccursAt(path, "..", j)
    {
      if j < |path| {
        Differs(path, "..", j, 0);
      }
    }
    FindFirst(path, "..", 0);
  }

  lemma PathsOk()
    ensures PathOk("/predict") && PathOk("/history") && "/predict" != "/history"
  {
    hide Find;
    NoDotsFound("/predict");
    NoDotsFound("/history");
    assert "/predict"[1] != "/history"[1];
  }

  /** The last Content-Type header names this boundary, and every other one names some. */
  predicate NamesBoundary(headers: seq<Header>, boundary: string) {
    && (forall i :: 0 <= i < |headers| && headers[i].name == "Content-Type" ==> BoundaryIn(headers[i].value).Some?)
    && exists i :: 0 <= i < |headers| && headers[i].name == "Content-Type"
                   && BoundaryIn(headers[i].value) == Some(boundary)
                   && forall j :: i < j < |headers| ==> headers[j].name != "Content-Type"
  }

  predicate HasContentType(headers: seq<Header>) {
    exists i :: 0 <= i < |headers| && headers[i].name == "Content-Type"
  }

  /** Which boundary the headers name, if any. */
  lemma {:induction false} BoundaryFromExact(headers: seq<Header>, before: string, boundary: string)
    ensures BoundaryFrom(headers, before) == Some(boundary)
            <==> NamesBoundary(headers, boundary) || (!HasContentType(headers) && boundary == before)
    decreases |headers|
  {
    hide BoundaryIn;
    if headers != [] {
      var rest := headers[1..];
      RestOfHeaders(headers);
      if headers[0].name != "Content-Type" {
        BoundaryFromExact(rest, before, boundary);
        FirstIsOther(headers, boundary);
      } else {
        if BoundaryIn(headers[0].value).Some? {
          BoundaryFromExact(rest, BoundaryIn(headers[0].value).value, boundary);
        }
        FirstIsContentType(headers, boundary);
      }
    }
  }

  lemma RestOfHeaders(headers: seq<Header>)
    requires headers != []
    ensures forall i :: 0 <= i < |headers| - 1 ==> headers[1..][i] == headers[i + 1]
    ensures forall i :: 1 <= i < |headers| ==> headers[i] == headers[1..][i - 1]
  {
  }

  lemma FirstIsOther(headers: seq<Header>, boundary: string)
    requires headers != [] && headers[0].name != "Content-Type"
    ensures HasContentType(headers) <==> HasContentType(headers[1..])
    ensures NamesBoundary(headers, boundary) <==> NamesBoundary(headers[1..], boundary)
  {
    hide BoundaryIn;
    RestOfHeaders(headers);
  }

  lemma FirstIsContentType(headers: seq<Header>, boundary: string)
    requires headers != [] && headers[0].name == "Content-Type"
    ensures HasContentType(headers)
    ensures NamesBoundary(headers, boundary) <==>
      && BoundaryIn(headers[0].value).Some?
      && (NamesBoundary(headers[1..], boundary)
          || (!HasContentType(headers[1..]) && BoundaryIn(headers[0].value) == Some(boundary)))
  {
    hide BoundaryIn;
    RestOfHeaders(headers);
  }

  /** A request whose target is one of the two routes, and for a prediction with a body that can be split. */
  predicate IsPrediction(req: RequestData, boundary: string, images: map<string, string>) {
    && UrlDecode(req.uri) == Some("/predict")
    && boundary != "" && NamesBoundary(req.headers, boundary) && ImagesIn(boundary, req.jsonData) == Some(images)
  }

  ghost predicate IsRouted(req: RequestData) {
    UrlDecode(req.uri) == Some("/history") || exists boundary, images :: IsPrediction(req, boundary, images)
  }

  /** The routes, exactly: everything else is refused. */
  lemma RouteExact(req: RequestData)
    ensures RouteOf(req) == ListHistory <==> UrlDecode(req.uri) == Some("/history")
    ensures forall images :: RouteOf(req) == Predict(images) <==> exists boundary :: IsPrediction(req, boundary, images)
    ensures RouteOf(req) == Refuse <==> !IsRouted(req)
  {
    hide UrlDecode, ImagesIn, BoundaryFrom, NamesBoundary, PathOk, HasContentType;
    PathsOk();
    forall boundary
      ensures BoundaryFrom(req.headers, "") == Some(boundary) && boundary != "" <==>
              NamesBoundary(req.headers, boundary) && boundary != ""
    {
      BoundaryFromExact(req.headers, "", boundary);
    }
    forall images
      ensures RouteOf(req) == Predict(images) <==> exists boundary :: IsPrediction(req, boundary, images)
    {
      if RouteOf(req) == Predict(images) {
        var boundary := BoundaryFrom(req.headers, "").value;
        assert IsPrediction(req, boundary, images);
      }
    }
  }

  // ---------------------------------------------------------------------------------------------
  // The methods
  // ---------------------------------------------------------------------------------------------

  method FindBoundary(headers: seq<Header>) returns (ok: bool, boundary: string)
    ensures BoundaryFrom(headers, "") == if ok then Some(boundary) else None
  {
    hide BoundaryIn;
    ok, boundary := true, "";
    for i := 0 to |headers|
      invariant ok && BoundaryFrom(headers, "") == BoundaryFrom(headers[i..], boundary)
    {
      assert headers[i..][1..] == headers[i + 1..];
      if headers[i].name == "Content-Type" {
        ok, boundary := RetrieveMultipartBoundary(headers[i].value);
        if !ok {
          return;
        }
      }
    }
  }

  method DecodeImages(images: map<string, string>) returns (r: Option<map<string, seq<Byte>>>)
    ensures r == DecodeAll(images)
  {
    hide DecodeLines;
    var files: map<string, seq<Byte>> := map[];
    var rest := images.Keys;
    while rest != {}
      invariant rest <= images.Keys && files.Keys == images.Keys - rest
      invariant forall name :: name in files ==> DecodeLines(images[name]) == Some(files[name])
      decreases rest
    {
      var name :| name in rest;
      var decoded := DecodeTextLines(images[name]);
      if decoded.None? {
        return None;
      }
      files := files[name := decoded.value];
      rest := rest - {name};
    }
    assert files == map name | name in images :: DecodeLines(images[name]).value;
    r := Some(files);
  }

  /** The record that a prediction leaves in the store. */
  method SaveResult(store: HistoryStorage, json: string)
    requires store.Valid()
    modifies store
    ensures store.Valid() && store.View() == AfterJob(old(store.View()), json)
  {
    var handle := store.GenerateHandle();
    var _ := store.Save(handle, json);
  }

  /** `handle_request`: `thrown` when an exception leaves it. */
  method HandleRequest(req: Request, rep: ReplyObject, store: HistoryStorage, analyse: Pipeline)
    returns (thrown: bool, ghost answer: Answer)
    requires store.Valid()
    modifies rep, store
    ensures store.Valid() && thrown == answer.Threw?
    ensures AnswerFits(req.Data(), analyse, old(store.View()), answer)
    ensures rep.Data() == Answered(old(rep.Data()), answer)
    ensures store.View() == StoreAfter(req.Data(), analyse, old(store.View()))
  {
    hide UrlDecode, ImagesIn, BoundaryFrom, DecodeAll, Find, StockReply, WithLength, AfterJob;
    thrown, answer := false, Refused;
    var ok, path := UrlCodec.Decode(req.uri);
    if !ok {
      rep.SetStockReply(BadRequest);
      return;
    }
    if path == "" || path[0] != '/' || Find(path, "..", 0).Some? {
      rep.SetStockReply(BadRequest);
      return;
    }
    if path == "/predict" {
      var boundary;
      ok, boundary := FindBoundary(req.headers);
      if !ok || boundary == "" {
        rep.SetStockReply(BadRequest);
        return;
      }
      var images;
      ok, images := RetrieveImages(boundary, req.jsonData);
      if !ok {
        rep.SetStockReply(BadRequest);
        return;
      }
      var files := DecodeImages(images);
      if files.None? {
        return true, Threw;
      }
      var json := analyse(files.value);
      if json.None? {
        return true, Threw;
      }
      SaveResult(store, json.value);
      rep.Complete(json.value);
      answer := Completed(json.value);
    } else if path == "/history" {
      var records;
      ok, records := store.GetAll();
      var texts := ListValues(records);
      var content := ConcatTexts(texts);
      rep.Complete(content);
      answer := Completed(content);
    } else {
      rep.SetStockReply(BadRequest);
    }
  }

  method ConcatTexts(texts: seq<string>) returns (content: string)
    ensures content == Concat(texts)
  {
    content := "";
    for i := 0 to |texts|
      invariant content == Concat(texts[..i])
    {
      ConcatLast(texts[..i], [texts[i]]);
      assert texts[..i + 1] == texts[..i] + [texts[i]];
      ConcatFirst([texts[i]]);
      content := content + texts[i];
    }
    assert texts[..|texts|] == texts;
  }
}
