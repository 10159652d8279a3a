/** From a request to the document it is answered with: routing, reading and rendering put together. */
module Serving {
  import opened Text
  import opened Database
  import opened UriTemplates
  import opened Completeness
  import Routing
  import PublicApi
  import DataService
  import PropertyTree
  import Ingest
  import Fidelity
  import Archive
  import LateStamp
  import opened DbTables

  datatype Response =
    | Document(tree: PropertyTree.Tree)
    | NoSuchDate | NothingStored | ServerError
    | TokenIssued(format: PublicApi.Format)
    | Refused(reply: PublicApi.Reply)

  function OutputOf(format: PublicApi.Format): PropertyTree.OutputType {
    if format.JSON? then PropertyTree.JSON else PropertyTree.XML
  }

  function Rendered(format: PublicApi.Format, reply: DataService.Reply): Response {
    match reply
    case Fault => ServerError
    case Empty => NothingStored
    case NotFound => NoSuchDate
    case Data(content) => Document(PropertyTree.DataTree(OutputOf(format), content))
  }

  /** What a dispatched request is answered with, given the stored tables. */
  function Respond(db: Tables, answer: PublicApi.Reply): Response {
    match answer
    case Serve(e, date) =>
      (match e.operation
       case DataByDate => Rendered(e.format, DataService.DataByDate(db, date))
       case LatestData => Rendered(e.format, DataService.LatestData(db))
       case Token => TokenIssued(e.format))
    case _ => Refused(answer)
  }

  method Render(format: PublicApi.Format, reply: DataService.Reply) returns (response: Response)
    ensures response == Rendered(format, reply)
  {
    match reply
    case Fault => response := ServerError;
    case Empty => response := NothingStored;
    case NotFound => response := NoSuchDate;
    case Data(c) =>
      var tree := PropertyTree.GetDataTree(OutputOf(format), c.date, c.time, c.titles, c.data);
      response := Document(tree);
  }

  /** One request, from its URI to its document. */
  method Handle(resource: PublicApi.PublicAPIResource, db: DB, uri: string, isValidToken: string -> bool)
    returns (response: Response)
    requires resource.ServiceContractPtr.Contracts == Routing.Registered(PublicApi.TEMPLATES)
    ensures response == Respond(db.tables, PublicApi.Answer(uri, isValidToken))
  {
    hide Routing.Registered, PublicApi.Answer;
    var answer := resource.HandleRequest(uri, isValidToken);
    if !answer.Serve? {
      response := Refused(answer);
    } else if answer.endpoint.operation.Token? {
      response := TokenIssued(answer.endpoint.format);
    } else {
      var reply;
      if answer.endpoint.operation.DataByDate? {
        reply := DataService.GetDataByDate(db, answer.date);
      } else {
        reply := DataService.GetLatestData(db);
      }
      response := Render(answer.endpoint.format, reply);
    }
  }

  // ---------- What clients read ----------

  /** The shape of a document: nameless titles, rows and cells in JSON, elements n, r and c in XML; and the version. */
  ghost predicate IsInFormat(t: PropertyTree.Tree, format: PublicApi.Format) {
    (format.JSON? ==> PropertyTree.IsNamed(t, "", "", "")) && (format.XML? ==> PropertyTree.IsNamed(t, "n", "r", "c")) &&
    PropertyTree.Get(t, ["StockMarket", "version", "major"]) == Some(PropertyTree.Leaf("1")) &&
    PropertyTree.Get(t, ["StockMarket", "version", "minor"]) == Some(PropertyTree.Leaf("0"))
  }

  lemma RenderedInFormat(format: PublicApi.Format, content: DataService.Content)
    requires !format.Plain?
    ensures var t := PropertyTree.DataTree(OutputOf(format), content);
            PropertyTree.ReadTree(t) == Some(content) && IsInFormat(t, format)
  {
    hide PropertyTree.DataTree, PropertyTree.Get, PropertyTree.IsNamed, PropertyTree.ReadTree;
    PropertyTree.TreeCarriesContent(OutputOf(format), content);
    PropertyTree.TreeIsNamed(OutputOf(format), content);
    PropertyTree.TreeStatesVersion(OutputOf(format), content);
  }

  lemma DateIdIsGoodPart(date: string)
    requires date != ""
    ensures GoodPart(DateId(date))
  {
    assert forall i :: 0 <= i < |date| ==> DateId(date)[i] != '/';
  }

  lemma DataUri(format: PublicApi.Format, date: string, token: string)
    ensures var e := PublicApi.Endpoint(PublicApi.DataByDate, format);
            Instantiate(e.Segments(), [date, token]) == e.Key() + "/" + date + "/" + token
    ensures var e := PublicApi.Endpoint(PublicApi.LatestData, format);
            Instantiate(e.Segments(), [token]) == e.Key() + "/" + token
  {
    assert [date, token][1..] == [token] && [token][1..] == [];
    assert Tail([token]) == "/" + token;
    assert Tail([date, token]) == "/" + date + Tail([token]);
    var e, l := PublicApi.Endpoint(PublicApi.DataByDate, format), PublicApi.Endpoint(PublicApi.LatestData, format);
    PublicApi.EndpointTemplate(e);
    PublicApi.EndpointTemplate(l);
    hide Template, Literals, Tail, PublicApi.Endpoint.Key, PublicApi.Endpoint.Segments;
    assert e.Key() + ("/" + date + ("/" + token)) == e.Key() + "/" + date + "/" + token;
    assert l.Key() + ("/" + token) == l.Key() + "/" + token;
  }

  /** A client that asks with a valid token for a date replaced at any earlier point of a run of well-formed
      workbooks reads, in either format, exactly what GetLatestData returned just before the date was first
      replaced. */
  lemma ReplacedDateIsServed(bs: seq<Ingest.Workbook>, i: nat, j: nat, d: string, format: PublicApi.Format,
                             token: string, isValidToken: string -> bool)
    requires AllWellDated(bs) && i + 1 < j <= |bs| && ReplacedAt(bs, i, d) && !WasReplaced(bs, i + 1, d) && d != ""
    requires !format.Plain? && GoodPart(token) && isValidToken(token)
    ensures var uri := PublicApi.Endpoint(PublicApi.DataByDate, format).Key() + "/" + DateId(d) + "/" + token;
            var response := Respond(DbAt(bs, j), PublicApi.Answer(uri, isValidToken));
            var shown := DataService.LatestData(DbAt(bs, i + 1));
            response.Document? && shown.Data? && PropertyTree.ReadTree(response.tree) == Some(shown.content) &&
            IsInFormat(response.tree, format)
  {
    hide DateId, DateOfBook, DbAt, WasReplaced, DataService.LatestData, DataService.DataByDate, PropertyTree.ReadTree;
    hide PublicApi.Answer, Instantiate, PublicApi.Endpoint.Key, PublicApi.Endpoint.Segments, PropertyTree.DataTree, IsInFormat;
    var dateId := DateId(d);
    ArchiveShowsFirst(bs, i, j, d);
    DateIdIsGoodPart(d);
    DataUri(format, dateId, token);
    PublicApi.RequestRoundTrip(if format.JSON? then 0 else 1, [dateId, token], isValidToken);
    RenderedInFormat(format, DataService.LatestData(DbAt(bs, i + 1)).content);
  }

  /** Directly after a committed Update of a well-formed workbook, under any faults, a client that asks for the
      latest data reads the content of that workbook. */
  lemma LatestIsServed(f: Faults, b: Ingest.Workbook, db: Tables, n: nat, format: PublicApi.Format, token: string,
                       isValidToken: string -> bool)
    requires Fidelity.WellFormed(b) && Ingest.UpdateOutcome(f, db, n, Some(b)).Committed?
    requires !format.Plain? && GoodPart(token) && isValidToken(token)
    ensures var uri := PublicApi.Endpoint(PublicApi.LatestData, format).Key() + "/" + token;
            var after := Ingest.UpdateOutcome(f, db, n, Some(b)).db;
            var response := Respond(after, PublicApi.Answer(uri, isValidToken));
            response.Document? && PropertyTree.ReadTree(response.tree) == Some(Fidelity.ContentOf(b)) &&
            IsInFormat(response.tree, format)
  {
    hide Fidelity.WellFormed, Ingest.UpdateOutcome, DataService.LatestData, PropertyTree.ReadTree, Fidelity.ContentOf;
    hide PublicApi.Answer, Instantiate, PublicApi.Endpoint.Key, PublicApi.Endpoint.Segments, PropertyTree.DataTree, IsInFormat;
    Fidelity.SheetFidelity(f, b, db, n);
    DataUri(format, "", token);
    PublicApi.RequestRoundTrip(if format.JSON? then 2 else 3, [token], isValidToken);
    RenderedInFormat(format, Fidelity.ContentOf(b));
  }

  // ---------- Every other reply ----------

  /** In every state with a good archive, a request for a date with a valid token is answered with the data of
      that date in the format asked for, exactly when the archive has the date, and else that there is none. */
  lemma {:induction false} DateIsServedOrUnknown(db: Tables, dateId: string, format: PublicApi.Format, token: string,
                                                 isValidToken: string -> bool)
    requires Archive.Good(db) && !format.Plain? && GoodPart(dateId) && GoodPart(token) && isValidToken(token)
    ensures var uri := PublicApi.Endpoint(PublicApi.DataByDate, format).Key() + "/" + dateId + "/" + token;
            var response := Respond(db, PublicApi.Answer(uri, isValidToken));
            var date := Replace(dateId, '-', '/');
            if exists r <- db[ARCHIVE].rows :: Archive.CellText(r, "date") == date
            then response.Document? && IsInFormat(response.tree, format) &&
                 PropertyTree.ReadTree(response.tree).Some? && PropertyTree.ReadTree(response.tree).value.date == date
            else response == NoSuchDate
  {
    hide *;
    ByDateResponse(db, dateId, format, token, isValidToken);
    Archive.DataByDateIsTotal(db, dateId);
    RenderedDate(format, DataService.DataByDate(db, dateId));
  }

  lemma RenderedDate(format: PublicApi.Format, reply: DataService.Reply)
    requires !format.Plain?
    ensures reply == DataService.NotFound ==> Rendered(format, reply) == NoSuchDate
    ensures reply.Data? ==> Rendered(format, reply).Document?
    ensures reply.Data? ==> IsInFormat(Rendered(format, reply).tree, format)
    ensures reply.Data? ==> PropertyTree.ReadTree(Rendered(format, reply).tree) == Some(reply.content)
  {
    hide PropertyTree.ReadTree, PropertyTree.DataTree, IsInFormat;
    if reply.Data? { RenderedInFormat(format, reply.content); }
  }

  lemma ByDateResponse(db: Tables, dateId: string, format: PublicApi.Format, token: string, isValidToken: string -> bool)
    requires !format.Plain? && GoodPart(dateId) && GoodPart(token) && isValidToken(token)
    ensures var uri := PublicApi.Endpoint(PublicApi.DataByDate, format).Key() + "/" + dateId + "/" + token;
            Respond(db, PublicApi.Answer(uri, isValidToken)) == Rendered(format, DataService.DataByDate(db, dateId))
  {
    hide DataService.DataByDate, PublicApi.Answer, Instantiate, PublicApi.Endpoint.Key, PublicApi.Endpoint.Segments, Rendered;
    DataUri(format, dateId, token);
    PublicApi.RequestRoundTrip(if format.JSON? then 0 else 1, [dateId, token], isValidToken);
  }

  /** Before anything was stored a request for the latest data ends in a server error. */
  lemma NothingToServe(format: PublicApi.Format, token: string, isValidToken: string -> bool)
    requires !format.Plain? && GoodPart(token) && isValidToken(token)
    ensures var uri := PublicApi.Endpoint(PublicApi.LatestData, format).Key() + "/" + token;
            Respond(Archive.INITIAL, PublicApi.Answer(uri, isValidToken)) == ServerError
  {
    LateStamp.InitialFaults();
    hide DataService.LatestData, PublicApi.Answer, Instantiate, PublicApi.Endpoint.Key, PublicApi.Endpoint.Segments;
    DataUri(format, "", token);
    PublicApi.RequestRoundTrip(if format.JSON? then 2 else 3, [token], isValidToken);
  }

  /** A token is issued in the format asked for, and no token is needed for it. */
  lemma TokenIsIssued(db: Tables, format: PublicApi.Format, isValidToken: string -> bool)
    requires !format.Plain?
    ensures var uri := PublicApi.Endpoint(PublicApi.Token, format).Key();
            Respond(db, PublicApi.Answer(uri, isValidToken)) == TokenIssued(format)
  {
    var e, i := PublicApi.Endpoint(PublicApi.Token, format), if format.JSON? then 4 else 5;
    assert e == PublicApi.EndpointAt(i) && |e.Parameters()| == 0 && GoodArguments([]);
    assert Respond(db, PublicApi.Serve(e, "")) == TokenIssued(format);
    hide *;
    TokenUri(format);
    PublicApi.RequestRoundTrip(i, [], isValidToken);
  }

  lemma TokenUri(format: PublicApi.Format)
    ensures var e := PublicApi.Endpoint(PublicApi.Token, format); Instantiate(e.Segments(), []) == e.Key()
  {
    var e := PublicApi.Endpoint(PublicApi.Token, format);
    hide Template, Literals, PublicApi.Endpoint.Key, PublicApi.Endpoint.Segments;
    PublicApi.EndpointTemplate(e);
    assert e.Key() + "" == e.Key();
  }

  /** With an invalid token neither kind of data is served, and the refusal is in the format asked for. */
  lemma InvalidTokenIsRefused(db: Tables, dateId: string, format: PublicApi.Format, token: string, isValidToken: string -> bool)
    requires !format.Plain? && GoodPart(dateId) && GoodPart(token) && !isValidToken(token)
    ensures var byDate := PublicApi.Endpoint(PublicApi.DataByDate, format).Key() + "/" + dateId + "/" + token;
            var latest := PublicApi.Endpoint(PublicApi.LatestData, format).Key() + "/" + token;
            Respond(db, PublicApi.Answer(byDate, isValidToken)) == Refused(PublicApi.InvalidToken(format)) &&
            Respond(db, PublicApi.Answer(latest, isValidToken)) == Refused(PublicApi.InvalidToken(format))
  {
    hide PublicApi.Answer, Instantiate, PublicApi.Endpoint.Key, PublicApi.Endpoint.Segments;
    DataUri(format, dateId, token);
    PublicApi.RequestRoundTrip(if format.JSON? then 0 else 1, [dateId, token], isValidToken);
    PublicApi.RequestRoundTrip(if format.JSON? then 2 else 3, [token], isValidToken);
  }
}
