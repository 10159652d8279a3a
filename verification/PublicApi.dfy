/** The six public URI templates and the request dispatch of PublicAPIResource::handleRequest. */
module PublicApi {
  import opened Text
  import opened ServiceContract
  import opened Routing
  import opened UriTemplates

  // The literals of the source, written in their parts.
  const DATA_BY_DATE_JSON := "StockMarket/" + "DataByDate" + "/" + "JSON" + "/{DATE}/{TOKEN}"
  const DATA_BY_DATE_XML := "StockMarket/" + "DataByDate" + "/" + "XML" + "/{DATE}/{TOKEN}"
  const LATEST_DATA_JSON := "StockMarket/" + "LatestData" + "/" + "JSON" + "/{TOKEN}"
  const LATEST_DATA_XML := "StockMarket/" + "LatestData" + "/" + "XML" + "/{TOKEN}"
  const TOKEN_JSON := "StockMarket/" + "Token" + "/" + "JSON"
  const TOKEN_XML := "StockMarket/" + "Token" + "/" + "XML"

  const TEMPLATES := [DATA_BY_DATE_JSON, DATA_BY_DATE_XML, LATEST_DATA_JSON, LATEST_DATA_XML, TOKEN_JSON, TOKEN_XML]

  datatype Format = JSON | XML | Plain

  datatype Operation = DataByDate | LatestData | Token

  datatype Endpoint = Endpoint(operation: Operation, format: Format) {
    function OperationName(): string {
      match operation
      case DataByDate => "DataByDate"
      case LatestData => "LatestData"
      case Token => "Token"
    }

    function FormatName(): string {
      if format.JSON? then "JSON" else "XML"
    }

    function Key(): string {
      "StockMarket/" + OperationName() + "/" + FormatName()
    }

    function Parameters(): seq<Segment> {
      match operation
      case DataByDate => [Parameter("DATE"), Parameter("TOKEN")]
      case LatestData => [Parameter("TOKEN")]
      case Token => []
    }

    function Segments(): seq<Segment> {
      [Literal("StockMarket"), Literal(OperationName()), Literal(FormatName())] + Parameters()
    }
  }

  function EndpointAt(i: nat): Endpoint
    requires i < 6
  {
    Endpoint(if i < 2 then DataByDate else if i < 4 then LatestData else Token, if i % 2 == 0 then JSON else XML)
  }

  // ---------- The keys of the six templates ----------

  lemma {:induction false} RendersConcat(a: seq<Segment>, b: seq<Segment>)
    ensures Renders(a + b) == Renders(a) + Renders(b)
  {
    if a == [] {
      assert a + b == b;
    } else {
      assert (a + b)[0] == a[0] && (a + b)[1..] == a[1..] + b;
      RendersConcat(a[1..], b);
    }
  }

  lemma {:induction false} LiteralsConcat(a: seq<Segment>, b: seq<Segment>)
    ensures Literals(a + b) == Literals(a) + Literals(b)
    ensures ParameterCount(a + b) == ParameterCount(a) + ParameterCount(b)
  {
    hide Segment.Render;
    if a == [] {
      assert a + b == b;
    } else {
      assert (a + b)[0] == a[0] && (a + b)[1..] == a[1..] + b;
      LiteralsConcat(a[1..], b);
    }
  }

  lemma {:induction false} TailConcat(a: seq<string>, b: seq<string>)
    ensures Tail(a + b) == Tail(a) + Tail(b)
  {
    if a == [] {
      assert a + b == b;
    } else {
      assert (a + b)[0] == a[0] && (a + b)[1..] == a[1..] + b;
      TailConcat(a[1..], b);
      assert "/" + a[0] + (Tail(a[1..]) + Tail(b)) == Tail(a) + Tail(b);
    }
  }

  function Base(e: Endpoint): seq<Segment> {
    [Literal("StockMarket"), Literal(e.OperationName()), Literal(e.FormatName())]
  }

  lemma {:induction false} LiteralFirst(a: Segment, rest: seq<Segment>)
    requires a.Literal?
    ensures Renders([a] + rest) == [a.text] + Renders(rest) && Literals([a] + rest) == [a] + Literals(rest)
    ensures ParameterCount([a] + rest) == ParameterCount(rest)
  {
    assert ([a] + rest)[0] == a && ([a] + rest)[1..] == rest;
  }

  lemma {:induction false} ThreeLiterals(a: Segment, b: Segment, c: Segment)
    requires a.Literal? && b.Literal? && c.Literal?
    ensures Renders([a, b, c]) == [a.text, b.text, c.text] && Literals([a, b, c]) == [a, b, c]
    ensures ParameterCount([a, b, c]) == 0
    ensures Template([a, b, c]) == a.text + "/" + b.text + "/" + c.text
  {
    assert Renders([]) == [] && Literals([]) == [] && ParameterCount([]) == 0;
    JoinThree(a.text, b.text, c.text);
    hide Renders, Literals, ParameterCount, Join;
    LiteralFirst(a, [b, c]);
    LiteralFirst(b, [c]);
    LiteralFirst(c, []);
    assert [a] + [b, c] == [a, b, c] && [b] + [c] == [b, c] && [c] + [] == [c];
  }

  lemma {:induction false} JoinThree(a: string, b: string, c: string)
    ensures Join([a, b, c], '/') == a + "/" + b + "/" + c
  {
    assert [a, b, c][1..] == [b, c] && [b, c][1..] == [c];
    assert Join([b, c], '/') == b + ['/'] + c;
    assert a + ['/'] + (b + ['/'] + c) == a + "/" + b + "/" + c;
  }

  lemma BaseText(e: Endpoint)
    ensures |Renders(Base(e))| == 3 && Literals(Base(e)) == Base(e) && ParameterCount(Base(e)) == 0
    ensures Template(Base(e)) == e.Key()
  {
    hide Renders, Literals, Template, ParameterCount, Endpoint.OperationName, Endpoint.FormatName;
    ThreeLiterals(Base(e)[0], Base(e)[1], Base(e)[2]);
    assert "StockMarket" + "/" == "StockMarket/";
  }

  function Suffix(e: Endpoint): string {
    match e.operation
    case DataByDate => "/{DATE}/{TOKEN}"
    case LatestData => "/{TOKEN}"
    case Token => ""
  }

  lemma OneParameter(name: string)
    ensures var p := [Parameter(name)];
            Tail(Renders(p)) == "/{" + name + "}" && Literals(p) == [] && ParameterCount(p) == 1
  {
    var p := [Parameter(name)];
    assert p[1..] == [] && Renders(p) == ["{" + name + "}"];
    assert Tail(Renders(p)) == "/" + ("{" + name + "}") + Tail([]);
  }

  lemma SuffixText(e: Endpoint)
    ensures Tail(Renders(e.Parameters())) == Suffix(e)
    ensures Literals(e.Parameters()) == [] && ParameterCount(e.Parameters()) == |e.Parameters()|
  {
    var date, token := [Parameter("DATE")], [Parameter("TOKEN")];
    OneParameter("DATE");
    OneParameter("TOKEN");
    RendersConcat(date, token);
    TailConcat(Renders(date), Renders(token));
    LiteralsConcat(date, token);
    assert Tail(Renders([])) == "" && Literals([]) == [] && ParameterCount([]) == 0;
    hide Renders, Tail, Literals, ParameterCount;
    assert date + token == [Parameter("DATE"), Parameter("TOKEN")];
    ParameterTexts();
  }

  lemma ParameterTexts()
    ensures "/{" + "TOKEN" + "}" == "/{TOKEN}"
    ensures "/{" + "DATE" + "}" + ("/{" + "TOKEN" + "}") == "/{DATE}/{TOKEN}"
  {
  }

  /** The template of an endpoint is its key followed by its parameters. */
  lemma EndpointTemplate(e: Endpoint)
    ensures Template(e.Segments()) == e.Key() + Suffix(e)
    ensures Template(Literals(e.Segments())) == e.Key()
    ensures ParameterCount(e.Segments()) == |e.Parameters()|
  {
    hide Renders, Literals, Join, Tail, ParameterCount;
    var base, params := Base(e), e.Parameters();
    assert e.Segments() == base + params;
    BaseText(e);
    SuffixText(e);
    RendersConcat(base, params);
    LiteralsConcat(base, params);
    assert base + [] == base;
    var r := Renders(base);
    JoinIsTail(r);
    JoinIsTail(r + Renders(params));
    assert (r + Renders(params))[1..] == r[1..] + Renders(params);
    TailConcat(r[1..], Renders(params));
    assert r[0] + (Tail(r[1..]) + Suffix(e)) == r[0] + Tail(r[1..]) + Suffix(e);
  }

  lemma NamesAreClean(e: Endpoint)
    ensures Literal("StockMarket").WellFormed() && Literal(e.OperationName()).WellFormed()
    ensures Literal(e.FormatName()).WellFormed()
  {
  }

  lemma EndpointIsWellFormed(e: Endpoint)
    ensures WellFormedTemplate(e.Segments())
  {
    NamesAreClean(e);
    assert Parameter("DATE").WellFormed() && Parameter("TOKEN").WellFormed();
    hide Endpoint.OperationName, Endpoint.FormatName, Segment.WellFormed;
    assert forall i :: 0 <= i < 3 ==> e.Segments()[i] == Base(e)[i];
    assert forall i :: 3 <= i < |e.Segments()| ==> e.Segments()[i] == e.Parameters()[i - 3];
  }

  lemma TemplateOfEndpoint(i: nat)
    requires i < 6
    ensures TEMPLATES[i] == Template(EndpointAt(i).Segments())
    ensures MakeContract(TEMPLATES[i]) == Contract(EndpointAt(i).Key(), TEMPLATES[i], |EndpointAt(i).Parameters()|)
  {
    hide Template, OmitParameters, CountParameters, Split, WellFormedTemplate, Literals;
    var e := EndpointAt(i);
    EndpointTemplate(e);
    EndpointIsWellFormed(e);
    assert TEMPLATES[i] == e.Key() + Suffix(e);
    KeyIsTheLiterals(e.Segments());
  }

  lemma KeysAreApart(i: nat, j: nat)
    requires i < 6 && j < 6 && i != j
    ensures !(EndpointAt(i).Key() <= EndpointAt(j).Key())
  {
    var a, b := EndpointAt(i).Key(), EndpointAt(j).Key();
    assert a[12] == EndpointAt(i).OperationName()[0] && b[12] == EndpointAt(j).OperationName()[0];
    var n := 13 + |EndpointAt(i).OperationName()|;
    assert a[n] == EndpointAt(i).FormatName()[0];
    if EndpointAt(i).operation == EndpointAt(j).operation {
      assert b[n] == EndpointAt(j).FormatName()[0];
    }
  }

  // ---------- Resolving requests ----------

  lemma ContractsOfTheApi(k: nat)
    requires k < |Registered(TEMPLATES)|
    ensures |Registered(TEMPLATES)| == |Order(TEMPLATES)| == 6 && Order(TEMPLATES)[k] < 6
    ensures var e := EndpointAt(Order(TEMPLATES)[k]);
            Registered(TEMPLATES)[k] == Contract(e.Key(), TEMPLATES[Order(TEMPLATES)[k]], |e.Parameters()|)
  {
    hide Registered, Order, MakeContract;
    RegisteredIsSorted(TEMPLATES);
    TemplateOfEndpoint(Order(TEMPLATES)[k]);
  }

  lemma ApiIsPrefixFree()
    ensures PrefixFree(Registered(TEMPLATES))
  {
    hide Registered, MakeContract, Less;
    var cs := Registered(TEMPLATES);
    RegisteredIsSorted(TEMPLATES);
    forall a, b | 0 <= a < |cs| && 0 <= b < |cs| && a != b
      ensures !(cs[a].key <= cs[b].key)
    {
      ContractsOfTheApi(a);
      ContractsOfTheApi(b);
      var i, j := Order(TEMPLATES)[a], Order(TEMPLATES)[b];
      assert i != j by {
        assert a < b ==> cs[a].key == cs[b].key ==> i < j;
        assert b < a ==> cs[b].key == cs[a].key ==> j < i;
      }
      KeysAreApart(i, j);
    }
  }

  /** The endpoint a URI addresses: its key is a prefix and the number of arguments fits; 6 if there is none. */
  function Addressed(uri: string, i: nat): (e: nat)
    requires i <= 6
    ensures i <= e <= 6
    ensures e < 6 ==> Fits(uri, e)
    ensures forall j :: i <= j < e ==> !Fits(uri, j)
    decreases 6 - i
  {
    if i == 6 || Fits(uri, i) then i else Addressed(uri, i + 1)
  }

  predicate Fits(uri: string, i: nat)
    requires i < 6
  {
    var e := EndpointAt(i);
    e.Key() <= uri && |Arguments(uri[|e.Key()|..])| == |e.Parameters()|
  }

  /** Resolving with the six templates and an empty argument vector yields the addressed endpoint and
      exactly its arguments, so they are as many as the template has parameters. */
  lemma {:induction false} ResolvedEndpoint(uri: string)
    ensures var r := Resolved(Registered(TEMPLATES), uri, []);
            var i := Addressed(uri, 0);
            (r.ok <==> !EndsWith(uri, "/") && i < 6) &&
            (r.ok ==> r.uriTemplate == TEMPLATES[i] &&
                      r.args == Arguments(uri[|EndpointAt(i).Key()|..]) && |r.args| == |EndpointAt(i).Parameters()|)
  {
    hide Registered, MakeContract, Endpoint.Key, Endpoint.Parameters, Arguments, EndsWith;
    var cs := Registered(TEMPLATES);
    var w, i := Winner(cs, uri, 0), Addressed(uri, 0);
    RegisteredIsSorted(TEMPLATES);
    ApiIsPrefixFree();
    if i < 6 {
      EveryRegistrationIsKept(TEMPLATES, i);
      var k :| 0 <= k < |Order(TEMPLATES)| && Order(TEMPLATES)[k] == i;
      ContractsOfTheApi(k);
      assert Matches(cs[k], uri);
      OnlyCandidate(cs, uri, k);
    } else if w < |cs| {
      ContractsOfTheApi(w);
      assert false;
    }
  }

  // ---------- Dispatch ----------

  datatype Reply = Serve(endpoint: Endpoint, date: string) | InvalidToken(format: Format) | BadRequest(format: Format)

  function ErrorFormat(uri: string): Format {
    if Contains(uri, "/JSON") then JSON else if Contains(uri, "/XML") then XML else Plain
  }

  /** What a request deserves: the last argument is the token, the first of a by-date request the date. */
  function Answer(uri: string, isValidToken: string -> bool): Reply {
    var i := Addressed(uri, 0);
    if EndsWith(uri, "/") || i == 6 then BadRequest(ErrorFormat(uri))
    else
      var e := EndpointAt(i);
      var args := Arguments(uri[|e.Key()|..]);
      if e.operation.Token? then Serve(e, "")
      else if !isValidToken(args[|args| - 1]) then InvalidToken(e.format)
      else Serve(e, if e.operation.DataByDate? then args[0] else "")
  }

  lemma ContainsAt(s: string, a: string, part: string, b: string)
    requires s == a + part + b
    ensures Contains(s, part)
  {
    assert s[|a|..] == part + b;
    assert part <= s[|a|..];
  }

  lemma ContainsNeeds(s: string, part: string, c: char)
    requires Contains(s, part) && c in part
    ensures c in s
  {
    var i :| 0 <= i <= |s| && part <= s[i..];
    var j :| 0 <= j < |part| && part[j] == c;
    assert s[i + j] == s[i..][j] == c;
  }

  lemma TemplateText(i: nat)
    requires i < 6
    ensures TEMPLATES[i] == EndpointAt(i).Key() + Suffix(EndpointAt(i))
  {
  }

  lemma TokenMark(i: nat)
    requires i < 6
    ensures Contains(TEMPLATES[i], "/{TOKEN}") <==> i < 4
  {
    if i < 4 {
      TokenTail(i);
    } else {
      NoBrace(i);
      hide TEMPLATES, Contains;
      if Contains(TEMPLATES[i], "/{TOKEN}") { ContainsNeeds(TEMPLATES[i], "/{TOKEN}", '{'); }
    }
  }

  lemma TokenTail(i: nat)
    requires i < 4
    ensures Contains(TEMPLATES[i], "/{TOKEN}")
  {
    var e := EndpointAt(i);
    var middle := if i < 2 then "/{DATE}" else "";
    hide TEMPLATES, Contains, Endpoint.Key, Suffix;
    TemplateText(i);
    SuffixEnds(i);
    assert TEMPLATES[i] == (e.Key() + middle) + "/{TOKEN}" + "";
    ContainsAt(TEMPLATES[i], e.Key() + middle, "/{TOKEN}", "");
  }

  lemma SuffixEnds(i: nat)
    requires i < 4
    ensures Suffix(EndpointAt(i)) == (if i < 2 then "/{DATE}" else "") + "/{TOKEN}"
  {
  }

  lemma NoBrace(i: nat)
    requires 4 <= i < 6
    ensures '{' !in TEMPLATES[i]
  {
  }

  lemma FormatMark(i: nat)
    requires i < 6
    ensures Contains(TEMPLATES[i], "/JSON") <==> i % 2 == 0
    ensures i % 2 == 1 ==> Contains(TEMPLATES[i], "/XML")
  {
    var t, e := TEMPLATES[i], EndpointAt(i);
    TemplateText(i);
    var front := "StockMarket/" + e.OperationName();
    assert e.Key() == front + ("/" + e.FormatName());
    assert "/" + e.FormatName() == if i % 2 == 0 then "/JSON" else "/XML";
    hide TEMPLATES, Contains, Endpoint.Key, Suffix, Endpoint.OperationName, Endpoint.FormatName;
    ContainsAt(t, front, "/" + e.FormatName(), Suffix(e));
    if i % 2 == 1 {
      NoJ(i);
      if Contains(t, "/JSON") { ContainsNeeds(t, "/JSON", 'J'); }
    }
  }

  lemma NoJ(i: nat)
    requires i < 6 && i % 2 == 1
    ensures 'J' !in TEMPLATES[i]
  {
  }

  class PublicAPIResource {
    const ServiceContractPtr: ServiceContract

    constructor ()
      ensures ServiceContractPtr.Contracts == Registered(TEMPLATES) && fresh(ServiceContractPtr)
    {
      ServiceContractPtr := new ServiceContract();
      new;
      hide Inserted, MakeContract;
      var i := 0;
      while i < 6
        invariant 0 <= i <= 6 && ServiceContractPtr.Contracts == Registered(TEMPLATES[..i])
      {
        assert TEMPLATES[..i + 1][..i] == TEMPLATES[..i];
        ServiceContractPtr.Register(TEMPLATES[i]);
        i := i + 1;
      }
      assert TEMPLATES[..6] == TEMPLATES;
    }

    method HandleRequest(uri: string, isValidToken: string -> bool) returns (reply: Reply)
      requires ServiceContractPtr.Contracts == Registered(TEMPLATES)
      ensures reply == Answer(uri, isValidToken)
    {
      hide Registered, Resolved, Arguments, Contains, EndsWith, Endpoint.Key;
      var ok, uriTemplate, args := ServiceContractPtr.Resolve(uri, []);
      ResolvedEndpoint(uri);
      if ok {
        ghost var i := Addressed(uri, 0);
        TokenMark(i);
        FormatMark(i);
        TemplatesDiffer(i);
        if Contains(uriTemplate, "/{TOKEN}") {
          if !isValidToken(args[|args| - 1]) {
            if Contains(uriTemplate, "/JSON") {
              return InvalidToken(JSON);
            } else if Contains(uriTemplate, "/XML") {
              return InvalidToken(XML);
            } else {
              return InvalidToken(Plain);
            }
          }
        }
        if uriTemplate == DATA_BY_DATE_JSON {
          reply := Serve(Endpoint(DataByDate, JSON), args[0]);
        } else if uriTemplate == DATA_BY_DATE_XML {
          reply := Serve(Endpoint(DataByDate, XML), args[0]);
        } else if uriTemplate == LATEST_DATA_JSON {
          reply := Serve(Endpoint(LatestData, JSON), "");
        } else if uriTemplate == LATEST_DATA_XML {
          reply := Serve(Endpoint(LatestData, XML), "");
        } else if uriTemplate == TOKEN_JSON {
          reply := Serve(Endpoint(Token, JSON), "");
        } else {
          reply := Serve(Endpoint(Token, XML), "");
        }
      } else {
        reply := BadRequest(ErrorFormat(uri));
      }
    }
  }

  lemma TemplatesDiffer(i: nat)
    requires i < 6
    ensures forall j :: 0 <= j < 6 && TEMPLATES[i] == TEMPLATES[j] ==> i == j
  {
    forall j | 0 <= j < 6 && TEMPLATES[i] == TEMPLATES[j]
      ensures i == j
    {
      TemplateOfEndpoint(i);
      TemplateOfEndpoint(j);
      if i != j { KeysAreApart(i, j); }
    }
  }

  lemma InstanceResolves(i: nat, args: seq<string>)
    requires i < 6 && GoodArguments(args) && |args| == |EndpointAt(i).Parameters()|
    ensures Resolved(Registered(TEMPLATES), Instantiate(EndpointAt(i).Segments(), args), []) ==
            Resolution(true, TEMPLATES[i], args)
  {
    var e := EndpointAt(i);
    EndpointTemplate(e);
    EndpointIsWellFormed(e);
    TemplateOfEndpoint(i);
    KeyDoesNotEndInSlash(e);
    assert |TEMPLATES| == 6;
    hide Registered, MakeContract, Template, EndsWith, Endpoint.Key, Literals, Resolved, Fits, Order, TEMPLATES;
    hide WellFormedTemplate, PrefixFree, Endpoint.Segments, Suffix, ParameterCount, Instantiate, Less;
    RegisteredIsSorted(TEMPLATES);
    EveryRegistrationIsKept(TEMPLATES, i);
    var k :| 0 <= k < |Order(TEMPLATES)| && Order(TEMPLATES)[k] == i;
    ApiIsPrefixFree();
    InstantiateThenResolve(Registered(TEMPLATES), k, e.Segments(), args);
  }

  /** Every endpoint answers the URI made from its template with exactly the arguments put into it. */
  lemma RequestRoundTrip(i: nat, args: seq<string>, isValidToken: string -> bool)
    requires i < 6 && GoodArguments(args) && |args| == |EndpointAt(i).Parameters()|
    ensures var e := EndpointAt(i);
            Answer(Instantiate(e.Segments(), args), isValidToken) ==
            if e.operation.Token? then Serve(e, "")
            else if !isValidToken(args[|args| - 1]) then InvalidToken(e.format)
            else Serve(e, if e.operation.DataByDate? then args[0] else "")
  {
    hide Registered, Arguments, EndsWith, Endpoint.Key, Endpoint.Segments, Resolved, TEMPLATES, Instantiate, Addressed;
    InstanceResolves(i, args);
    ResolvedEndpoint(Instantiate(EndpointAt(i).Segments(), args));
    TemplatesDiffer(i);
  }

  lemma KeyDoesNotEndInSlash(e: Endpoint)
    ensures !EndsWith(e.Key(), "/")
  {
    var s := e.Key();
    assert s[|s| - 1..] == [s[|s| - 1]];
    assert s[|s| - 1] == e.FormatName()[|e.FormatName()| - 1];
  }

  // ---------- Refused requests ----------

  /** A request is refused exactly when its URI ends in a slash or fits no endpoint. */
  lemma RefusedExactly(uri: string, isValidToken: string -> bool)
    ensures Answer(uri, isValidToken).BadRequest? <==>
              EndsWith(uri, "/") ||
              forall i: nat :: i < 6 && EndpointAt(i).Key() <= uri ==>
                |Arguments(uri[|EndpointAt(i).Key()|..])| != |EndpointAt(i).Parameters()|
  {
    hide EndsWith, Arguments, Endpoint.Key, Endpoint.Parameters;
    var i := Addressed(uri, 0);
    assert i < 6 ==> Fits(uri, i);
    assert forall j: nat :: j < 6 && i == 6 ==> !Fits(uri, j);
  }

  /** The format of the reply to a refused request is read off its URI: JSON before XML. */
  lemma RefusedInItsFormat(uri: string, isValidToken: string -> bool)
    requires Answer(uri, isValidToken).BadRequest?
    ensures Contains(uri, "/JSON") ==> Answer(uri, isValidToken) == BadRequest(JSON)
    ensures !Contains(uri, "/JSON") && Contains(uri, "/XML") ==> Answer(uri, isValidToken) == BadRequest(XML)
    ensures !Contains(uri, "/JSON") && !Contains(uri, "/XML") ==> Answer(uri, isValidToken) == BadRequest(Plain)
  {
    hide Contains, EndsWith, Arguments, Addressed, Endpoint.Key;
  }

  /** So a refused request to an endpoint, say one without its token, is answered in the format of that endpoint. */
  lemma RefusedInTheEndpointsFormat(uri: string, e: Endpoint, isValidToken: string -> bool)
    requires Answer(uri, isValidToken).BadRequest? && e.Key() <= uri && e.format in {JSON, XML}
    ensures e.format == JSON ==> Answer(uri, isValidToken) == BadRequest(JSON)
    ensures e.format == XML && !Contains(uri, "/JSON") ==> Answer(uri, isValidToken) == BadRequest(XML)
  {
    hide Contains, Answer, Endpoint.Key;
    KeyNamesFormat(uri, e);
    RefusedInItsFormat(uri, isValidToken);
  }

  lemma KeyNamesFormat(uri: string, e: Endpoint)
    requires e.Key() <= uri && e.format in {JSON, XML}
    ensures Contains(uri, if e.format == JSON then "/JSON" else "/XML")
  {
    var mark := if e.format == JSON then "/JSON" else "/XML";
    KeyEnds(e);
    var front, rest := "StockMarket/" + e.OperationName(), uri[|e.Key()|..];
    hide Contains, Endpoint.OperationName;
    assert uri == front + mark + rest;
    ContainsAt(uri, front, mark, rest);
  }

  lemma KeyEnds(e: Endpoint)
    requires e.format in {JSON, XML}
    ensures e.Key() == "StockMarket/" + e.OperationName() + if e.format == JSON then "/JSON" else "/XML"
  {
    assert "/" + e.FormatName() == if e.format == JSON then "/JSON" else "/XML";
    hide Endpoint.OperationName, Endpoint.FormatName;
    assert e.Key() == "StockMarket/" + e.OperationName() + ("/" + e.FormatName());
  }

  // ---------- The templates as they stand in the source ----------

  lemma ByDateTemplates()
    ensures DATA_BY_DATE_JSON == "StockMarket/DataByDate/JSON/{DATE}/{TOKEN}"
    ensures DATA_BY_DATE_XML == "StockMarket/DataByDate/XML/{DATE}/{TOKEN}"
  {
    hide *;
    ByDateJson();
    ByDateXml();
  }

  lemma ByDateJson()
    ensures DATA_BY_DATE_JSON == "StockMarket/DataByDate/JSON/{DATE}/{TOKEN}"
  {
  }

  lemma ByDateXml()
    ensures DATA_BY_DATE_XML == "StockMarket/DataByDate/XML/{DATE}/{TOKEN}"
  {
  }

  lemma LatestTemplates()
    ensures LATEST_DATA_JSON == "StockMarket/LatestData/JSON/{TOKEN}"
    ensures LATEST_DATA_XML == "StockMarket/LatestData/XML/{TOKEN}"
  {
  }

  lemma TokenTemplates()
    ensures TOKEN_JSON == "StockMarket/Token/JSON" && TOKEN_XML == "StockMarket/Token/XML"
  {
  }
}
