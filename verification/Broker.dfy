/**
  The two broker endpoints. `GET /Broker` fetches the URL named by the `Url`
  header and returns the downstream JSON converted to XML; `POST /Broker`
  wraps the XML body in `<root>`, converts it to JSON, strips the synthetic
  key and posts the result. Both forward the inbound headers through the
  filter of module Headers and answer NotFound when the converted response is
  null, Ok otherwise. Every exception propagates unchanged.

  The library and network steps are parameters: `toJson` stands for parsing
  the wrapped XML and serialising it to JSON, and `exchange` for building the
  URI, sending the request, reading the response and converting it to XML
  (`None` being a null document).
 */
module Broker {
  import opened Wrappers
  import opened Headers
  import Body

  datatype Verb = Get | Post

  /** The parts of an inbound request the controller reads. */
  datatype Request = Request(headers: seq<Header>, body: string)

  /** The request handed to the outbound client; `target == None` is a null URL. */
  datatype Outbound = Outbound(verb: Verb, target: Option<string>, headers: seq<Header>, payload: Option<string>)

  /** The exceptions a handler can raise: the slicing fault, or one from a library or the network. */
  datatype Error = Slicing(fault: Body.Fault) | Raised(message: string)

  /** The controller's answer to the caller. */
  datatype Action = NotFound | Ok(xml: string)

  /** ASCII upper-case letters folded to lower case; every other character unchanged. */
  function Lower(c: char): char
  {
    if 'A' <= c <= 'Z' then (c as int + 32) as char else c
  }

  /** Case-insensitive equality of header names, as the header dictionary compares keys. */
  predicate SameName(a: string, b: string)
  {
    |a| == |b| && forall k :: 0 <= k < |a| ==> Lower(a[k]) == Lower(b[k])
  }

  predicate IsUrl(h: Header)
  {
    SameName(h.name, "Url")
  }

  /** The position of the first `Url` header, or -1 when the request has none. */
  function FindUrl(hs: seq<Header>): (i: int)
    ensures -1 <= i < |hs|
    ensures i == -1 <==> forall k :: 0 <= k < |hs| ==> !IsUrl(hs[k])
    ensures 0 <= i ==> IsUrl(hs[i]) && forall k :: 0 <= k < i ==> !IsUrl(hs[k])
    decreases |hs|
  {
    if |hs| == 0 then -1
    else if IsUrl(hs[0]) then 0
    else
      var j := FindUrl(hs[1..]);
      if j == -1 then -1 else j + 1
  }

  /** `headers["Url"]`: the value of the `Url` header, or null when absent. */
  function LookupUrl(hs: seq<Header>): (r: Option<string>)
    ensures r.None? <==> forall k :: 0 <= k < |hs| ==> !IsUrl(hs[k])
    ensures r.Some? ==> exists k :: 0 <= k < |hs| && IsUrl(hs[k]) && hs[k].value == r.value
  {
    var i := FindUrl(hs);
    if i < 0 then None else Some(hs[i].value)
  }

  /** The outbound GET: a null `Url` becomes the empty string before it is used. */
  function GetCall(req: Request): (o: Outbound)
    ensures o.verb == Get && o.payload == None
    ensures LookupUrl(req.headers).None? ==> o.target == Some("")
    ensures LookupUrl(req.headers).Some? ==> o.target == LookupUrl(req.headers)
    ensures NoneDropped(o.headers) && |o.headers| >= 2 && o.headers[|o.headers| - 1] == AcceptJson
    ensures o.headers == Forwarded(ClientDefaults, req.headers)
  {
    ForwardedNeverDropped(req.headers);
    Outbound(Get, Some(LookupUrl(req.headers).GetOr("")), Forwarded(ClientDefaults, req.headers), None)
  }

  /** The outbound POST of `payload`: the `Url` value is passed on as it is, possibly null. */
  function PostCall(req: Request, payload: string): (o: Outbound)
    ensures o.verb == Post && o.payload == Some(payload)
    ensures o.target == LookupUrl(req.headers)
    ensures o.headers == GetCall(req).headers && o.headers == Forwarded(ClientDefaults, req.headers)
  {
    Outbound(Post, LookupUrl(req.headers), Forwarded(ClientDefaults, req.headers), Some(payload))
  }

  /** The null test on the converted body: null is NotFound, anything else is Ok with that body. */
  function Respond(converted: Option<string>): Action
  {
    match converted
    case None => NotFound
    case Some(xml) => Ok(xml)
  }

  /** The body an answer carries, null for NotFound. */
  function Carried(a: Action): Option<string>
  {
    match a
    case NotFound => None
    case Ok(xml) => Some(xml)
  }

  /** Respond loses nothing: the answer carries exactly the converted body, and every answer arises. */
  lemma RespondBijective(converted: Option<string>, a: Action)
    ensures Carried(Respond(converted)) == converted
    ensures Respond(Carried(a)) == a
  {
  }

  /**
    How a handler's outcome follows from the exchange's: an exception is
    re-raised unchanged, a null body is NotFound, any other body is Ok with
    that body.
   */
  ghost predicate Decides(exchanged: Result<Option<string>, Error>, r: Result<Action, Error>)
  {
    || (exchanged.Failure? && r == Failure(exchanged.error))
    || (exchanged == Success(None) && r == Success(NotFound))
    || (exchanged.Success? && exchanged.value.Some? && r == Success(Ok(exchanged.value.value)))
  }

  /** The common tail of both handlers: rethrow, or choose NotFound or Ok. */
  function Conclude(exchanged: Result<Option<string>, Error>): (r: Result<Action, Error>)
    ensures Decides(exchanged, r)
  {
    match exchanged
    case Failure(e) => Failure(e)
    case Success(converted) => Success(Respond(converted))
  }

  /** `GET /Broker`. */
  function HandleGet(req: Request, exchange: Outbound -> Result<Option<string>, Error>): (r: Result<Action, Error>)
    ensures Decides(exchange(GetCall(req)), r)
  {
    Conclude(exchange(GetCall(req)))
  }

  /** `POST /Broker`. */
  function HandlePost(
    req: Request,
    toJson: string -> Result<string, Error>,
    exchange: Outbound -> Result<Option<string>, Error>
  ): (r: Result<Action, Error>)
    ensures toJson(Body.Wrap(req.body)).Failure? ==> r == Failure(toJson(Body.Wrap(req.body)).error)
    ensures toJson(Body.Wrap(req.body)).Success? ==>
      var json := toJson(Body.Wrap(req.body)).value;
      && (Body.Strip(json).Failure? ==> r == Failure(Slicing(Body.StartIndexOutOfRange(-1))))
      && (Body.Strip(json).Success? ==> Decides(exchange(PostCall(req, Body.Strip(json).value)), r))
  {
    match toJson(Body.Wrap(req.body))
    case Failure(e) => Failure(e)
    case Success(json) =>
      match Body.Strip(json)
      case Failure(f) => Failure(Slicing(f))
      case Success(cleansed) => Conclude(exchange(PostCall(req, cleansed)))
  }

  /** When the serialiser yields `{"root":X}`, the posted payload is exactly `X`. */
  lemma PostSendsRootContent(
    req: Request,
    toJson: string -> Result<string, Error>,
    exchange: Outbound -> Result<Option<string>, Error>,
    x: string
  )
    requires toJson(Body.Wrap(req.body)) == Success(Body.Envelope("root", x))
    ensures Decides(exchange(PostCall(req, x)), HandlePost(req, toJson, exchange))
  {
    Body.StripRootEnvelope(x);
  }

  /** A conversion failure or a slicing failure ends the POST before anything is sent. */
  lemma PostFailsBeforeSending(
    req: Request,
    toJson: string -> Result<string, Error>,
    exchange1: Outbound -> Result<Option<string>, Error>,
    exchange2: Outbound -> Result<Option<string>, Error>
  )
    requires toJson(Body.Wrap(req.body)).Failure? || Body.Strip(toJson(Body.Wrap(req.body)).value).Failure?
    ensures HandlePost(req, toJson, exchange1) == HandlePost(req, toJson, exchange2)
    ensures HandlePost(req, toJson, exchange1).Failure?
  {
  }

  /** Whatever the exchange does, the GET handler never answers anything but its outcome. */
  lemma GetDependsOnlyOnExchange(
    req: Request,
    exchange1: Outbound -> Result<Option<string>, Error>,
    exchange2: Outbound -> Result<Option<string>, Error>
  )
    requires exchange1(GetCall(req)) == exchange2(GetCall(req))
    ensures HandleGet(req, exchange1) == HandleGet(req, exchange2)
  {
  }

  /**
    `Host: caller.example`, `Content-Type: text/xml`, `X-Trace: abc` forward only
    `X-Trace`: the sequence lists the `Add` calls in order, the client's initial
    `Accept`, then `X-Trace`, then the appended `Accept`.
   */
  lemma ForwardExample()
    ensures GetCall(Request([Header("Host", "caller.example"), Header("Content-Type", "text/xml"), Header("X-Trace", "abc")], "")).headers
         == [AcceptJson, Header("X-Trace", "abc"), AcceptJson]
  {
    var hs := [Header("Host", "caller.example"), Header("Content-Type", "text/xml"), Header("X-Trace", "abc")];
    assert hs[..2][..1][..0] == [];
    assert Kept(hs[..2][..1]) == [];
    assert Kept(hs[..2]) == [];
    assert Kept(hs) == [Header("X-Trace", "abc")];
  }

  /** Posting `<a>1</a>`, serialised as `{"root":{"a":"1"}}`, sends `{"a":"1"}`. */
  lemma PostExample(
    toJson: string -> Result<string, Error>,
    exchange: Outbound -> Result<Option<string>, Error>
  )
    requires toJson("<root><a>1</a></root>") == Success("{\"root\":{\"a\":\"1\"}}")
    ensures Decides(exchange(PostCall(Request([], "<a>1</a>"), "{\"a\":\"1\"}")), HandlePost(Request([], "<a>1</a>"), toJson, exchange))
  {
    assert Body.Wrap("<a>1</a>") == "<root><a>1</a></root>";
    assert Body.Envelope("root", "{\"a\":\"1\"}") == "{\"root\":{\"a\":\"1\"}}";
    PostSendsRootContent(Request([], "<a>1</a>"), toJson, exchange, "{\"a\":\"1\"}");
  }
}
