/** `ProxyService::handle` (src/proxy.rs): capture, stripping, transforms and Content-Length together. */
module Proxy {
  import opened Common
  import opened Text
  import opened Headers
  import opened Transform
  import opened Pipeline
  import C = Capture
  import Objects = CaptureObjects

  const CONTENT_LENGTH: HeaderName := "content-length"
  const ACCEPT_ENCODING: HeaderName := "accept-encoding"

  /** The parts of a request that decide what happens to it. */
  datatype Request = Request(hostMatches: bool, url: string, headers: Fields, backendUri: Result<string, string>)

  /** What the upstream client does. `body` is what collecting the response body yields. */
  datatype Upstream =
    | Responded(status: nat, headers: Fields, body: Result<seq<byte>, string>)
    | RequestFailed(text: string)
    | TimedOut

  datatype Reply =
    | Gateway(status: nat)
    | Streamed(status: nat, headers: Fields)
    | Buffered(status: nat, headers: Fields, body: seq<byte>)

  function Describe(e: TransformError): C.ErrorText {
    match e
    case NotText(name) => C.HeaderNotText(name)
    case InvalidValue(name) => C.HeaderInvalid(name)
  }

  // ---------------------------------------------------------------- the request that is forwarded

  function ForwardedHeaders(h: Fields, forceIdentity: bool): Fields {
    var base := Without(h, {"host"});
    Stripped(if forceIdentity then Inserted(base, ACCEPT_ENCODING, Encode("identity")) else base)
  }

  // ---------------------------------------------------------------- Content-Length

  /** `parse_content_length`. */
  function ParseContentLength(h: Fields): Option<int> {
    match Get(h, CONTENT_LENGTH)
    case None => None
    case Some(value) =>
      match ToStr(value)
      case None => None
      case Some(text) => ParseI64(text)
  }

  lemma DecimalHeader(n: nat)
    ensures FromStr(Decimal(n)).Some? && ToStr(FromStr(Decimal(n)).value) == Some(Decimal(n))
  {
    var s := Decimal(n);
    assert forall i | 0 <= i < |s| :: IsDigit(s[i]);
    ToStrOfFromStr(s);
  }

  function LengthValue(n: nat): HeaderValue {
    DecimalHeader(n);
    FromStr(Decimal(n)).value
  }

  /** A buffered response carries one Content-Length, and it is the length of the body sent. */
  lemma LengthAgrees(h: Fields, n: nat)
    ensures var after := Inserted(h, CONTENT_LENGTH, LengthValue(n));
      && |GetAll(after, CONTENT_LENGTH)| == 1
      && ToStr(GetAll(after, CONTENT_LENGTH)[0]) == Some(Decimal(n))
      && ParseContentLength(after) == (if n <= I64_MAX then Some(n) else None)
  {
    GetAllInserted(h, CONTENT_LENGTH, LengthValue(n), CONTENT_LENGTH);
    DecimalHeader(n);
    DecimalRoundTrip(n);
  }

  // ---------------------------------------------------------------- what handle promises

  datatype Handled = Handled(verdict: C.Verdict, reply: Reply)

  function BadGateway(error: C.ErrorInfo): Handled { Handled(C.UpstreamFailed(error), Gateway(502)) }

  function StreamedHeaders(pre: Prebuffer): Fields {
    if pre.headersChanged then Without(pre.fields, {CONTENT_LENGTH}) else pre.fields
  }

  /** A buffered response is what one pass of all rules over the whole response gives. */
  function HandleBuffered(lib: Library, rules: seq<Rule>, url: string, status: nat, h: Fields,
                          body: seq<byte>): Handled {
    var run := Interpret(lib, rules, url, h, body);
    if run.progress.Failed? then BadGateway(C.ErrorInfo(C.Internal, Describe(run.progress.error)))
    else
      var headers := Inserted(run.fields, CONTENT_LENGTH, LengthValue(|run.body|));
      Handled(C.Forwarded(status, ParseContentLength(headers)), Buffered(status, headers, run.body))
  }

  function HandleResponse(lib: Library, rules: seq<Rule>, url: string, status: nat, h: Fields,
                          body: Result<seq<byte>, string>): Handled {
    var pre := UntilBody(lib, rules, 0, url, h);
    match pre.disposition
    case Rejected(error) => BadGateway(C.ErrorInfo(C.Internal, Describe(error)))
    case Stream =>
      var headers := StreamedHeaders(pre);
      Handled(C.Forwarded(status, ParseContentLength(headers)), Streamed(status, headers))
    case BufferFrom(_) =>
      match body
      case Err(text) => BadGateway(C.ErrorInfo(C.UpstreamProtocol, C.Display(text)))
      case Ok(bytes) => HandleBuffered(lib, rules, url, status, h, bytes)
  }

  predicate Forwards(req: Request) { req.hostMatches && req.backendUri.Ok? }

  function HandleUpstream(lib: Library, rules: seq<Rule>, url: string, upstream: Upstream): Handled {
    match upstream
    case RequestFailed(text) => BadGateway(C.ErrorInfo(C.UpstreamProtocol, C.Display(text)))
    case TimedOut => Handled(C.UpstreamFailed(C.ErrorInfo(C.Timeout, C.UpstreamTimeout)), Gateway(504))
    case Responded(status, headers, body) => HandleResponse(lib, rules, url, status, Stripped(headers), body)
  }

  function HandleSpec(lib: Library, rules: seq<Rule>, req: Request, upstream: Upstream): Handled {
    if !req.hostMatches then
      Handled(C.Rejected(421, C.ErrorInfo(C.ClientProtocol, C.HostMismatch)), Gateway(421))
    else if req.backendUri.Err? then
      Handled(C.Rejected(400, C.ErrorInfo(C.Config, C.BadUpstreamUri(req.backendUri.error))), Gateway(400))
    else HandleUpstream(lib, rules, req.url, upstream)
  }

  /** The capture operations of one call: request bytes while upstream is served, then the script of the verdict. */
  function HandleOps(req: Request, requestBytes: seq<byte>, v: C.Verdict): seq<C.Op> {
    (if Forwards(req) then [C.ObserveRequest(requestBytes)] else []) + C.Script(v)
  }

  /** The headers sent upstream, if the request gets that far. */
  function ForwardedRequest(lib: Library, rules: seq<Rule>, req: Request): Option<Fields> {
    if Forwards(req) then Some(ForwardedHeaders(req.headers, NeedsPlaintextUpstreamBody(lib, rules, req.url))) else None
  }

  /** The state after the request bytes were observed, before the script of the verdict. */
  function Observing(lib: Library, x: C.Exchange, req: Request, requestBytes: seq<byte>): C.Exchange {
    if Forwards(req) then C.Apply(lib, x, C.ObserveRequest(requestBytes)) else x
  }

  // ---------------------------------------------------------------- handle itself

  function AfterScript(lib: Library, x: C.Exchange, v: C.Verdict): C.Exchange {
    match v
    case Rejected(status, error) => C.FinalizeAndSend(lib, C.Apply(lib, x, C.Reject(status, error)))
    case UpstreamFailed(error) => C.FinalizeAndSend(lib, C.Apply(lib, x, C.FailUpstream(error)))
    case Forwarded(status, length) => C.Apply(lib, x, C.Respond(status, length))
  }

  lemma RunScript(lib: Library, x: C.Exchange, v: C.Verdict)
    ensures C.Run(lib, x, C.Script(v)) == AfterScript(lib, x, v)
  {
    match v
    case Rejected(status, error) => C.RunTwo(lib, x, C.Reject(status, error), C.Finalize);
    case UpstreamFailed(error) => C.RunTwo(lib, x, C.FailUpstream(error), C.Finalize);
    case Forwarded(_, _) => assert C.Script(v)[1..] == [];
  }

  class ProxyService {
    const lib: Library
    const rules: seq<Rule>
    const maxBytes: nat
    const writer: Objects.EventQueue

    constructor (lib: Library, rules: seq<Rule>, maxBytes: nat, writer: Objects.EventQueue)
      ensures this.lib == lib && this.rules == rules && this.maxBytes == maxBytes && this.writer == writer
    {
      this.lib, this.rules, this.maxBytes, this.writer := lib, rules, maxBytes, writer;
    }

    ghost function View(capture: Objects.SharedExchangeCapture): C.Exchange
      reads capture, writer
    {
      C.Exchange(capture.View(), false, false, writer.offered)
    }

    /** A fresh wrapper around the response body of this exchange. */
    ghost predicate Wraps(body: Objects.ObservedBody, capture: Objects.SharedExchangeCapture)
      reads body
    {
      body.capture == capture && body.writer == writer && !body.finalized && !body.completed
    }

    method Reject(capture: Objects.SharedExchangeCapture, status: nat, error: C.ErrorInfo)
      requires capture.Valid()
      modifies capture, writer
      ensures capture.Valid() && View(capture) == C.Run(lib, old(View(capture)), C.Script(C.Rejected(status, error)))
    {
      RunScript(lib, View(capture), C.Rejected(status, error));
      capture.SetRejection(status, error);
      capture.FinalizeAndSend(lib, writer);
    }

    method Fail(capture: Objects.SharedExchangeCapture, error: C.ErrorInfo)
      requires capture.Valid()
      modifies capture, writer
      ensures capture.Valid() && View(capture) == C.Run(lib, old(View(capture)), C.Script(C.UpstreamFailed(error)))
    {
      RunScript(lib, View(capture), C.UpstreamFailed(error));
      capture.SetUpstreamError(error);
      capture.FinalizeAndSend(lib, writer);
    }

    method Forward(capture: Objects.SharedExchangeCapture, status: nat,
                   headers: Fields) returns (body: Objects.ObservedBody)
      requires capture.Valid()
      modifies capture
      ensures capture.Valid()
      ensures View(capture)
           == C.Run(lib, old(View(capture)), C.Script(C.Forwarded(status, ParseContentLength(headers))))
      ensures fresh(body) && Wraps(body, capture)
    {
      RunScript(lib, View(capture), C.Forwarded(status, ParseContentLength(headers)));
      body := new Objects.ObservedBody.Response(capture, writer);
      capture.SetUpstreamResponse(status, ParseContentLength(headers));
    }

    method ForwardRequest(req: Request) returns (forwarded: Option<Fields>)
      requires Forwards(req)
      ensures forwarded == ForwardedRequest(lib, rules, req)
    {
      var headers := new HeaderMap(req.headers);
      headers.Remove("host");
      if NeedsPlaintextUpstreamBody(lib, rules, req.url) {
        headers.Insert(ACCEPT_ENCODING, Encode("identity"));
      }
      StripHopByHopHeaders(headers);
      forwarded := Some(headers.fields);
    }

    /** The buffered phase: collect, run the remaining rules, set the length. */
    method Buffer(capture: Objects.SharedExchangeCapture, url: string, status: nat, start: nat, headers: HeaderMap,
                  collected: Result<seq<byte>, string>, ghost stripped: Fields)
      returns (reply: Reply, body: Objects.ObservedBody?)
      requires capture.Valid()
      requires UntilBody(lib, rules, 0, url, stripped).disposition == BufferFrom(start)
      requires headers.fields == UntilBody(lib, rules, 0, url, stripped).fields
      modifies capture, writer, headers
      ensures capture.Valid()
      ensures var spec := HandleResponse(lib, rules, url, status, stripped, collected);
        reply == spec.reply && View(capture) == C.Run(lib, old(View(capture)), C.Script(spec.verdict))
      ensures body != null <==> !reply.Gateway?
      ensures body != null ==> fresh(body) && Wraps(body, capture)
    {
      if collected.Err? {
        Fail(capture, C.ErrorInfo(C.UpstreamProtocol, C.Display(collected.error)));
        return Gateway(502), null;
      }
      TwoPhaseRefinesOnePass(lib, rules, url, stripped, collected.value);
      var bytes := new BodyBuffer(collected.value);
      var applied := ApplyWithBody(lib, rules, start, url, headers, bytes);
      if applied.Err? {
        Fail(capture, C.ErrorInfo(C.Internal, Describe(applied.error)));
        return Gateway(502), null;
      }
      headers.Insert(CONTENT_LENGTH, LengthValue(|bytes.bytes|));
      body := Forward(capture, status, headers.fields);
      return Buffered(status, headers.fields, bytes.bytes), body;
    }

    method Respond(capture: Objects.SharedExchangeCapture, url: string, status: nat, responseHeaders: Fields,
                   collected: Result<seq<byte>, string>)
      returns (reply: Reply, body: Objects.ObservedBody?)
      requires capture.Valid()
      modifies capture, writer
      ensures capture.Valid()
      ensures var spec := HandleResponse(lib, rules, url, status, Stripped(responseHeaders), collected);
        reply == spec.reply && View(capture) == C.Run(lib, old(View(capture)), C.Script(spec.verdict))
      ensures body != null <==> !reply.Gateway?
      ensures body != null ==> fresh(body) && Wraps(body, capture)
    {
      var headers := new HeaderMap(responseHeaders);
      StripHopByHopHeaders(headers);
      ghost var stripped := headers.fields;
      var plan := ApplyUntilBody(lib, rules, url, headers);
      if plan.Err? {
        Fail(capture, C.ErrorInfo(C.Internal, Describe(plan.error)));
        return Gateway(502), null;
      }
      if plan.value.disposition.BufferFrom? {
        reply, body := Buffer(capture, url, status, plan.value.disposition.index, headers, collected, stripped);
        return;
      }
      if plan.value.headersChanged {
        headers.Remove(CONTENT_LENGTH);
      }
      body := Forward(capture, status, headers.fields);
      return Streamed(status, headers.fields), body;
    }

    /** The two answers given before anything is forwarded. */
    method Refuse(capture: Objects.SharedExchangeCapture, req: Request, ghost upstream: Upstream) returns (reply: Reply)
      requires capture.Valid() && !Forwards(req)
      modifies capture, writer
      ensures capture.Valid()
      ensures var spec := HandleSpec(lib, rules, req, upstream);
        reply == spec.reply && reply.Gateway? && View(capture) == C.Run(lib, old(View(capture)), C.Script(spec.verdict))
    {
      if !req.hostMatches {
        Reject(capture, 421, C.ErrorInfo(C.ClientProtocol, C.HostMismatch));
        return Gateway(421);
      }
      Reject(capture, 400, C.ErrorInfo(C.Config, C.BadUpstreamUri(req.backendUri.error)));
      return Gateway(400);
    }

    method Await(capture: Objects.SharedExchangeCapture, url: string, upstream: Upstream)
      returns (reply: Reply, body: Objects.ObservedBody?)
      requires capture.Valid()
      modifies capture, writer
      ensures capture.Valid()
      ensures var spec := HandleUpstream(lib, rules, url, upstream);
        reply == spec.reply && View(capture) == C.Run(lib, old(View(capture)), C.Script(spec.verdict))
      ensures body != null <==> !reply.Gateway?
      ensures body != null ==> fresh(body) && Wraps(body, capture)
    {
      match upstream
      case RequestFailed(text) =>
        Fail(capture, C.ErrorInfo(C.UpstreamProtocol, C.Display(text)));
        return Gateway(502), null;
      case TimedOut =>
        Fail(capture, C.ErrorInfo(C.Timeout, C.UpstreamTimeout));
        return Gateway(504), null;
      case Responded(status, responseHeaders, collected) =>
        reply, body := Respond(capture, url, status, responseHeaders, collected);
    }

    method Dispatch(capture: Objects.SharedExchangeCapture, req: Request, upstream: Upstream, requestBytes: seq<byte>)
      returns (reply: Reply, forwarded: Option<Fields>, body: Objects.ObservedBody?)
      requires capture.Valid()
      modifies capture, capture.requestBody, writer
      ensures capture.Valid()
      ensures var spec := HandleSpec(lib, rules, req, upstream);
        reply == spec.reply
        && View(capture) == C.Run(lib, Observing(lib, old(View(capture)), req, requestBytes), C.Script(spec.verdict))
      ensures forwarded == ForwardedRequest(lib, rules, req)
      ensures body != null <==> !reply.Gateway?
      ensures body != null ==> fresh(body) && Wraps(body, capture)
    {
      if !Forwards(req) {
        reply := Refuse(capture, req, upstream);
        return reply, None, null;
      }
      forwarded := ForwardRequest(req);
      ghost var start := View(capture);
      capture.ObserveRequestBytes(requestBytes);
      assert View(capture) == Observing(lib, start, req, requestBytes);
      reply, body := Await(capture, req.url, upstream);
    }

    /** One exchange. `requestBytes` is what the upstream client read of the request body. */
    method Handle(req: Request, upstream: Upstream, requestBytes: seq<byte>)
      returns (reply: Reply, forwarded: Option<Fields>, capture: Objects.SharedExchangeCapture,
               body: Objects.ObservedBody?)
      modifies writer
      ensures reply == HandleSpec(lib, rules, req, upstream).reply && forwarded == ForwardedRequest(lib, rules, req)
      ensures capture.Valid()
      ensures View(capture) == C.Run(lib, C.NewExchange(maxBytes, old(writer.offered)),
                                     HandleOps(req, requestBytes, HandleSpec(lib, rules, req, upstream).verdict))
      ensures fresh(capture) && fresh(capture.requestBody) && fresh(capture.responseBody)
      ensures body != null <==> !reply.Gateway?
      ensures body != null ==> fresh(body) && Wraps(body, capture)
    {
      capture := new Objects.SharedExchangeCapture(maxBytes);
      RunHandleOps(lib, View(capture), req, requestBytes, HandleSpec(lib, rules, req, upstream).verdict);
      reply, forwarded, body := Dispatch(capture, req, upstream, requestBytes);
    }

    /** The request body may be read on after the proxy has given an answer of its own. */
    method ReadOn(capture: Objects.SharedExchangeCapture, after: seq<C.Op>)
      requires capture.Valid() && C.Project(after) == []
      modifies capture, capture.requestBody
      ensures capture.Valid() && View(capture) == C.Run(lib, old(View(capture)), after)
    {
      ghost var start := View(capture);
      for i := 0 to |after|
        invariant capture.Valid() && C.Project(after[i..]) == []
        invariant C.Run(lib, start, after) == C.Run(lib, View(capture), after[i..])
      {
        assert after[i..][0] == after[i] && after[i..][1..] == after[i + 1..];
        capture.ObserveRequestBytes(after[i].chunk);
      }
    }

    /** A whole exchange: `handle`, then the response body polled and dropped, request bytes observed meanwhile.
        It adds exactly one event to what the writer has been offered. */
    method Exchange(req: Request, upstream: Upstream, requestBytes: seq<byte>, after: seq<C.Op>,
                    ghost polls: seq<C.InnerPoll>)
      returns (reply: Reply, ghost event: C.ProxyEvent)
      requires C.Project(after)
            == if HandleSpec(lib, rules, req, upstream).verdict.Forwarded? then C.PollOps(polls) + [C.Drop] else []
      modifies writer
      ensures reply == HandleSpec(lib, rules, req, upstream).reply
      ensures writer.offered == old(writer.offered) + [event]
      ensures C.Blank(event)
           == C.Blank(C.ExpectedEvent(lib, maxBytes, HandleSpec(lib, rules, req, upstream).verdict, polls))
      ensures reply.Gateway? <==> event.result in {C.ClientRejected, C.UpstreamError}
    {
      ghost var earlier := writer.offered;
      ghost var verdict := HandleSpec(lib, rules, req, upstream).verdict;
      ghost var ops := HandleOps(req, requestBytes, verdict);
      HandleCompletes(req, requestBytes, verdict, polls, after);
      event := HandledExchange(lib, rules, req, upstream, maxBytes, earlier, ops + after, polls);
      C.RunConcat(lib, C.NewExchange(maxBytes, earlier), ops, after);
      GatewayVerdict(lib, rules, req, upstream);
      var forwarded, capture, body;
      reply, forwarded, capture, body := Handle(req, upstream, requestBytes);
      if body != null {
        body.Execute(lib, after);
      } else {
        ReadOn(capture, after);
      }
    }
  }

  lemma RunHandleOps(lib: Library, x: C.Exchange, req: Request, requestBytes: seq<byte>, v: C.Verdict)
    ensures C.Run(lib, x, HandleOps(req, requestBytes, v))
         == C.Run(lib, Observing(lib, x, req, requestBytes), C.Script(v))
  {
    var ops := HandleOps(req, requestBytes, v);
    if Forwards(req) {
      assert ops[1..] == C.Script(v);
    } else {
      assert ops == C.Script(v);
    }
  }

  // ---------------------------------------------------------------- end-to-end theorems

  lemma TokensKept(h: Fields, value: HeaderValue)
    ensures ConnectionTokens(Without(h, {"host"})) == ConnectionTokens(h)
    ensures ConnectionTokens(Inserted(Without(h, {"host"}), ACCEPT_ENCODING, value)) == ConnectionTokens(h)
  {
    var base := Without(h, {"host"});
    GetAllWithout(h, {"host"}, "connection");
    GetAllInserted(base, ACCEPT_ENCODING, value, "connection");
  }

  lemma NotHopByHop()
    ensures !ForOneHop(ACCEPT_ENCODING)
  {
    assert |ACCEPT_ENCODING| == 15;
  }

  /** The headers of the forwarded request, name by name: no Host, nothing about this hop, Accept-Encoding set to
      identity if it is forced, and every other name as the client sent it. */
  lemma ForwardedValues(h: Fields, forceIdentity: bool, name: string)
    ensures GetAll(ForwardedHeaders(h, forceIdentity), name)
         == if name == "host" || ForOneHop(name) || name in ConnectionTokens(h) then []
            else if name == ACCEPT_ENCODING && forceIdentity then [Encode("identity")]
            else GetAll(h, name)
  {
    var base := Without(h, {"host"});
    var sent := if forceIdentity then Inserted(base, ACCEPT_ENCODING, Encode("identity")) else base;
    TokensKept(h, Encode("identity"));
    StrippedValues(sent, name);
    GetAllInserted(base, ACCEPT_ENCODING, Encode("identity"), name);
    GetAllWithout(h, {"host"}, name);
    assert |"host"| != |ACCEPT_ENCODING|;
  }

  /** If any response to this URL can be buffered, the request asks for an unencoded body: its Accept-Encoding is
      exactly `identity`, unless the client's first Connection value lists accept-encoding, which removes it.
      If none can, the client's own Accept-Encoding goes through under the same condition. */
  lemma PlaintextRequested(lib: Library, rules: seq<Rule>, url: string, h: Fields, responseHeaders: Fields)
    ensures var needs := NeedsPlaintextUpstreamBody(lib, rules, url);
      var values := GetAll(ForwardedHeaders(h, needs), ACCEPT_ENCODING);
      && (UntilBody(lib, rules, 0, url, responseHeaders).disposition.BufferFrom? ==> needs)
      && (ACCEPT_ENCODING in ConnectionTokens(h) ==> values == [])
      && (ACCEPT_ENCODING !in ConnectionTokens(h) ==>
            values == if needs then [Encode("identity")] else GetAll(h, ACCEPT_ENCODING))
  {
    var needs := NeedsPlaintextUpstreamBody(lib, rules, url);
    var base := Without(h, {"host"});
    var sent := if needs then Inserted(base, ACCEPT_ENCODING, Encode("identity")) else base;
    PredictionSound(lib, rules, 0, url, responseHeaders);
    TokensKept(h, Encode("identity"));
    NotHopByHop();
    StrippedValues(sent, ACCEPT_ENCODING);
    GetAllInserted(base, ACCEPT_ENCODING, Encode("identity"), ACCEPT_ENCODING);
    GetAllWithout(h, {"host"}, ACCEPT_ENCODING);
  }

  /** What client and record say of a buffered body. */
  ghost predicate LengthsAgree(lib: Library, maxBytes: nat, reply: Reply, event: C.ProxyEvent)
    requires reply.Buffered?
  {
    && |GetAll(reply.headers, CONTENT_LENGTH)| == 1
    && ToStr(GetAll(reply.headers, CONTENT_LENGTH)[0]) == Some(Decimal(|reply.body|))
    && event.contentLength == (if |reply.body| <= I64_MAX then Some(|reply.body|) else None)
    && (event.result == C.Success ==> C.Covers(lib, maxBytes, reply.body, event.responseBody))
  }

  /** A buffered exchange that is recorded as success: the recorded length, digest and truncation flag are those of
      the transformed body, and the length the client was told is the same. */
  lemma BufferedEventAgrees(lib: Library, rules: seq<Rule>, req: Request, upstream: Upstream, maxBytes: nat,
                            earlier: seq<C.ProxyEvent>, trace: seq<C.Op>, polls: seq<C.InnerPoll>)
    returns (event: C.ProxyEvent)
    requires C.CompleteTrace(trace, HandleSpec(lib, rules, req, upstream).verdict, polls)
    ensures C.Run(lib, C.NewExchange(maxBytes, earlier), trace).sent == earlier + [event]
    ensures var reply := HandleSpec(lib, rules, req, upstream).reply;
      reply.Buffered? && C.Serves(polls, reply.body) ==> LengthsAgree(lib, maxBytes, reply, event)
  {
    var handled, k := HandleSpec(lib, rules, req, upstream), 0;
    event, k := C.ExactlyOneEvent(lib, maxBytes, earlier, trace, handled.verdict, polls);
    if handled.reply.Buffered? && C.Serves(polls, handled.reply.body) {
      var run := Interpret(lib, rules, req.url, Stripped(upstream.headers), upstream.body.value);
      LengthAgrees(run.fields, |run.body|);
      var expected := C.ExpectedEvent(lib, maxBytes, handled.verdict, polls);
      assert C.Blank(event).contentLength == event.contentLength && C.Blank(event).result == event.result;
      assert C.Blank(event).responseBody == event.responseBody;
      if expected.result == C.Success {
        C.SuccessMeansAll(polls, run.body, false);
      }
    }
  }

  lemma {:induction false} ProjectConcat(a: seq<C.Op>, b: seq<C.Op>)
    ensures C.Project(a + b) == C.Project(a) + C.Project(b)
  {
    if a == [] {
      assert a + b == b;
    } else {
      assert (a + b)[0] == a[0] && (a + b)[1..] == a[1..] + b;
      ProjectConcat(a[1..], b);
    }
  }

  lemma HandleOpsProject(req: Request, requestBytes: seq<byte>, v: C.Verdict)
    ensures C.Project(HandleOps(req, requestBytes, v)) == C.Script(v)
  {
    var observed := if Forwards(req) then [C.ObserveRequest(requestBytes)] else [];
    ProjectConcat(observed, C.Script(v));
    assert observed != [] ==> observed[1..] == [];
    assert C.Project(observed) == [];
    ProjectScript(v);
  }

  lemma ProjectScript(v: C.Verdict)
    ensures C.Project(C.Script(v)) == C.Script(v)
  {
    var script := C.Script(v);
    if |script| == 2 {
      assert script[1..] == [script[1]] && [script[1]][1..] == [];
      assert C.Project([script[1]]) == [script[1]];
    } else {
      assert script[1..] == [];
    }
  }

  /** What `Handle` does, followed by the life of the response body, is a complete exchange. */
  lemma HandleCompletes(req: Request, requestBytes: seq<byte>, v: C.Verdict, polls: seq<C.InnerPoll>, after: seq<C.Op>)
    requires C.Project(after) == if v.Forwarded? then C.PollOps(polls) + [C.Drop] else []
    ensures C.CompleteTrace(HandleOps(req, requestBytes, v) + after, v, polls)
  {
    HandleOpsProject(req, requestBytes, v);
    ProjectConcat(HandleOps(req, requestBytes, v), after);
    assert C.Script(v) + [] == C.Script(v);
  }

  /** From the request to the dropped body, wherever request bytes are observed and whatever the writer was offered
      before: one more event, of the kind the reply calls for. */
  lemma HandledExchange(lib: Library, rules: seq<Rule>, req: Request, upstream: Upstream, maxBytes: nat,
                        earlier: seq<C.ProxyEvent>, trace: seq<C.Op>, polls: seq<C.InnerPoll>)
    returns (event: C.ProxyEvent)
    requires C.CompleteTrace(trace, HandleSpec(lib, rules, req, upstream).verdict, polls)
    ensures C.Run(lib, C.NewExchange(maxBytes, earlier), trace).sent == earlier + [event]
    ensures C.Blank(event)
         == C.Blank(C.ExpectedEvent(lib, maxBytes, HandleSpec(lib, rules, req, upstream).verdict, polls))
    ensures HandleSpec(lib, rules, req, upstream).reply.Gateway?
       <==> event.result in {C.ClientRejected, C.UpstreamError}
  {
    var handled, k := HandleSpec(lib, rules, req, upstream), 0;
    event, k := C.ExactlyOneEvent(lib, maxBytes, earlier, trace, handled.verdict, polls);
    assert C.Blank(event).result == event.result;
    GatewayVerdict(lib, rules, req, upstream);
  }

  lemma StreamedOnly(lib: Library, rules: seq<Rule>, req: Request, upstream: Upstream)
    requires HandleSpec(lib, rules, req, upstream).reply.Streamed?
    ensures Forwards(req) && upstream.Responded?
    ensures HandleSpec(lib, rules, req, upstream)
         == HandleResponse(lib, rules, req.url, upstream.status, Stripped(upstream.headers), upstream.body)
  {
  }

  lemma StreamedIs(lib: Library, rules: seq<Rule>, url: string, status: nat, h: Fields,
                   collected: Result<seq<byte>, string>, body: seq<byte>)
    requires HandleResponse(lib, rules, url, status, h, collected).reply.Streamed?
    ensures var handled := HandleResponse(lib, rules, url, status, h, collected);
      var run := Interpret(lib, rules, url, h, body);
      && !run.progress.Failed? && run.body == body && !run.bodyChanged
      && handled.reply
         == Streamed(status, if run.headersChanged then Without(run.fields, {CONTENT_LENGTH}) else run.fields)
      && handled.verdict == C.Forwarded(status, ParseContentLength(handled.reply.headers))
  {
    PrebufferAgreesFrom(lib, rules, 0, url, h, body);
    assert rules[0..] == rules;
  }

  /** A streamed response carries the headers that one pass over the whole response gives, whatever its body;
      no rule would have changed that body. A Content-Length is kept only if no header was rewritten. */
  lemma StreamedResponse(lib: Library, rules: seq<Rule>, req: Request, upstream: Upstream, body: seq<byte>)
    requires HandleSpec(lib, rules, req, upstream).reply.Streamed?
    ensures Forwards(req) && upstream.Responded?
    ensures var handled := HandleSpec(lib, rules, req, upstream);
      var run := Interpret(lib, rules, req.url, Stripped(upstream.headers), body);
      && !run.progress.Failed? && run.body == body && !run.bodyChanged
      && handled.reply
         == Streamed(upstream.status, if run.headersChanged then Without(run.fields, {CONTENT_LENGTH}) else run.fields)
      && handled.verdict == C.Forwarded(upstream.status, ParseContentLength(handled.reply.headers))
  {
    StreamedOnly(lib, rules, req, upstream);
    StreamedIs(lib, rules, req.url, upstream.status, Stripped(upstream.headers), upstream.body, body);
  }

  lemma LengthIs(n: nat)
    ensures LengthValue(n) == Encode(Decimal(n))
  {
    DecimalHeader(n);
  }

  lemma BufferedOnly(lib: Library, rules: seq<Rule>, req: Request, upstream: Upstream)
    requires HandleSpec(lib, rules, req, upstream).reply.Buffered?
    ensures Forwards(req) && upstream.Responded? && upstream.body.Ok?
    ensures HandleSpec(lib, rules, req, upstream)
         == HandleBuffered(lib, rules, req.url, upstream.status, Stripped(upstream.headers), upstream.body.value)
  {
  }

  lemma BufferedIs(lib: Library, rules: seq<Rule>, url: string, status: nat, h: Fields, body: seq<byte>, name: string)
    requires HandleBuffered(lib, rules, url, status, h, body).reply.Buffered?
    ensures var handled, run := HandleBuffered(lib, rules, url, status, h, body), Interpret(lib, rules, url, h, body);
      && !run.progress.Failed?
      && handled.reply.status == status && handled.reply.body == run.body
      && (name != CONTENT_LENGTH ==> GetAll(handled.reply.headers, name) == GetAll(run.fields, name))
      && (name == CONTENT_LENGTH ==> GetAll(handled.reply.headers, name) == [Encode(Decimal(|run.body|))])
      && handled.verdict == C.Forwarded(status, ParseContentLength(handled.reply.headers))
  {
    var run := Interpret(lib, rules, url, h, body);
    LengthIs(|run.body|);
    GetAllInserted(run.fields, CONTENT_LENGTH, LengthValue(|run.body|), name);
  }

  /** A buffered response is what one pass of all rules over the whole upstream response gives: its status, its body,
      and every header but Content-Length, which is the length of that body. */
  lemma BufferedResponse(lib: Library, rules: seq<Rule>, req: Request, upstream: Upstream, name: string)
    requires HandleSpec(lib, rules, req, upstream).reply.Buffered?
    ensures Forwards(req) && upstream.Responded? && upstream.body.Ok?
    ensures var handled := HandleSpec(lib, rules, req, upstream);
      var run := Interpret(lib, rules, req.url, Stripped(upstream.headers), upstream.body.value);
      && !run.progress.Failed?
      && handled.reply.status == upstream.status && handled.reply.body == run.body
      && (name != CONTENT_LENGTH ==> GetAll(handled.reply.headers, name) == GetAll(run.fields, name))
      && (name == CONTENT_LENGTH ==> GetAll(handled.reply.headers, name) == [Encode(Decimal(|run.body|))])
      && handled.verdict == C.Forwarded(upstream.status, ParseContentLength(handled.reply.headers))
  {
    BufferedOnly(lib, rules, req, upstream);
    BufferedIs(lib, rules, req.url, upstream.status, Stripped(upstream.headers), upstream.body.value, name);
  }

  /** After a response the proxy answers by itself exactly if a rule fails, or the body was to be buffered and could not
      be collected. */
  ghost predicate GatewayAfterResponse(lib: Library, rules: seq<Rule>, url: string, h: Fields,
                                       body: Result<seq<byte>, string>, handled: Handled)
  {
    var buffered := exists k | 0 <= k < |rules| :: FirstToNeedBody(lib, rules, 0, k, url, h, []);
    if body.Err? && buffered then
      && handled.reply == Gateway(502)
      && handled.verdict == C.UpstreamFailed(C.ErrorInfo(C.UpstreamProtocol, C.Display(body.error)))
    else
      var run := Interpret(lib, rules, url, h, if body.Ok? then body.value else []);
      && (handled.reply.Gateway? <==> run.progress.Failed?)
      && (run.progress.Failed? ==>
            var name := run.progress.error.name;
            var text := if run.progress.error.NotText? then C.HeaderNotText(name) else C.HeaderInvalid(name);
            handled.reply == Gateway(502) && handled.verdict == C.UpstreamFailed(C.ErrorInfo(C.Internal, text)))
      && (!run.progress.Failed? ==> handled.reply.Buffered? == buffered && handled.reply.Streamed? == !buffered)
  }

  lemma ResponseIff(lib: Library, rules: seq<Rule>, url: string, status: nat, h: Fields,
                    body: Result<seq<byte>, string>)
    ensures GatewayAfterResponse(lib, rules, url, h, body, HandleResponse(lib, rules, url, status, h, body))
  {
    BufferedIff(lib, rules, url, h, []);
    var bytes := if body.Ok? then body.value else [];
    PrebufferAgreesFrom(lib, rules, 0, url, h, bytes);
    assert rules[0..] == rules;
  }

  /** How each call is answered: when the proxy answers by itself, with what status, and what it records. */
  lemma GatewayIff(lib: Library, rules: seq<Rule>, req: Request, upstream: Upstream)
    ensures var handled := HandleSpec(lib, rules, req, upstream);
      && (!req.hostMatches ==>
            && handled.reply == Gateway(421)
            && handled.verdict == C.Rejected(421, C.ErrorInfo(C.ClientProtocol, C.HostMismatch)))
      && (req.hostMatches && req.backendUri.Err? ==>
            && handled.reply == Gateway(400)
            && handled.verdict == C.Rejected(400, C.ErrorInfo(C.Config, C.BadUpstreamUri(req.backendUri.error))))
      && (Forwards(req) && upstream.RequestFailed? ==>
            && handled.reply == Gateway(502)
            && handled.verdict == C.UpstreamFailed(C.ErrorInfo(C.UpstreamProtocol, C.Display(upstream.text))))
      && (Forwards(req) && upstream.TimedOut? ==>
            && handled.reply == Gateway(504)
            && handled.verdict == C.UpstreamFailed(C.ErrorInfo(C.Timeout, C.UpstreamTimeout)))
      && (Forwards(req) && upstream.Responded? ==>
            GatewayAfterResponse(lib, rules, req.url, Stripped(upstream.headers), upstream.body, handled))
  {
    if Forwards(req) && upstream.Responded? {
      ResponseIff(lib, rules, req.url, upstream.status, Stripped(upstream.headers), upstream.body);
    }
  }

  lemma GatewayVerdict(lib: Library, rules: seq<Rule>, req: Request, upstream: Upstream)
    ensures var handled := HandleSpec(lib, rules, req, upstream);
      handled.reply.Gateway? <==> !handled.verdict.Forwarded?
  {
  }
}
