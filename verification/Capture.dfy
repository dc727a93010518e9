/** One proxied exchange and the event recorded for it (src/capture.rs). */
module Capture {
  import opened Common

  datatype ProxyResult = Inflight | Success | ClientRejected | UpstreamError | StreamError

  datatype ErrorKind =
    | Config | FrontendTls | BackendTls | Dns | Connect | Timeout | UpstreamProtocol | ClientProtocol
    | SqliteWrite | Internal

  /** The texts recorded with an error: the fixed ones by name, others as the failing library displays them. */
  datatype ErrorText =
    | HostMismatch | BadUpstreamUri(cause: string) | UpstreamTimeout | DroppedBeforeCompletion
    | HeaderNotText(name: string) | HeaderInvalid(name: string) | Display(text: string)

  datatype ErrorInfo = ErrorInfo(kind: ErrorKind, text: ErrorText)

  datatype BodySummary = BodySummary(sha256: Option<string>, previewBase64: Option<string>, truncated: bool)

  function Min(a: nat, b: nat): nat { if a < b then a else b }

  /** What is recorded of a body: the digest of all of it, the first `maxBytes` bytes, whether there was more. */
  function Summarize(lib: Library, maxBytes: nat, content: seq<byte>): BodySummary {
    var retained := content[..Min(maxBytes, |content|)];
    BodySummary(if content == [] then None else Some(lib.sha256Hex(content)),
                if retained == [] then None else Some(lib.base64(retained)),
                |content| > maxBytes)
  }

  /** The summary is that of a whole body: its digest covers all of it, the preview its first `maxBytes` bytes, and it
      is marked as truncated exactly if there are more. */
  predicate Covers(lib: Library, maxBytes: nat, content: seq<byte>, b: BodySummary) {
    && b.sha256 == (if content == [] then None else Some(lib.sha256Hex(content)))
    && (maxBytes == 0 || content == [] ==> b.previewBase64.None?)
    && (0 < |content| <= maxBytes ==> b.previewBase64 == Some(lib.base64(content)))
    && (0 < maxBytes < |content| ==> b.previewBase64 == Some(lib.base64(content[..maxBytes])))
    && (b.truncated <==> |content| > maxBytes)
  }

  lemma SummaryCovers(lib: Library, maxBytes: nat, content: seq<byte>)
    ensures Covers(lib, maxBytes, content, Summarize(lib, maxBytes, content))
  {
    assert content[..|content|] == content;
  }

  // ---------------------------------------------------------------- the capture and its event

  datatype Capture = Capture(
    maxBytes: nat, status: Option<nat>, contentLength: Option<int>, result: ProxyResult, error: Option<ErrorInfo>,
    requestBytes: seq<byte>, responseBytes: seq<byte>, finalized: bool)

  datatype ProxyEvent = ProxyEvent(
    status: Option<nat>, contentLength: Option<int>, result: ProxyResult, error: Option<ErrorInfo>,
    requestBody: BodySummary, responseBody: BodySummary)

  function Fresh(maxBytes: nat): Capture { Capture(maxBytes, None, None, Inflight, None, [], [], false) }

  function BuildEvent(lib: Library, c: Capture): ProxyEvent {
    ProxyEvent(c.status, c.contentLength, c.result, c.error,
               Summarize(lib, c.maxBytes, c.requestBytes), Summarize(lib, c.maxBytes, c.responseBytes))
  }

  function SetRejection(c: Capture, status: nat, error: ErrorInfo): Capture {
    c.(status := Some(status), result := ClientRejected, error := Some(error))
  }

  function SetUpstreamResponse(c: Capture, status: nat, contentLength: Option<int>): Capture {
    c.(status := Some(status), contentLength := contentLength, result := Success)
  }

  function SetUpstreamError(c: Capture, error: ErrorInfo): Capture {
    c.(result := UpstreamError, error := Some(error))
  }

  function SetBodyError(c: Capture, error: ErrorInfo): Capture {
    if c.error.None? then c.(result := StreamError, error := Some(error)) else c
  }

  // ---------------------------------------------------------------- the exchange and the events it offers

  /** What the wrapped upstream body answers when it is polled. */
  datatype InnerPoll = Pending | Frame(data: Option<seq<byte>>, atEnd: bool) | Error(text: string) | EndOfStream

  /** `finalized` and `completed` belong to the response body wrapper. */
  datatype Exchange = Exchange(capture: Capture, finalized: bool, completed: bool, sent: seq<ProxyEvent>)

  datatype Op =
    | Reject(status: nat, error: ErrorInfo)
    | FailUpstream(error: ErrorInfo)
    | Respond(status: nat, contentLength: Option<int>)
    | Finalize
    | ObserveRequest(chunk: seq<byte>)
    | Poll(inner: InnerPoll)
    | Drop

  function FinalizeAndSend(lib: Library, x: Exchange): Exchange {
    if x.capture.finalized then x
    else x.(capture := x.capture.(finalized := true), sent := x.sent + [BuildEvent(lib, x.capture)])
  }

  function FinalizeWithBodyError(lib: Library, x: Exchange, error: ErrorInfo): Exchange {
    FinalizeAndSend(lib, x.(capture := SetBodyError(x.capture, error)))
  }

  function DroppedEarly(): ErrorInfo { ErrorInfo(ClientProtocol, DroppedBeforeCompletion) }

  function PollFrame(lib: Library, x: Exchange, p: InnerPoll): Exchange {
    match p
    case Pending => x
    case Frame(data, atEnd) =>
      var c := if data.Some? then x.capture.(responseBytes := x.capture.responseBytes + data.value) else x.capture;
      x.(capture := c, completed := atEnd)
    case Error(text) => FinalizeWithBodyError(lib, x, ErrorInfo(UpstreamProtocol, Display(text))).(finalized := true)
    case EndOfStream =>
      var y := x.(completed := true);
      if x.finalized then y else FinalizeAndSend(lib, y).(finalized := true)
  }

  function DropBody(lib: Library, x: Exchange): Exchange {
    if x.finalized then x
    else if x.completed then FinalizeAndSend(lib, x).(finalized := true)
    else FinalizeWithBodyError(lib, x, DroppedEarly()).(finalized := true)
  }

  function Apply(lib: Library, x: Exchange, op: Op): Exchange {
    match op
    case Reject(status, error) => x.(capture := SetRejection(x.capture, status, error))
    case FailUpstream(error) => x.(capture := SetUpstreamError(x.capture, error))
    case Respond(status, length) => x.(capture := SetUpstreamResponse(x.capture, status, length))
    case Finalize => FinalizeAndSend(lib, x)
    case ObserveRequest(chunk) => x.(capture := x.capture.(requestBytes := x.capture.requestBytes + chunk))
    case Poll(p) => PollFrame(lib, x, p)
    case Drop => DropBody(lib, x)
  }

  function Run(lib: Library, x: Exchange, ops: seq<Op>): Exchange
    decreases |ops|
  {
    if ops == [] then x else Run(lib, Apply(lib, x, ops[0]), ops[1..])
  }

  lemma {:induction false} RunConcat(lib: Library, x: Exchange, a: seq<Op>, b: seq<Op>)
    ensures Run(lib, x, a + b) == Run(lib, Run(lib, x, a), b)
    decreases |a|
  {
    if a == [] {
      assert a + b == b;
    } else {
      assert (a + b)[0] == a[0] && (a + b)[1..] == a[1..] + b;
      RunConcat(lib, Apply(lib, x, a[0]), a[1..], b);
    }
  }

  /** Once the capture is finalized, nothing that happens sends an event or alters the one sent. */
  lemma {:induction false} SentIsFinal(lib: Library, x: Exchange, ops: seq<Op>)
    requires x.capture.finalized
    ensures Run(lib, x, ops).sent == x.sent && Run(lib, x, ops).capture.finalized
    decreases |ops|
  {
    if ops != [] { SentIsFinal(lib, Apply(lib, x, ops[0]), ops[1..]); }
  }

  // ---------------------------------------------------------------- how a streamed response ends

  predicate Terminal(p: InnerPoll) { p.Error? || p.EndOfStream? }

  /** The error a response ends with, None for success: decided by the first error, end of stream or drop. */
  function Ending(polls: seq<InnerPoll>, completed: bool): Option<ErrorInfo> {
    if polls == [] then (if completed then None else Some(DroppedEarly()))
    else match polls[0]
      case Pending => Ending(polls[1..], completed)
      case Frame(_, atEnd) => Ending(polls[1..], atEnd)
      case Error(text) => Some(ErrorInfo(UpstreamProtocol, Display(text)))
      case EndOfStream => None
  }

  /** The data handed to the client before that. */
  function Delivered(polls: seq<InnerPoll>): seq<byte> {
    if polls == [] || Terminal(polls[0]) then []
    else if polls[0].Frame? && polls[0].data.Some? then polls[0].data.value + Delivered(polls[1..])
    else Delivered(polls[1..])
  }

  /** A response counts as success exactly if the body reported its end, or was dropped after a last frame that
      left it there. */
  lemma {:induction false} SuccessIff(polls: seq<InnerPoll>, completed: bool)
    ensures Ending(polls, completed).None? <==>
      || (exists i | 0 <= i < |polls| :: polls[i].EndOfStream? && forall j | 0 <= j < i :: !Terminal(polls[j]))
      || ((forall j | 0 <= j < |polls| :: !Terminal(polls[j])) && LeftAtEnd(polls, completed))
  {
    if polls != [] {
      var rest, first := polls[1..], polls[0];
      SuccessIff(rest, if first.Frame? then first.atEnd else completed);
      if first.EndOfStream? {
        assert polls[0].EndOfStream?;
      } else if !Terminal(first) {
        if i: int :| 0 <= i < |rest| && rest[i].EndOfStream? && forall j | 0 <= j < i :: !Terminal(rest[j]) {
          assert polls[i + 1].EndOfStream? && forall j | 0 <= j < i + 1 :: !Terminal(polls[j]);
        }
        if i: int :| 0 <= i < |polls| && polls[i].EndOfStream? && forall j | 0 <= j < i :: !Terminal(polls[j]) {
          assert rest[i - 1].EndOfStream?;
        }
        assert forall j | 0 <= j < |rest| :: rest[j] == polls[j + 1];
      }
    }
  }

  predicate NoneTerminal(polls: seq<InnerPoll>) { forall j | 0 <= j < |polls| :: !Terminal(polls[j]) }

  /** The first error or end of stream decides, whatever follows: an error is the upstream's, recorded with its text. */
  lemma {:induction false} FirstTerminalDecides(before: seq<InnerPoll>, first: InnerPoll, rest: seq<InnerPoll>,
                                                completed: bool)
    requires NoneTerminal(before)
    ensures first.EndOfStream? ==> Ending(before + ([first] + rest), completed) == None
    ensures first.Error? ==>
      Ending(before + ([first] + rest), completed) == Some(ErrorInfo(UpstreamProtocol, Display(first.text)))
    decreases |before|
  {
    var all := before + ([first] + rest);
    if before == [] {
      assert all[0] == first;
    } else {
      assert all[0] == before[0] && all[1..] == before[1..] + ([first] + rest);
      FirstTerminalDecides(before[1..], first, rest, if before[0].Frame? then before[0].atEnd else completed);
    }
  }

  /** Without one the drop decides: the client ended early, unless the last frame left the body at its end. */
  lemma {:induction false} DropDecides(polls: seq<InnerPoll>, completed: bool)
    requires NoneTerminal(polls)
    ensures Ending(polls, completed)
         == if LeftAtEnd(polls, completed) then None else Some(ErrorInfo(ClientProtocol, DroppedBeforeCompletion))
    decreases |polls|
  {
    if polls != [] {
      DropDecides(polls[1..], if polls[0].Frame? then polls[0].atEnd else completed);
    }
  }

  /** The last frame, or `completed` if there was none, says that the body was at its end. */
  predicate LeftAtEnd(polls: seq<InnerPoll>, completed: bool) {
    if polls == [] then completed
    else LeftAtEnd(polls[1..], if polls[0].Frame? then polls[0].atEnd else completed)
  }

  /** An error that is already recorded is not replaced by one of the body. */
  lemma FirstErrorStays(lib: Library, x: Exchange, error: ErrorInfo)
    requires !x.capture.finalized
    ensures var y := FinalizeWithBodyError(lib, x, error);
      && |y.sent| == |x.sent| + 1
      && (x.capture.error.Some? ==>
            y.sent[|x.sent|].error == x.capture.error && y.sent[|x.sent|].result == x.capture.result)
      && (x.capture.error.None? ==> y.sent[|x.sent|].error == Some(error) && y.sent[|x.sent|].result == StreamError)
  {
  }

  function PollOps(polls: seq<InnerPoll>): (ops: seq<Op>)
    ensures |ops| == |polls| && forall i | 0 <= i < |polls| :: ops[i] == Poll(polls[i])
  {
    seq(|polls|, i requires 0 <= i < |polls| => Poll(polls[i]))
  }

  /** The event of a response whose body is polled with these answers and then dropped. */
  function WrappedEvent(lib: Library, c: Capture, polls: seq<InnerPoll>, completed: bool): ProxyEvent {
    var ending := Ending(polls, completed);
    BuildEvent(lib, c.(responseBytes := c.responseBytes + Delivered(polls),
                       result := if ending.None? then Success else StreamError, error := ending))
  }

  lemma {:induction false} WrappedResponse(lib: Library, x: Exchange, polls: seq<InnerPoll>)
    requires !x.finalized && !x.capture.finalized && x.capture.result == Success && x.capture.error.None?
    ensures Run(lib, x, PollOps(polls) + [Drop]).sent == x.sent + [WrappedEvent(lib, x.capture, polls, x.completed)]
    decreases |polls|
  {
    var ops := PollOps(polls) + [Drop];
    if polls == [] {
      assert ops == [Drop] && ops[1..] == [];
      assert x.capture.responseBytes + [] == x.capture.responseBytes;
    } else {
      var y := PollFrame(lib, x, polls[0]);
      assert ops[0] == Poll(polls[0]) && ops[1..] == PollOps(polls[1..]) + [Drop];
      if Terminal(polls[0]) {
        SentIsFinal(lib, y, ops[1..]);
        assert x.capture.responseBytes + [] == x.capture.responseBytes;
      } else {
        WrappedResponse(lib, y, polls[1..]);
        if polls[0].Frame? && polls[0].data.Some? {
          assert x.capture.responseBytes + polls[0].data.value + Delivered(polls[1..])
              == x.capture.responseBytes + (polls[0].data.value + Delivered(polls[1..]));
        }
      }
    }
  }

  // ---------------------------------------------------------------- request bytes may be observed at any moment

  function Blank(e: ProxyEvent): ProxyEvent { e.(requestBody := BodySummary(None, None, false)) }

  /** Equal in all that does not concern the request body. */
  ghost predicate Alike(x: Exchange, y: Exchange) {
    && x.capture.(requestBytes := []) == y.capture.(requestBytes := [])
    && x.finalized == y.finalized && x.completed == y.completed
    && |x.sent| == |y.sent| && forall i | 0 <= i < |x.sent| :: Blank(x.sent[i]) == Blank(y.sent[i])
  }

  lemma FinalizeAlike(lib: Library, x: Exchange, y: Exchange)
    requires Alike(x, y)
    ensures Alike(FinalizeAndSend(lib, x), FinalizeAndSend(lib, y))
  {
    assert Blank(BuildEvent(lib, x.capture)) == Blank(BuildEvent(lib, y.capture));
  }

  lemma BodyErrorAlike(lib: Library, x: Exchange, y: Exchange, error: ErrorInfo)
    requires Alike(x, y)
    ensures Alike(FinalizeWithBodyError(lib, x, error), FinalizeWithBodyError(lib, y, error))
  {
    FinalizeAlike(lib, x.(capture := SetBodyError(x.capture, error)), y.(capture := SetBodyError(y.capture, error)));
  }

  lemma PollAlike(lib: Library, x: Exchange, y: Exchange, p: InnerPoll)
    requires Alike(x, y)
    ensures Alike(PollFrame(lib, x, p), PollFrame(lib, y, p))
  {
    match p
    case Pending =>
    case Frame(_, _) =>
    case Error(text) => BodyErrorAlike(lib, x, y, ErrorInfo(UpstreamProtocol, Display(text)));
    case EndOfStream => FinalizeAlike(lib, x.(completed := true), y.(completed := true));
  }

  lemma ApplyAlike(lib: Library, x: Exchange, y: Exchange, op: Op)
    requires Alike(x, y)
    ensures if op.ObserveRequest? then Alike(Apply(lib, x, op), y) else Alike(Apply(lib, x, op), Apply(lib, y, op))
  {
    match op
    case Finalize => FinalizeAlike(lib, x, y);
    case Poll(p) => PollAlike(lib, x, y, p);
    case Drop =>
      FinalizeAlike(lib, x, y);
      BodyErrorAlike(lib, x, y, DroppedEarly());
    case _ =>
  }

  /** What is left of a trace when the request observations are taken out. */
  function Project(trace: seq<Op>): seq<Op> {
    if trace == [] then []
    else if trace[0].ObserveRequest? then Project(trace[1..])
    else [trace[0]] + Project(trace[1..])
  }

  lemma {:induction false} InterleavingIrrelevant(lib: Library, x: Exchange, y: Exchange, trace: seq<Op>)
    requires Alike(x, y)
    ensures Alike(Run(lib, x, trace), Run(lib, y, Project(trace)))
    decreases |trace|
  {
    if trace != [] {
      ApplyAlike(lib, x, y, trace[0]);
      var next := Apply(lib, x, trace[0]);
      if trace[0].ObserveRequest? {
        InterleavingIrrelevant(lib, next, y, trace[1..]);
      } else {
        InterleavingIrrelevant(lib, next, Apply(lib, y, trace[0]), trace[1..]);
        var rest := Project(trace[1..]);
        assert ([trace[0]] + rest)[1..] == rest;
      }
    }
  }

  function Observed(trace: seq<Op>): seq<byte> {
    if trace == [] then []
    else if trace[0].ObserveRequest? then trace[0].chunk + Observed(trace[1..])
    else Observed(trace[1..])
  }

  function RequestSummary(lib: Library, x: Exchange, trace: seq<Op>): BodySummary {
    Summarize(lib, x.capture.maxBytes, x.capture.requestBytes + Observed(trace))
  }

  lemma SummaryAfter(lib: Library, x: Exchange, op: Op, trace: seq<Op>)
    ensures RequestSummary(lib, Apply(lib, x, op), trace) == RequestSummary(lib, x, [op] + trace)
  {
    assert ([op] + trace)[1..] == trace;
    if op.ObserveRequest? {
      assert x.capture.requestBytes + op.chunk + Observed(trace)
          == x.capture.requestBytes + (op.chunk + Observed(trace));
    }
  }

  lemma SentSummary(lib: Library, x: Exchange, op: Op)
    requires x.sent == [] && Apply(lib, x, op).sent != []
    ensures var y := Apply(lib, x, op);
      y.capture.finalized && y.sent[0].requestBody == RequestSummary(lib, x, [])
  {
    assert x.capture.requestBytes + [] == x.capture.requestBytes;
  }

  /** The event is built by operation k of the trace. */
  ghost predicate BuiltBy(lib: Library, x: Exchange, trace: seq<Op>, k: nat) {
    k < |trace| && Run(lib, x, trace[..k]).sent == [] && Run(lib, x, trace[..k + 1]).sent != []
  }

  lemma RunFirst(lib: Library, x: Exchange, trace: seq<Op>, n: nat)
    requires 0 < n <= |trace|
    ensures Run(lib, x, trace[..n]) == Run(lib, Apply(lib, x, trace[0]), trace[1..][..n - 1])
  {
    assert trace[..n][0] == trace[0] && trace[..n][1..] == trace[1..][..n - 1];
  }

  /** The request part of the event is the summary of what had been observed when it was built. */
  lemma {:induction false} RequestRecorded(lib: Library, x: Exchange, trace: seq<Op>) returns (k: nat)
    requires x.sent == [] && Run(lib, x, trace).sent != []
    ensures BuiltBy(lib, x, trace, k)
    ensures Run(lib, x, trace).sent[0].requestBody == RequestSummary(lib, x, trace[..k])
    ensures Covers(lib, x.capture.maxBytes, x.capture.requestBytes + Observed(trace[..k]),
                   Run(lib, x, trace).sent[0].requestBody)
    decreases |trace|
  {
    var y := Apply(lib, x, trace[0]);
    if y.sent != [] {
      SentSummary(lib, x, trace[0]);
      SentIsFinal(lib, y, trace[1..]);
      k := 0;
      RunFirst(lib, x, trace, 1);
      SummaryCovers(lib, x.capture.maxBytes, x.capture.requestBytes + Observed(trace[..k]));
    } else {
      var i := RequestRecorded(lib, y, trace[1..]);
      SummaryAfter(lib, x, trace[0], trace[1..][..i]);
      k := i + 1;
      assert trace[..k] == [trace[0]] + trace[1..][..i];
      RunFirst(lib, x, trace, k);
      RunFirst(lib, x, trace, k + 1);
      SummaryCovers(lib, x.capture.maxBytes, x.capture.requestBytes + Observed(trace[..k]));
    }
  }

  /** A body error is recorded under one lock and sent under another; request bytes observed in between count as if
      observed before, so the two may be taken as one operation. */
  lemma ObservedBetweenLocks(lib: Library, x: Exchange, chunk: seq<byte>, error: ErrorInfo)
    ensures FinalizeAndSend(lib, Apply(lib, x.(capture := SetBodyError(x.capture, error)), ObserveRequest(chunk)))
         == FinalizeWithBodyError(lib, Apply(lib, x, ObserveRequest(chunk)), error)
  {
  }

  // ---------------------------------------------------------------- exactly one event per exchange

  /** How `handle` ends: with an answer of its own, or with a wrapped upstream response. */
  datatype Verdict =
    | Rejected(status: nat, error: ErrorInfo)
    | UpstreamFailed(error: ErrorInfo)
    | Forwarded(status: nat, contentLength: Option<int>)

  /** What `handle` does to the capture for each verdict. */
  function Script(v: Verdict): seq<Op> {
    match v
    case Rejected(status, error) => [Reject(status, error), Finalize]
    case UpstreamFailed(error) => [FailUpstream(error), Finalize]
    case Forwarded(status, length) => [Respond(status, length)]
  }

  /** `handle` returned with `v`; a forwarded body was then polled with `polls` and dropped. */
  ghost predicate CompleteTrace(trace: seq<Op>, v: Verdict, polls: seq<InnerPoll>) {
    Project(trace) == if v.Forwarded? then Script(v) + (PollOps(polls) + [Drop]) else Script(v)
  }

  function ExpectedEvent(lib: Library, maxBytes: nat, v: Verdict, polls: seq<InnerPoll>): ProxyEvent {
    var nothing := Summarize(lib, maxBytes, []);
    match v
    case Rejected(status, error) => ProxyEvent(Some(status), None, ClientRejected, Some(error), nothing, nothing)
    case UpstreamFailed(error) => ProxyEvent(None, None, UpstreamError, Some(error), nothing, nothing)
    case Forwarded(status, length) =>
      var ending := Ending(polls, false);
      ProxyEvent(Some(status), length, if ending.None? then Success else StreamError, ending,
                 nothing, Summarize(lib, maxBytes, Delivered(polls)))
  }

  /** An exchange begins on a writer that has been offered `earlier` events. */
  function NewExchange(maxBytes: nat, earlier: seq<ProxyEvent>): Exchange {
    Exchange(Fresh(maxBytes), false, false, earlier)
  }

  /** Events offered before do not matter: they stay, and the exchange adds what it adds to an unused writer. */
  lemma {:induction false} EarlierStay(lib: Library, x: Exchange, earlier: seq<ProxyEvent>, trace: seq<Op>)
    ensures Run(lib, x.(sent := earlier + x.sent), trace)
         == Run(lib, x, trace).(sent := earlier + Run(lib, x, trace).sent)
    decreases |trace|
  {
    if trace != [] {
      ApplyAfterEarlier(lib, x, earlier, trace[0]);
      EarlierStay(lib, Apply(lib, x, trace[0]), earlier, trace[1..]);
    }
  }

  lemma FinalizeAfterEarlier(lib: Library, x: Exchange, earlier: seq<ProxyEvent>)
    ensures FinalizeAndSend(lib, x.(sent := earlier + x.sent))
         == FinalizeAndSend(lib, x).(sent := earlier + FinalizeAndSend(lib, x).sent)
  {
    var event := BuildEvent(lib, x.capture);
    assert earlier + x.sent + [event] == earlier + (x.sent + [event]);
  }

  lemma ApplyAfterEarlier(lib: Library, x: Exchange, earlier: seq<ProxyEvent>, op: Op)
    ensures Apply(lib, x.(sent := earlier + x.sent), op) == Apply(lib, x, op).(sent := earlier + Apply(lib, x, op).sent)
  {
    match op
    case Finalize => FinalizeAfterEarlier(lib, x, earlier);
    case Poll(Error(text)) =>
      var error := ErrorInfo(UpstreamProtocol, Display(text));
      FinalizeAfterEarlier(lib, x.(capture := SetBodyError(x.capture, error)), earlier);
    case Poll(EndOfStream) => FinalizeAfterEarlier(lib, x.(completed := true), earlier);
    case Drop =>
      FinalizeAfterEarlier(lib, x, earlier);
      FinalizeAfterEarlier(lib, x.(capture := SetBodyError(x.capture, DroppedEarly())), earlier);
    case _ =>
  }

  lemma ScriptedExchange(lib: Library, maxBytes: nat, v: Verdict, polls: seq<InnerPoll>)
    ensures var ops := if v.Forwarded? then Script(v) + (PollOps(polls) + [Drop]) else Script(v);
      Run(lib, NewExchange(maxBytes, []), ops).sent == [ExpectedEvent(lib, maxBytes, v, polls)]
  {
    var x := NewExchange(maxBytes, []);
    match v
    case Rejected(status, error) =>
      RunTwo(lib, x, Reject(status, error), Finalize);
    case UpstreamFailed(error) =>
      RunTwo(lib, x, FailUpstream(error), Finalize);
    case Forwarded(status, length) =>
      var y := Apply(lib, x, Respond(status, length));
      RunConcat(lib, x, Script(v), PollOps(polls) + [Drop]);
      assert Script(v)[1..] == [];
      assert Run(lib, x, Script(v)) == y;
      WrappedResponse(lib, y, polls);
      assert [] + Delivered(polls) == Delivered(polls);
  }

  lemma RunTwo(lib: Library, x: Exchange, a: Op, b: Op)
    ensures Run(lib, x, [a, b]) == Apply(lib, Apply(lib, x, a), b)
  {
    assert [a, b][1..] == [b] && [b][1..] == [];
    assert Run(lib, x, [a, b]) == Run(lib, Apply(lib, x, a), [b]);
  }

  /** Every exchange offers the writer exactly one event, whatever was offered before. Its result, error, status,
      length and response body are fixed by how `handle` and the response body ended, wherever request bytes were
      observed in between; its request body is what had been observed when operation k built it. */
  lemma ExactlyOneEvent(lib: Library, maxBytes: nat, earlier: seq<ProxyEvent>, trace: seq<Op>, v: Verdict,
                        polls: seq<InnerPoll>)
    returns (event: ProxyEvent, k: nat)
    requires CompleteTrace(trace, v, polls)
    ensures Run(lib, NewExchange(maxBytes, earlier), trace).sent == earlier + [event]
    ensures Blank(event) == Blank(ExpectedEvent(lib, maxBytes, v, polls))
    ensures BuiltBy(lib, NewExchange(maxBytes, []), trace, k)
    ensures Covers(lib, maxBytes, Observed(trace[..k]), event.requestBody)
    ensures Covers(lib, maxBytes, if v.Forwarded? then Delivered(polls) else [], event.responseBody)
  {
    var x := NewExchange(maxBytes, []);
    InterleavingIrrelevant(lib, x, x, trace);
    ScriptedExchange(lib, maxBytes, v, polls);
    k := RequestRecorded(lib, x, trace);
    event := Run(lib, x, trace).sent[0];
    SummaryCovers(lib, maxBytes, Observed(trace[..k]));
    SummaryCovers(lib, maxBytes, if v.Forwarded? then Delivered(polls) else []);
    assert Blank(event).responseBody == event.responseBody;
    assert [] + Observed(trace[..k]) == Observed(trace[..k]);
    EarlierStay(lib, x, earlier, trace);
    assert earlier + [] == earlier && Run(lib, x, trace).sent == [event];
  }

  /** No event is in flight, and an error is recorded exactly with the three failing results. */
  lemma EventClassified(lib: Library, maxBytes: nat, earlier: seq<ProxyEvent>, trace: seq<Op>, v: Verdict,
                        polls: seq<InnerPoll>)
    returns (event: ProxyEvent)
    requires CompleteTrace(trace, v, polls)
    ensures Run(lib, NewExchange(maxBytes, earlier), trace).sent == earlier + [event]
    ensures event.result != Inflight
    ensures event.error.Some? <==> event.result in {ClientRejected, UpstreamError, StreamError}
  {
    var k;
    event, k := ExactlyOneEvent(lib, maxBytes, earlier, trace, v, polls);
    assert Blank(event).result == event.result && Blank(event).error == event.error;
  }

  /** A response whose body nobody polls, however empty it is, is recorded as a stream error. */
  lemma UnpolledBodyIsStreamError(lib: Library, maxBytes: nat, earlier: seq<ProxyEvent>, status: nat,
                                  length: Option<int>)
    ensures var nothing := Summarize(lib, maxBytes, []);
      Run(lib, NewExchange(maxBytes, earlier), [Respond(status, length), Drop]).sent
      == earlier + [ProxyEvent(Some(status), length, StreamError, Some(DroppedEarly()), nothing, nothing)]
  {
    RunTwo(lib, NewExchange(maxBytes, earlier), Respond(status, length), Drop);
  }

  // ---------------------------------------------------------------- several exchanges on one writer

  /** An operation of one of several exchanges. */
  datatype Move = Move(exchange: nat, op: Op)

  /** An event, and the exchange that offered it. */
  datatype Offered = Offered(exchange: nat, event: ProxyEvent)

  /** The state of each exchange, without the writer they share, and what that writer has been offered. */
  datatype Service = Service(maxBytes: nat, exchanges: map<nat, Exchange>, offered: seq<Offered>)

  function Private(s: Service, i: nat): Exchange {
    if i in s.exchanges then s.exchanges[i].(sent := []) else NewExchange(s.maxBytes, [])
  }

  function Tagged(i: nat, events: seq<ProxyEvent>): seq<Offered> {
    if events == [] then [] else [Offered(i, events[0])] + Tagged(i, events[1..])
  }

  function Events(offered: seq<Offered>): seq<ProxyEvent> {
    if offered == [] then [] else [offered[0].event] + Events(offered[1..])
  }

  function Act(lib: Library, s: Service, m: Move): Service {
    var y := Apply(lib, Private(s, m.exchange), m.op);
    s.(exchanges := s.exchanges[m.exchange := y.(sent := [])], offered := s.offered + Tagged(m.exchange, y.sent))
  }

  function ActAll(lib: Library, s: Service, moves: seq<Move>): Service
    decreases |moves|
  {
    if moves == [] then s else ActAll(lib, Act(lib, s, moves[0]), moves[1..])
  }

  lemma {:induction false} EventsOfTagged(offered: seq<Offered>, i: nat, events: seq<ProxyEvent>)
    ensures Events(offered + Tagged(i, events)) == Events(offered) + events
    decreases |offered|, |events|
  {
    if offered == [] {
      assert offered + Tagged(i, events) == Tagged(i, events);
      if events != [] {
        EventsOfTagged([], i, events[1..]);
        assert [] + Tagged(i, events[1..]) == Tagged(i, events[1..]);
        assert ([Offered(i, events[0])] + Tagged(i, events[1..]))[1..] == Tagged(i, events[1..]);
      }
    } else {
      assert (offered + Tagged(i, events))[0] == offered[0];
      assert (offered + Tagged(i, events))[1..] == offered[1..] + Tagged(i, events);
      EventsOfTagged(offered[1..], i, events);
    }
  }

  /** One operation does to the shared writer what it does when the exchange is alone with it. */
  lemma SharedWriter(lib: Library, s: Service, m: Move)
    ensures Apply(lib, Private(s, m.exchange).(sent := Events(s.offered)), m.op)
         == Private(Act(lib, s, m), m.exchange).(sent := Events(Act(lib, s, m).offered))
  {
    var x := Private(s, m.exchange);
    ApplyAfterEarlier(lib, x, Events(s.offered), m.op);
    assert Events(s.offered) + [] == Events(s.offered);
    EventsOfTagged(s.offered, m.exchange, Apply(lib, x, m.op).sent);
  }

  /** The operations of one exchange. */
  function Of(moves: seq<Move>, i: nat): seq<Op> {
    if moves == [] then []
    else if moves[0].exchange == i then [moves[0].op] + Of(moves[1..], i)
    else Of(moves[1..], i)
  }

  /** What one exchange has offered. */
  function OfferedBy(offered: seq<Offered>, i: nat): seq<ProxyEvent> {
    if offered == [] then []
    else if offered[0].exchange == i then [offered[0].event] + OfferedBy(offered[1..], i)
    else OfferedBy(offered[1..], i)
  }

  lemma {:induction false} OfferedByConcat(a: seq<Offered>, b: seq<Offered>, i: nat)
    ensures OfferedBy(a + b, i) == OfferedBy(a, i) + OfferedBy(b, i)
  {
    if a == [] {
      assert a + b == b;
    } else {
      assert (a + b)[0] == a[0] && (a + b)[1..] == a[1..] + b;
      OfferedByConcat(a[1..], b, i);
    }
  }

  lemma {:induction false} OfferedByTagged(j: nat, events: seq<ProxyEvent>, i: nat)
    ensures OfferedBy(Tagged(j, events), i) == if i == j then events else []
  {
    if events != [] {
      OfferedByTagged(j, events[1..], i);
      assert ([Offered(j, events[0])] + Tagged(j, events[1..]))[1..] == Tagged(j, events[1..]);
    }
  }

  /** What exchange i sees of the service: itself, and its own events. */
  function Share(s: Service, i: nat): Exchange { Private(s, i).(sent := OfferedBy(s.offered, i)) }

  lemma ActShare(lib: Library, s: Service, m: Move, i: nat)
    ensures Share(Act(lib, s, m), i) == if m.exchange == i then Apply(lib, Share(s, i), m.op) else Share(s, i)
  {
    var y := Apply(lib, Private(s, m.exchange), m.op);
    OfferedByConcat(s.offered, Tagged(m.exchange, y.sent), i);
    OfferedByTagged(m.exchange, y.sent, i);
    assert OfferedBy(s.offered, i) + [] == OfferedBy(s.offered, i);
    ApplyAfterEarlier(lib, Private(s, m.exchange), OfferedBy(s.offered, i), m.op);
  }

  /** However exchanges interleave, each goes through its own operations only. */
  lemma {:induction false} ExchangesIndependent(lib: Library, s: Service, moves: seq<Move>, i: nat)
    ensures Share(ActAll(lib, s, moves), i) == Run(lib, Share(s, i), Of(moves, i))
    decreases |moves|
  {
    if moves != [] {
      ActShare(lib, s, moves[0], i);
      ExchangesIndependent(lib, Act(lib, s, moves[0]), moves[1..], i);
      if moves[0].exchange == i {
        var rest := Of(moves[1..], i);
        assert ([moves[0].op] + rest)[1..] == rest;
      }
    }
  }

  /** Any number of exchanges interleaved on one writer: each complete one has offered it exactly one event. */
  lemma OneEventEach(lib: Library, maxBytes: nat, moves: seq<Move>, i: nat, v: Verdict, polls: seq<InnerPoll>)
    returns (event: ProxyEvent)
    requires CompleteTrace(Of(moves, i), v, polls)
    ensures OfferedBy(ActAll(lib, Service(maxBytes, map[], []), moves).offered, i) == [event]
    ensures Blank(event) == Blank(ExpectedEvent(lib, maxBytes, v, polls))
  {
    var k;
    ExchangesIndependent(lib, Service(maxBytes, map[], []), moves, i);
    event, k := ExactlyOneEvent(lib, maxBytes, [], Of(moves, i), v, polls);
    assert [] + [event] == [event];
  }

  // ---------------------------------------------------------------- bodies of known content

  /** The answers come from a body that holds `content` and says so truthfully when it is at its end. */
  ghost predicate Serves(polls: seq<InnerPoll>, content: seq<byte>) {
    if polls == [] then true
    else match polls[0]
      case Pending => Serves(polls[1..], content)
      case Frame(data, atEnd) =>
        var chunk := if data.Some? then data.value else [];
        chunk <= content && (atEnd ==> chunk == content) && Serves(polls[1..], content[|chunk|..])
      case Error(_) => true
      case EndOfStream => content == []
  }

  /** A response recorded as success was delivered, hence hashed, in full. */
  lemma {:induction false} SuccessMeansAll(polls: seq<InnerPoll>, content: seq<byte>, completed: bool)
    requires Serves(polls, content) && Ending(polls, completed).None? && (completed ==> content == [])
    ensures Delivered(polls) == content
  {
    if polls != [] {
      match polls[0]
      case Pending => SuccessMeansAll(polls[1..], content, completed);
      case Frame(data, atEnd) =>
        var chunk := if data.Some? then data.value else [];
        SuccessMeansAll(polls[1..], content[|chunk|..], atEnd);
      case EndOfStream =>
    }
  }

  /** However a response ends, what was delivered and hashed is the beginning of its body. */
  lemma {:induction false} DeliveredIsPrefix(polls: seq<InnerPoll>, content: seq<byte>)
    requires Serves(polls, content)
    ensures Delivered(polls) <= content
  {
    if polls != [] {
      match polls[0]
      case Pending => DeliveredIsPrefix(polls[1..], content);
      case Frame(data, _) =>
        var chunk := if data.Some? then data.value else [];
        DeliveredIsPrefix(polls[1..], content[|chunk|..]);
        assert content == chunk + content[|chunk|..];
      case _ =>
    }
  }
}
