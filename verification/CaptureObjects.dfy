/** The mutable objects of src/capture.rs: body accumulator, shared capture, observed body. */
module CaptureObjects {
  import opened Common
  import C = Capture

  class BodyAccumulator {
    const maxBytes: nat
    var hashed: seq<byte>    // what the hasher was fed
    var retained: seq<byte>
    var truncated: bool
    var sawBytes: bool

    /** The accumulator is what it would be had it seen `content` in one piece. */
    ghost predicate Holds(content: seq<byte>)
      reads this
    {
      && hashed == content
      && retained == content[..C.Min(maxBytes, |content|)]
      && (truncated <==> |content| > maxBytes)
      && (sawBytes <==> content != [])
    }

    constructor (maxBytes: nat)
      ensures this.maxBytes == maxBytes && Holds([])
    {
      this.maxBytes := maxBytes;
      hashed, retained, truncated, sawBytes := [], [], false, false;
    }

    /** However a body is cut into chunks, empty ones included, the state depends on their concatenation only. */
    method Observe(chunk: seq<byte>, ghost content: seq<byte>)
      requires Holds(content)
      modifies this
      ensures Holds(content + chunk)
    {
      if chunk == [] {
        assert content + chunk == content;
        return;
      }
      sawBytes := true;
      hashed := hashed + chunk;
      if |retained| < maxBytes {
        var remaining := maxBytes - |retained|;
        var take := C.Min(remaining, |chunk|);
        retained := retained + chunk[..take];
        if take < |chunk| {
          truncated := true;
        }
      } else {
        truncated := true;
      }
    }

    /** A whole body, chunk by chunk. */
    method ObserveAll(chunks: seq<seq<byte>>, ghost content: seq<byte>)
      requires Holds(content)
      modifies this
      ensures Holds(content + Flatten(chunks))
    {
      ghost var seen := content;
      assert content + [] == content;
      for i := 0 to |chunks|
        invariant Holds(seen) && seen == content + Flatten(chunks[..i])
      {
        Observe(chunks[i], seen);
        assert chunks[..i + 1][..i] == chunks[..i];
        seen := seen + chunks[i];
      }
      assert chunks[..|chunks|] == chunks;
    }

    method Finish(lib: Library, ghost content: seq<byte>) returns (summary: C.BodySummary)
      requires Holds(content)
      ensures summary == C.Summarize(lib, maxBytes, content) && C.Covers(lib, maxBytes, content, summary)
    {
      C.SummaryCovers(lib, maxBytes, content);
      var sha256 := if sawBytes then Some(lib.sha256Hex(hashed)) else None;
      var preview := if retained == [] then None else Some(lib.base64(retained));
      summary := C.BodySummary(sha256, preview, truncated);
    }
  }

  function Flatten(chunks: seq<seq<byte>>): seq<byte> {
    if chunks == [] then [] else Flatten(chunks[..|chunks| - 1]) + chunks[|chunks| - 1]
  }

  /** The sending side of the writer, seen from an exchange. */
  class EventQueue {
    var offered: seq<C.ProxyEvent>

    constructor ()
      ensures offered == []
    {
      offered := [];
    }

    method TrySend(event: C.ProxyEvent)
      modifies this
      ensures offered == old(offered) + [event]
    {
      offered := offered + [event];
    }
  }

  class SharedExchangeCapture {
    var status: Option<nat>
    var contentLength: Option<int>
    var result: C.ProxyResult
    var error: Option<C.ErrorInfo>
    var finalized: bool
    const requestBody: BodyAccumulator
    const responseBody: BodyAccumulator
    ghost var requestBytes: seq<byte>
    ghost var responseBytes: seq<byte>

    ghost predicate Valid()
      reads this, requestBody, responseBody
    {
      && requestBody != responseBody && requestBody.maxBytes == responseBody.maxBytes
      && requestBody.Holds(requestBytes) && responseBody.Holds(responseBytes)
    }

    ghost function View(): C.Capture
      reads this
    {
      C.Capture(responseBody.maxBytes, status, contentLength, result, error, requestBytes, responseBytes, finalized)
    }

    constructor (maxBytes: nat)
      ensures Valid() && View() == C.Fresh(maxBytes)
      ensures fresh(requestBody) && fresh(responseBody)
    {
      status, contentLength, result, error, finalized := None, None, C.Inflight, None, false;
      requestBody := new BodyAccumulator(maxBytes);
      responseBody := new BodyAccumulator(maxBytes);
      requestBytes, responseBytes := [], [];
    }

    method SetRejection(status: nat, error: C.ErrorInfo)
      requires Valid()
      modifies this
      ensures Valid() && View() == C.SetRejection(old(View()), status, error)
    {
      this.status, result, this.error := Some(status), C.ClientRejected, Some(error);
    }

    method SetUpstreamResponse(status: nat, contentLength: Option<int>)
      requires Valid()
      modifies this
      ensures Valid() && View() == C.SetUpstreamResponse(old(View()), status, contentLength)
    {
      this.status, this.contentLength, result := Some(status), contentLength, C.Success;
    }

    method SetUpstreamError(error: C.ErrorInfo)
      requires Valid()
      modifies this
      ensures Valid() && View() == C.SetUpstreamError(old(View()), error)
    {
      result, this.error := C.UpstreamError, Some(error);
    }

    method ObserveRequestBytes(chunk: seq<byte>)
      requires Valid()
      modifies this, requestBody
      ensures Valid() && View() == old(View()).(requestBytes := old(requestBytes) + chunk)
    {
      requestBody.Observe(chunk, requestBytes);
      requestBytes := requestBytes + chunk;
    }

    method ObserveResponseBytes(chunk: seq<byte>)
      requires Valid()
      modifies this, responseBody
      ensures Valid() && View() == old(View()).(responseBytes := old(responseBytes) + chunk)
    {
      responseBody.Observe(chunk, responseBytes);
      responseBytes := responseBytes + chunk;
    }

    method BuildEvent(lib: Library) returns (event: C.ProxyEvent)
      requires Valid()
      ensures event == C.BuildEvent(lib, View())
      ensures C.Covers(lib, requestBody.maxBytes, requestBytes, event.requestBody)
      ensures C.Covers(lib, responseBody.maxBytes, responseBytes, event.responseBody)
    {
      var request := requestBody.Finish(lib, requestBytes);
      var response := responseBody.Finish(lib, responseBytes);
      event := C.ProxyEvent(status, contentLength, result, error, request, response);
    }

    method FinalizeAndSend(lib: Library, writer: EventQueue)
      requires Valid()
      modifies this, writer
      ensures Valid()
      ensures View() == old(View()).(finalized := true)
      ensures writer.offered == old(writer.offered) + if old(finalized) then [] else [C.BuildEvent(lib, old(View()))]
    {
      if finalized {
        return;
      }
      var event := BuildEvent(lib);
      finalized := true;
      writer.TrySend(event);
    }

    method FinalizeWithBodyErrorAndSend(lib: Library, writer: EventQueue, error: C.ErrorInfo)
      requires Valid()
      modifies this, writer
      ensures Valid()
      ensures var c := C.SetBodyError(old(View()), error);
        && View() == c.(finalized := true)
        && writer.offered == old(writer.offered) + if old(finalized) then [] else [C.BuildEvent(lib, c)]
    {
      if this.error.None? {
        result, this.error := C.StreamError, Some(error);
      }
      FinalizeAndSend(lib, writer);
    }
  }

  /** The wrapper around a response body; dropping it is the last thing that happens to it. */
  class ObservedBody {
    const capture: SharedExchangeCapture
    const writer: EventQueue
    var finalized: bool
    var completed: bool

    ghost function View(): C.Exchange
      reads this, capture, writer
    {
      C.Exchange(capture.View(), finalized, completed, writer.offered)
    }

    constructor Response(capture: SharedExchangeCapture, writer: EventQueue)
      ensures this.capture == capture && this.writer == writer && !finalized && !completed
    {
      this.capture, this.writer := capture, writer;
      finalized, completed := false, false;
    }

    method PollFrame(lib: Library, poll: C.InnerPoll)
      requires capture.Valid()
      modifies this, capture, capture.responseBody, writer
      ensures capture.Valid() && View() == C.PollFrame(lib, old(View()), poll)
    {
      match poll
      case Pending =>
      case Frame(data, atEnd) =>
        if data.Some? {
          capture.ObserveResponseBytes(data.value);
        }
        completed := atEnd;
      case Error(text) =>
        capture.FinalizeWithBodyErrorAndSend(lib, writer, C.ErrorInfo(C.UpstreamProtocol, C.Display(text)));
        finalized := true;
      case EndOfStream =>
        completed := true;
        if !finalized {
          capture.FinalizeAndSend(lib, writer);
          finalized := true;
        }
    }

    method Drop(lib: Library)
      requires capture.Valid()
      modifies this, capture, writer
      ensures capture.Valid() && View() == C.DropBody(lib, old(View()))
    {
      if !finalized {
        if completed {
          capture.FinalizeAndSend(lib, writer);
        } else {
          capture.FinalizeWithBodyErrorAndSend(lib, writer, C.DroppedEarly());
        }
        finalized := true;
      }
    }

    method Perform(lib: Library, op: C.Op)
      requires capture.Valid()
      modifies this, capture, capture.requestBody, capture.responseBody, writer
      ensures capture.Valid() && View() == C.Apply(lib, old(View()), op)
    {
      match op
      case Reject(status, error) => capture.SetRejection(status, error);
      case FailUpstream(error) => capture.SetUpstreamError(error);
      case Respond(status, length) => capture.SetUpstreamResponse(status, length);
      case Finalize => capture.FinalizeAndSend(lib, writer);
      case ObserveRequest(chunk) => capture.ObserveRequestBytes(chunk);
      case Poll(inner) => PollFrame(lib, inner);
      case Drop => Drop(lib);
    }

    /** The life of an exchange, in any order of its operations. */
    method Execute(lib: Library, trace: seq<C.Op>)
      requires capture.Valid()
      modifies this, capture, capture.requestBody, capture.responseBody, writer
      ensures capture.Valid() && View() == C.Run(lib, old(View()), trace)
    {
      ghost var start := View();
      for i := 0 to |trace|
        invariant capture.Valid()
        invariant C.Run(lib, start, trace) == C.Run(lib, View(), trace[i..])
      {
        assert trace[i..][0] == trace[i] && trace[i..][1..] == trace[i + 1..];
        Perform(lib, trace[i]);
      }
    }
  }
}
