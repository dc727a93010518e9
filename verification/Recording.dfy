/** Exchanges and the SQLite writer together: what becomes of the event of an exchange (src/capture.rs,
    src/writer.rs). */
module Recording {
  import opened Common
  import C = Capture
  import W = Writer
  import Shutdown = WriterShutdown
  import Progress = WriterProgress

  /** All exchanges of a service, and the writer they share. */
  datatype State = State(service: C.Service, writer: W.System<C.Offered>)

  /** An exchange does something, or the writer's callers and task do. Events come from exchanges only, and an exchange
      holds a sender, so there are none when the last sender is gone. */
  datatype Act = Exchange(move: C.Move) | Write(action: W.Action<C.Offered>)

  function Init(maxBytes: nat, flushRows: nat, capacity: nat): State {
    State(C.Service(maxBytes, map[], []), W.Init(flushRows, capacity))
  }

  /** What a move of an exchange offers the writer. */
  function Sent(lib: Library, s: State, move: C.Move): seq<C.Offered> {
    C.Tagged(move.exchange, C.Apply(lib, C.Private(s.service, move.exchange), move.op).sent)
  }

  function Offers(events: seq<C.Offered>): seq<W.Action<C.Offered>> {
    if events == [] then [] else [W.Offer(events[0])] + Offers(events[1..])
  }

  /** What the writer gets to see of a step. */
  function WriterPart(lib: Library, s: State, a: Act): seq<W.Action<C.Offered>> {
    match a
    case Exchange(move) => if s.writer.sendersAlive then Offers(Sent(lib, s, move)) else []
    case Write(action) => if action.Offer? then [] else [action]
  }

  function Step(lib: Library, s: State, a: Act): State {
    State(if a.Exchange? && s.writer.sendersAlive then C.Act(lib, s.service, a.move) else s.service,
          W.Run(s.writer, WriterPart(lib, s, a)))
  }

  function Run(lib: Library, s: State, acts: seq<Act>): State
    decreases |acts|
  {
    if acts == [] then s else Run(lib, Step(lib, s, acts[0]), acts[1..])
  }

  /** The part of a run that the exchanges see: nothing once the last sender is gone. */
  function Moves(alive: bool, acts: seq<Act>): seq<C.Move>
    decreases |acts|
  {
    if acts == [] then []
    else if acts[0].Exchange? then (if alive then [acts[0].move] else []) + Moves(alive, acts[1..])
    else Moves(alive && !acts[0].action.DropSenders?, acts[1..])
  }

  /** The part of a run that the writer sees. */
  function WriterRun(lib: Library, s: State, acts: seq<Act>): seq<W.Action<C.Offered>>
    decreases |acts|
  {
    if acts == [] then [] else WriterPart(lib, s, acts[0]) + WriterRun(lib, Step(lib, s, acts[0]), acts[1..])
  }

  /** The writer of a service goes through a run of the writer: all that holds of its runs holds of it. */
  lemma {:induction false} WriterRuns(lib: Library, s: State, acts: seq<Act>)
    ensures Run(lib, s, acts).writer == W.Run(s.writer, WriterRun(lib, s, acts))
    decreases |acts|
  {
    if acts != [] {
      var t := Step(lib, s, acts[0]);
      WriterRuns(lib, t, acts[1..]);
      Shutdown.RunConcat(s.writer, WriterPart(lib, s, acts[0]), WriterRun(lib, t, acts[1..]));
    }
  }

  // ---------------------------------------------------------------- the writer is offered what the exchanges offer

  function EventsIn(offered: seq<W.Offered<C.Offered>>): seq<C.Offered> {
    seq(|offered|, i requires 0 <= i < |offered| => offered[i].event)
  }

  ghost predicate Linked(s: State) {
    EventsIn(s.writer.offered) == s.service.offered && W.Conserved(s.writer) && W.Counted(s.writer)
  }

  lemma OfferLinks(w: W.System<C.Offered>, e: C.Offered)
    requires w.sendersAlive
    ensures var t := W.Step(w, W.Offer(e)); EventsIn(t.offered) == EventsIn(w.offered) + [e] && t.sendersAlive
  {
  }

  lemma {:induction false} OffersLink(w: W.System<C.Offered>, events: seq<C.Offered>)
    requires w.sendersAlive
    ensures var t := W.Run(w, Offers(events)); EventsIn(t.offered) == EventsIn(w.offered) + events && t.sendersAlive
    decreases |events|
  {
    if events != [] {
      var rest := Offers(events[1..]);
      assert ([W.Offer(events[0])] + rest)[1..] == rest;
      OfferLinks(w, events[0]);
      OffersLink(W.Step(w, W.Offer(events[0])), events[1..]);
      assert EventsIn(w.offered) + events == EventsIn(w.offered) + [events[0]] + events[1..];
    }
  }

  lemma WriteOffersNothing(w: W.System<C.Offered>, a: W.Action<C.Offered>)
    requires !a.Offer?
    ensures W.Step(w, a).offered == w.offered && W.Step(w, a).sendersAlive == (w.sendersAlive && !a.DropSenders?)
  {
  }

  lemma StepLinks(lib: Library, s: State, a: Act)
    requires Linked(s)
    ensures var t := Step(lib, s, a);
      Linked(t) && t.writer.sendersAlive == (s.writer.sendersAlive && !(a.Write? && a.action.DropSenders?))
  {
    W.RunConserves(s.writer, WriterPart(lib, s, a));
    match a
    case Exchange(move) => if s.writer.sendersAlive { OffersLink(s.writer, Sent(lib, s, move)); }
    case Write(action) =>
      if !action.Offer? {
        Shutdown.RunOne(s.writer, action);
        WriteOffersNothing(s.writer, action);
      }
  }

  /** In every run the writer has been offered what the exchanges offered, in order; and the exchanges do not notice
      what the writer does meanwhile. */
  lemma {:induction false} RunLinks(lib: Library, s: State, acts: seq<Act>)
    requires Linked(s)
    ensures Linked(Run(lib, s, acts))
    ensures Run(lib, s, acts).service == C.ActAll(lib, s.service, Moves(s.writer.sendersAlive, acts))
    decreases |acts|
  {
    if acts != [] {
      StepLinks(lib, s, acts[0]);
      RunLinks(lib, Step(lib, s, acts[0]), acts[1..]);
      if acts[0].Exchange? && s.writer.sendersAlive {
        var rest := Moves(true, acts[1..]);
        assert ([acts[0].move] + rest)[1..] == rest;
      } else if acts[0].Exchange? {
        assert [] + Moves(false, acts[1..]) == Moves(false, acts[1..]);
      }
    }
  }

  // ---------------------------------------------------------------- where the event of an exchange is

  function Refused(offered: seq<W.Offered<C.Offered>>): seq<C.Offered> {
    if offered == [] then []
    else
      var last := offered[|offered| - 1];
      Refused(offered[..|offered| - 1]) + (if last.taken then [] else [last.event])
  }

  /** How many events of exchange i are among `events`. */
  function Share(events: seq<C.Offered>, i: nat): nat { |C.OfferedBy(events, i)| }

  lemma ShareConcat(a: seq<C.Offered>, b: seq<C.Offered>, i: nat)
    ensures Share(a + b, i) == Share(a, i) + Share(b, i)
  {
    C.OfferedByConcat(a, b, i);
  }

  /** Every offer was taken or refused. */
  lemma {:induction false} TakenOrRefused(offered: seq<W.Offered<C.Offered>>, i: nat)
    ensures Share(EventsIn(offered), i) == Share(W.Taken(offered), i) + Share(Refused(offered), i)
    ensures |Refused(offered)| + |W.Taken(offered)| == |offered|
  {
    if offered != [] {
      var front, last := offered[..|offered| - 1], offered[|offered| - 1];
      TakenOrRefused(front, i);
      assert EventsIn(offered) == EventsIn(front) + [last.event];
      ShareConcat(EventsIn(front), [last.event], i);
      ShareConcat(W.Taken(front), [last.event], i);
      ShareConcat(Refused(front), [last.event], i);
      assert W.Taken(front) + [] == W.Taken(front) && Refused(front) + [] == Refused(front);
    }
  }

  lemma ShareOfAccepted(w: W.System<C.Offered>, i: nat)
    requires W.Conserved(w)
    ensures Share(w.accepted, i)
         == Share(w.committed, i) + Share(w.buffer, i) + Share(W.Events(w.queue), i) + Share(w.lost, i)
  {
    var queued := W.Events(w.queue);
    ShareConcat(w.committed, w.buffer, i);
    ShareConcat(w.committed + w.buffer, queued, i);
    ShareConcat(w.committed + w.buffer + queued, w.lost, i);
  }

  lemma {:induction false} MemberOfShare(events: seq<C.Offered>, i: nat, e: C.Offered)
    requires e in events && e.exchange == i
    ensures e.event in C.OfferedBy(events, i)
  {
    if events[0] != e { MemberOfShare(events[1..], i, e); }
  }

  /** Any number of exchanges and the writer, interleaved in any way: a complete exchange has exactly one event in the
      table, in the buffer, in the queue, lost at the end of the task, or refused; and the refused ones are those the
      counter of dropped events counts. */
  lemma RecordedOnce(lib: Library, maxBytes: nat, flushRows: nat, capacity: nat, acts: seq<Act>, i: nat,
                     v: C.Verdict, polls: seq<C.InnerPoll>)
    returns (event: C.ProxyEvent)
    requires C.CompleteTrace(C.Of(Moves(true, acts), i), v, polls)
    ensures C.Blank(event) == C.Blank(C.ExpectedEvent(lib, maxBytes, v, polls))
    ensures var w := Run(lib, Init(maxBytes, flushRows, capacity), acts).writer;
      var refused := Refused(w.offered);
      && Share(w.committed, i) + Share(w.buffer, i) + Share(W.Events(w.queue), i)
         + Share(w.lost, i) + Share(refused, i) == 1
      && (forall e | e in EventsIn(w.offered) && e.exchange == i :: e.event == event)
      && |refused| == w.droppedEvents
      && (C.Offered(i, event) in w.accepted || C.Offered(i, event) in refused)
  {
    var s := Run(lib, Init(maxBytes, flushRows, capacity), acts);
    RunLinks(lib, Init(maxBytes, flushRows, capacity), acts);
    event := C.OneEventEach(lib, maxBytes, Moves(true, acts), i, v, polls);
    TakenOrRefused(s.writer.offered, i);
    ShareOfAccepted(s.writer, i);
    forall e | e in s.service.offered && e.exchange == i ensures e.event == event {
      MemberOfShare(s.service.offered, i, e);
    }
    ShareHasMember(s.service.offered, i, event);
    TakenOrRefusedMember(s.writer.offered, C.Offered(i, event));
  }

  lemma {:induction false} ShareHasMember(events: seq<C.Offered>, i: nat, event: C.ProxyEvent)
    requires event in C.OfferedBy(events, i)
    ensures C.Offered(i, event) in events
  {
    if events[0] != C.Offered(i, event) { ShareHasMember(events[1..], i, event); }
  }

  lemma {:induction false} TakenOrRefusedMember(offered: seq<W.Offered<C.Offered>>, e: C.Offered)
    requires e in EventsIn(offered)
    ensures e in W.Taken(offered) || e in Refused(offered)
  {
    var front := offered[..|offered| - 1];
    assert EventsIn(offered) == EventsIn(front) + [offered[|offered| - 1].event];
    if e in EventsIn(front) { TakenOrRefusedMember(front, e); }
  }

  // ---------------------------------------------------------------- what a shutdown call is good for

  /** When the first shutdown call is answered and the last flush has not failed, the event of every exchange that was
      complete when the call was made is in the table, or had been refused; whatever else goes on meanwhile. */
  lemma ShutdownRecords(lib: Library, maxBytes: nat, flushRows: nat, capacity: nat, acts: seq<Act>, i: nat,
                        v: C.Verdict, polls: seq<C.InnerPoll>,
                        id: nat, after: seq<W.Action<C.Offered>>, a: W.Action<C.Offered>)
    returns (event: C.ProxyEvent)
    requires C.CompleteTrace(C.Of(Moves(true, acts), i), v, polls)
    requires var w := Run(lib, Init(maxBytes, flushRows, capacity), acts).writer;
      w.replies == map[] && id in W.Step(w, W.AskShutdown(id)).replies
    ensures C.Blank(event) == C.Blank(C.ExpectedEvent(lib, maxBytes, v, polls))
    ensures var w := Run(lib, Init(maxBytes, flushRows, capacity), acts).writer;
      var t := W.Run(W.Step(w, W.AskShutdown(id)), after);
      Shutdown.GetsAnswer(t, a, id) && a != W.FlushEnds(false) ==>
        C.Offered(i, event) in W.Step(t, a).committed || C.Offered(i, event) in Refused(w.offered)
  {
    var s := Init(maxBytes, flushRows, capacity);
    event := RecordedOnce(lib, maxBytes, flushRows, capacity, acts, i, v, polls);
    WriterRuns(lib, s, acts);
    Shutdown.FirstCallIsSafe(flushRows, capacity, WriterRun(lib, s, acts), id, after, a);
  }

  /** When the task has ended after a patient drain and a working last flush, nobody sending, the event of every
      complete exchange is in the table or was refused. */
  lemma QuietEndRecords(lib: Library, maxBytes: nat, flushRows: nat, capacity: nat, acts: seq<Act>, i: nat,
                        v: C.Verdict, polls: seq<C.InnerPoll>, rest: seq<W.Action<C.Offered>>)
    returns (event: C.ProxyEvent)
    requires C.CompleteTrace(C.Of(Moves(true, acts), i), v, polls) && Progress.Silent(rest)
    ensures C.Blank(event) == C.Blank(C.ExpectedEvent(lib, maxBytes, v, polls))
    ensures var w := Run(lib, Init(maxBytes, flushRows, capacity), acts).writer;
      var t := W.Run(w, rest);
      && (!w.phase.Exited? && Progress.DrainedFirst(w) && Progress.Patient(w, rest) && Progress.LastFlushWorks(w, rest)
          && t.phase.Exited? ==>
            Share(t.committed, i) + Share(Refused(t.offered), i) == 1
            && (C.Offered(i, event) in t.committed || C.Offered(i, event) in Refused(t.offered)))
  {
    var s := Init(maxBytes, flushRows, capacity);
    event := RecordedOnce(lib, maxBytes, flushRows, capacity, acts, i, v, polls);
    WriterRuns(lib, s, acts);
    RunLinks(lib, s, acts);
    ShareOfAccepted(Run(lib, s, acts).writer, i);
    Progress.ShutdownEnds(flushRows, capacity, WriterRun(lib, s, acts), rest);
  }
}
