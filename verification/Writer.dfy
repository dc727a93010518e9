/** The SQLite writer (src/writer.rs): senders, a bounded channel and one writer task, as a system of steps. */
module Writer {
  import opened Common

  datatype Message<E> = Event(event: E) | Shutdown(id: nat)

  /** What the task does when a flush attempt is over. */
  datatype After = BackToLoop | Leave(reply: Option<nat>)

  /** Where the task is: in `select!`, awaiting a transaction, in one of the two drain loops, or gone. */
  datatype Phase = Selecting | Flushing(after: After) | Draining(reply: nat, timed: bool) | Exited

  /** The reply channel of one `shutdown` call; `mark` counts the events accepted before its message. */
  datatype Reply = Waiting(mark: nat) | Acknowledged(mark: nat) | Dropped

  datatype Offered<E> = Offered(event: E, taken: bool)

  datatype System<E> = System(
    flushRows: nat, capacity: nat,
    queue: seq<Message<E>>, buffer: seq<E>, phase: Phase, sendersAlive: bool,
    droppedEvents: nat, writeFailures: nat, replies: map<nat, Reply>,
    // histories
    offered: seq<Offered<E>>, accepted: seq<E>, committed: seq<E>, lost: seq<E>)

  datatype Action<E> =
    | Offer(event: E)           // try_send
    | AskShutdown(id: nat)      // one attempt of the loop in shutdown
    | DropSenders               // the last handle goes away
    | Receive                   // the task takes a message in select!
    | Tick                      // the flush interval elapses in select!
    | FlushEnds(success: bool)  // the pending transaction commits or fails
    | DrainNext                 // a drain loop takes a message
    | DrainIdle                 // try_recv finds nothing, or the 100 ms pass

  function Init<E>(flushRows: nat, capacity: nat): System<E> {
    System(flushRows, capacity, [], [], Selecting, true, 0, 0, map[], [], [], [], [])
  }

  function Events<E>(queue: seq<Message<E>>): seq<E> {
    if queue == [] then []
    else if queue[0].Event? then [queue[0].event] + Events(queue[1..])
    else Events(queue[1..])
  }

  function Settle(replies: map<nat, Reply>, acknowledged: Option<nat>): map<nat, Reply> {
    map id | id in replies ::
      if !replies[id].Waiting? then replies[id]
      else if acknowledged == Some(id) then Acknowledged(replies[id].mark)
      else Dropped
  }

  /** The task answers the caller it serves, ends, and drops the receiver with all that is in it. */
  function Exit<E>(s: System<E>, reply: Option<nat>): System<E> {
    s.(phase := Exited, replies := Settle(s.replies, reply),
       lost := s.buffer + Events(s.queue), buffer := [], queue := [])
  }

  function AfterFlush<E>(s: System<E>, after: After): System<E> {
    match after
    case BackToLoop => s.(phase := Selecting)
    case Leave(reply) => Exit(s, reply)
  }

  /** `try_flush`: nothing to do for an empty buffer. */
  function BeginFlush<E>(s: System<E>, after: After): System<E> {
    if s.buffer == [] then AfterFlush(s, after) else s.(phase := Flushing(after))
  }

  // ---------------------------------------------------------------- the steps

  /** `try_send`: into the queue, or dropped and counted. */
  function TrySend<E>(s: System<E>, e: E): System<E> {
    if !s.phase.Exited? && |s.queue| < s.capacity then
      s.(offered := s.offered + [Offered(e, true)], accepted := s.accepted + [e], queue := s.queue + [Event(e)])
    else
      s.(offered := s.offered + [Offered(e, false)], droppedEvents := s.droppedEvents + 1)
  }

  /** One attempt of `shutdown`: sent, to be tried again, or answered at once because the channel is closed. */
  function Ask<E>(s: System<E>, id: nat): System<E> {
    if s.phase.Exited? then s.(replies := s.replies[id := Dropped])
    else if |s.queue| < s.capacity then
      s.(queue := s.queue + [Shutdown(id)], replies := s.replies[id := Waiting(|s.accepted|)])
    else s
  }

  function PushEvent<E>(s: System<E>): System<E>
    requires s.queue != [] && s.queue[0].Event?
  {
    s.(queue := s.queue[1..], buffer := s.buffer + [s.queue[0].event])
  }

  function ReceiveMessage<E>(s: System<E>): System<E>
    requires s.phase.Selecting?
  {
    if s.queue == [] then (if s.sendersAlive then s else BeginFlush(s, Leave(None)))
    else match s.queue[0]
      case Event(_) =>
        var t := PushEvent(s);
        if |t.buffer| >= t.flushRows then BeginFlush(t, BackToLoop) else t
      case Shutdown(id) => s.(queue := s.queue[1..], phase := Draining(id, false))
  }

  function EndFlush<E>(s: System<E>, success: bool): System<E>
    requires s.phase.Flushing?
  {
    if success then AfterFlush(s.(committed := s.committed + s.buffer, buffer := []), s.phase.after)
    else AfterFlush(s.(writeFailures := s.writeFailures + 1), s.phase.after)
  }

  function Answered(replies: map<nat, Reply>, id: nat): map<nat, Reply> {
    if id in replies && replies[id].Waiting? then replies[id := Acknowledged(replies[id].mark)] else replies
  }

  /** Both drain loops treat a message alike; a further shutdown request is answered on the spot. */
  function DrainMessage<E>(s: System<E>): System<E>
    requires s.queue != []
  {
    match s.queue[0]
    case Event(_) => PushEvent(s)
    case Shutdown(id) => s.(queue := s.queue[1..], replies := Answered(s.replies, id))
  }

  /** The first loop ends when the queue is empty, the second after 100 ms without a message. */
  function DrainPause<E>(s: System<E>): System<E>
    requires s.phase.Draining?
  {
    if s.phase.timed then BeginFlush(s, Leave(Some(s.phase.reply)))
    else if s.queue == [] then s.(phase := Draining(s.phase.reply, true))
    else s
  }

  /** One atomic step. An action that is not enabled changes nothing. */
  function Step<E>(s: System<E>, a: Action<E>): System<E> {
    match a
    case Offer(e) => if s.sendersAlive then TrySend(s, e) else s
    case AskShutdown(id) => if s.sendersAlive && id !in s.replies then Ask(s, id) else s
    case DropSenders => s.(sendersAlive := false)
    case Receive => if s.phase.Selecting? then ReceiveMessage(s) else s
    case Tick => if s.phase.Selecting? then BeginFlush(s, BackToLoop) else s
    case FlushEnds(success) => if s.phase.Flushing? then EndFlush(s, success) else s
    case DrainNext => if s.phase.Draining? && s.queue != [] then DrainMessage(s) else s
    case DrainIdle => if s.phase.Draining? then DrainPause(s) else s
  }

  function Run<E>(s: System<E>, actions: seq<Action<E>>): System<E>
    decreases |actions|
  {
    if actions == [] then s else Run(Step(s, actions[0]), actions[1..])
  }

  // ---------------------------------------------------------------- conservation

  /** Every accepted event is committed, buffered, queued or, once the task is gone, lost: in acceptance order. */
  ghost predicate Conserved<E>(s: System<E>) {
    && s.committed + s.buffer + Events(s.queue) + s.lost == s.accepted
    && (!s.phase.Exited? ==> s.lost == [])
    && (s.phase.Exited? ==> s.buffer == [] && s.queue == [])
    && (s.phase.Flushing? ==> s.buffer != [])
    && |s.queue| <= s.capacity
  }

  function Taken<E>(offered: seq<Offered<E>>): seq<E> {
    if offered == [] then []
    else
      var last := offered[|offered| - 1];
      Taken(offered[..|offered| - 1]) + (if last.taken then [last.event] else [])
  }

  /** The accepted events are the offers that were taken, in order; the counter counts all others. */
  ghost predicate Counted<E>(s: System<E>) {
    s.accepted == Taken(s.offered) && |s.offered| == |s.accepted| + s.droppedEvents
  }

  lemma TrySendCounts<E>(s: System<E>, e: E)
    requires Counted(s)
    ensures Counted(TrySend(s, e))
  {
    var offered := TrySend(s, e).offered;
    assert offered[..|offered| - 1] == s.offered;
  }

  /** An event is refused exactly if the channel is full or its receiver gone, and then it is counted. */
  lemma OfferIff<E>(s: System<E>, e: E)
    requires s.sendersAlive
    ensures var t := Step(s, Offer(e));
      var refused := s.phase.Exited? || |s.queue| >= s.capacity;
      && t.offered == s.offered + [Offered(e, !refused)]
      && t.accepted == (if refused then s.accepted else s.accepted + [e])
      && t.droppedEvents == s.droppedEvents + (if refused then 1 else 0)
      && t.committed == s.committed && t.buffer == s.buffer && t.phase == s.phase && t.replies == s.replies
  {
  }

  /** A shutdown call is queued behind all messages, settled at once because the receiver is gone, or, while the channel
      is full, to be tried again: nothing has changed then. */
  lemma AskIff<E>(s: System<E>, id: nat)
    requires s.sendersAlive && id !in s.replies
    ensures var t := Step(s, AskShutdown(id));
      && (s.phase.Exited? ==> t == s.(replies := s.replies[id := Dropped]))
      && (!s.phase.Exited? && |s.queue| < s.capacity ==>
            t.queue == s.queue + [Shutdown(id)] && t.replies == s.replies[id := Waiting(|s.accepted|)])
      && (!s.phase.Exited? && |s.queue| >= s.capacity ==> t == s)
      && t.accepted == s.accepted && t.committed == s.committed && t.droppedEvents == s.droppedEvents
  {
  }

  lemma StepCounts<E>(s: System<E>, a: Action<E>)
    requires Counted(s)
    ensures Counted(Step(s, a))
  {
    if a.Offer? { TrySendCounts(s, a.event); }
  }

  lemma {:induction false} EventsConcat<E>(a: seq<Message<E>>, b: seq<Message<E>>)
    ensures Events(a + b) == Events(a) + Events(b)
  {
    if a == [] {
      assert a + b == b;
    } else {
      assert (a + b)[0] == a[0] && (a + b)[1..] == a[1..] + b;
      EventsConcat(a[1..], b);
    }
  }

  lemma AfterFlushConserves<E>(s: System<E>, after: After)
    requires Conserved(s.(phase := Selecting))
    ensures Conserved(AfterFlush(s, after))
  {
    assert s.committed + s.buffer + Events(s.queue) + [] == s.committed + [] + [] + (s.buffer + Events(s.queue));
  }

  lemma BeginFlushConserves<E>(s: System<E>, after: After)
    requires Conserved(s.(phase := Selecting))
    ensures Conserved(BeginFlush(s, after)) && BeginFlush(s, after).committed == s.committed
  {
    if s.buffer == [] { AfterFlushConserves(s, after); }
  }

  lemma PushEventConserves<E>(s: System<E>)
    requires Conserved(s) && s.queue != [] && s.queue[0].Event?
    ensures Conserved(PushEvent(s))
  {
    var e := [s.queue[0].event];
    assert s.committed + s.buffer + (e + Events(s.queue[1..])) == s.committed + (s.buffer + e) + Events(s.queue[1..]);
  }

  lemma ReceiveConserves<E>(s: System<E>)
    requires Conserved(s) && s.phase.Selecting?
    ensures Conserved(ReceiveMessage(s)) && ReceiveMessage(s).committed == s.committed
  {
    if s.queue == [] {
      BeginFlushConserves(s, Leave(None));
    } else if s.queue[0].Event? {
      PushEventConserves(s);
      BeginFlushConserves(PushEvent(s), BackToLoop);
    }
  }

  lemma EndFlushConserves<E>(s: System<E>, success: bool)
    requires Conserved(s) && s.phase.Flushing?
    ensures Conserved(EndFlush(s, success)) && s.committed <= EndFlush(s, success).committed
  {
    if success {
      var t := s.(committed := s.committed + s.buffer, buffer := []);
      assert t.committed + t.buffer == s.committed + s.buffer;
      AfterFlushConserves(t, s.phase.after);
    } else {
      AfterFlushConserves(s.(writeFailures := s.writeFailures + 1), s.phase.after);
    }
  }

  lemma TrySendConserves<E>(s: System<E>, e: E)
    requires Conserved(s)
    ensures Conserved(TrySend(s, e)) && TrySend(s, e).committed == s.committed
  {
    if !s.phase.Exited? && |s.queue| < s.capacity {
      EventsConcat(s.queue, [Event(e)]);
      assert Events([Event(e)]) == [e];
      var flow := s.committed + s.buffer;
      assert flow + (Events(s.queue) + [e]) + [] == flow + Events(s.queue) + [] + [e];
    }
  }

  lemma AskConserves<E>(s: System<E>, id: nat)
    requires Conserved(s)
    ensures Conserved(Ask(s, id))
  {
    var m: seq<Message<E>> := [Shutdown(id)];
    EventsConcat(s.queue, m);
    assert Events(m) == [];
  }

  lemma DrainConserves<E>(s: System<E>)
    requires Conserved(s) && s.phase.Draining?
    ensures Conserved(DrainPause(s)) && DrainPause(s).committed == s.committed
    ensures s.queue != [] ==> Conserved(DrainMessage(s)) && DrainMessage(s).committed == s.committed
  {
    BeginFlushConserves(s, Leave(Some(s.phase.reply)));
    if s.queue != [] && s.queue[0].Event? { PushEventConserves(s); }
  }

  lemma StepConserves<E>(s: System<E>, a: Action<E>)
    requires Conserved(s)
    ensures Conserved(Step(s, a)) && s.committed <= Step(s, a).committed
  {
    match a
    case Offer(e) => TrySendConserves(s, e);
    case AskShutdown(id) => AskConserves(s, id);
    case DropSenders =>
    case Receive => if s.phase.Selecting? { ReceiveConserves(s); }
    case Tick => if s.phase.Selecting? { BeginFlushConserves(s, BackToLoop); }
    case FlushEnds(success) => if s.phase.Flushing? { EndFlushConserves(s, success); }
    case DrainNext => if s.phase.Draining? { DrainConserves(s); }
    case DrainIdle => if s.phase.Draining? { DrainConserves(s); }
  }

  /** Conservation over every run; rows once committed stay committed, in place. */
  lemma {:induction false} RunConserves<E>(s: System<E>, actions: seq<Action<E>>)
    requires Conserved(s) && Counted(s)
    ensures Conserved(Run(s, actions)) && Counted(Run(s, actions)) && s.committed <= Run(s, actions).committed
    decreases |actions|
  {
    if actions != [] {
      StepConserves(s, actions[0]);
      StepCounts(s, actions[0]);
      RunConserves(Step(s, actions[0]), actions[1..]);
    }
  }
}
