/** The writer as the program holds it: a handle side and a task side that change shared fields (src/writer.rs). */
module WriterTask {
  import opened Common
  import opened Writer
  import WriterShutdown

  /** A reply channel as its caller sees it. */
  datatype Answer = Open | Sent | Closed

  function AnswerOf(r: Reply): Answer {
    match r
    case Waiting(_) => Open
    case Acknowledged(_) => Sent
    case Dropped => Closed
  }

  function AnswersOf(replies: map<nat, Reply>): map<nat, Answer> { map id | id in replies :: AnswerOf(replies[id]) }

  /** The task ends: one caller is answered, the other channels that are still open are closed. */
  function SettleAnswers(answers: map<nat, Answer>, answered: Option<nat>): map<nat, Answer> {
    map id | id in answers ::
      if !answers[id].Open? then answers[id] else if answered == Some(id) then Sent else Closed
  }

  lemma SettleAgrees(replies: map<nat, Reply>, answered: Option<nat>)
    ensures SettleAnswers(AnswersOf(replies), answered) == AnswersOf(Settle(replies, answered))
  {
  }

  class WriterState<E> {
    const flushRows: nat
    const capacity: nat
    var queue: seq<Message<E>>
    var buffer: seq<E>
    var phase: Phase
    var sendersAlive: bool
    var droppedEvents: nat
    var writeFailures: nat
    var answers: map<nat, Answer>
    var table: seq<E>  // rows of the database
    // histories
    ghost var replies: map<nat, Reply>
    ghost var offered: seq<Offered<E>>
    ghost var accepted: seq<E>
    ghost var lost: seq<E>

    ghost predicate Valid()
      reads this
    {
      answers == AnswersOf(replies)
    }

    ghost function View(): System<E>
      reads this
    {
      System(flushRows, capacity, queue, buffer, phase, sendersAlive, droppedEvents, writeFailures, replies,
             offered, accepted, table, lost)
    }

    constructor (flushRows: nat, capacity: nat)
      ensures Valid() && View() == Init(flushRows, capacity)
    {
      this.flushRows, this.capacity := flushRows, capacity;
      queue, buffer, phase, sendersAlive := [], [], Selecting, true;
      droppedEvents, writeFailures, answers, table := 0, 0, map[], [];
      replies, offered, accepted, lost := map[], [], [], [];
    }

    method TrySend(event: E)
      requires Valid()
      modifies this
      ensures Valid() && View() == Writer.TrySend(old(View()), event)
    {
      if !phase.Exited? && |queue| < capacity {
        queue := queue + [Event(event)];
        accepted, offered := accepted + [event], offered + [Offered(event, true)];
      } else {
        droppedEvents := droppedEvents + 1;
        offered := offered + [Offered(event, false)];
      }
    }

    /** One attempt of the loop in `shutdown`; false asks the caller to try again later. */
    method TryShutdown(id: nat) returns (settled: bool)
      requires Valid() && id !in answers
      modifies this
      ensures Valid() && View() == Ask(old(View()), id)
      ensures settled <==> id in answers
    {
      if phase.Exited? {
        answers, replies := answers[id := Closed], replies[id := Dropped];
        return true;
      }
      if |queue| < capacity {
        queue, answers := queue + [Shutdown(id)], answers[id := Open];
        replies := replies[id := Waiting(|accepted|)];
        return true;
      }
      return false;
    }

    method Finish(reply: Option<nat>)
      requires Valid()
      modifies this
      ensures Valid() && View() == Exit(old(View()), reply)
    {
      SettleAgrees(replies, reply);
      answers := SettleAnswers(answers, reply);
      replies := Settle(replies, reply);
      lost := buffer + Events(queue);
      phase, buffer, queue := Exited, [], [];
    }

    method Proceed(after: After)
      requires Valid()
      modifies this
      ensures Valid() && View() == AfterFlush(old(View()), after)
    {
      match after
      case BackToLoop => phase := Selecting;
      case Leave(reply) => Finish(reply);
    }

    /** `try_flush` up to the point where it awaits the transaction. */
    method TryFlush(after: After)
      requires Valid()
      modifies this
      ensures Valid() && View() == BeginFlush(old(View()), after)
    {
      if buffer == [] {
        Proceed(after);
      } else {
        phase := Flushing(after);
      }
    }

    /** The transaction commits, or fails and leaves the buffer for a later attempt. */
    method CompleteFlush(success: bool)
      requires Valid() && phase.Flushing?
      modifies this
      ensures Valid() && View() == EndFlush(old(View()), success)
    {
      if success {
        table, buffer := table + buffer, [];
      } else {
        writeFailures := writeFailures + 1;
      }
      Proceed(phase.after);
    }

    /** The receive branch of the select loop. */
    method Receive()
      requires Valid() && phase.Selecting?
      modifies this
      ensures Valid() && View() == ReceiveMessage(old(View()))
    {
      if queue == [] {
        if !sendersAlive {
          TryFlush(Leave(None));
        }
        return;
      }
      var message := queue[0];
      queue := queue[1..];
      match message
      case Event(event) =>
        buffer := buffer + [event];
        if |buffer| >= flushRows {
          TryFlush(BackToLoop);
        }
      case Shutdown(id) =>
        phase := Draining(id, false);
    }

    method DrainOne()
      requires Valid() && queue != []
      modifies this
      ensures Valid() && View() == DrainMessage(old(View()))
    {
      var message := queue[0];
      queue := queue[1..];
      match message
      case Event(event) => buffer := buffer + [event];
      case Shutdown(id) =>
        if id in answers && answers[id].Open? {
          answers := answers[id := Sent];
        }
        replies := Answered(replies, id);
    }

    /** The first loop of `drain_pending_events`: everything that is in the queue by now. */
    method DrainPendingEvents()
      requires Valid() && phase.Draining?
      modifies this
      ensures Valid() && View() == Run(old(View()), WriterShutdown.DrainNextTimes(|old(queue)|))
      ensures queue == [] && buffer == old(buffer) + Events(old(queue))
    {
      ghost var start := View();
      while queue != []
        invariant Valid() && phase == start.phase
        invariant buffer + Events(queue) == start.buffer + Events(start.queue)
        invariant Run(start, WriterShutdown.DrainNextTimes(|start.queue|))
               == Run(View(), WriterShutdown.DrainNextTimes(|queue|))
        decreases |queue|
      {
        WriterShutdown.RunDrainNext(View(), |queue|);
        if queue[0].Event? {
          assert buffer + ([queue[0].event] + Events(queue[1..])) == buffer + [queue[0].event] + Events(queue[1..]);
        }
        DrainOne();
      }
    }

    /** Any interleaving of senders and task, one step at a time. */
    method Execute(schedule: seq<Action<E>>)
      requires Valid()
      modifies this
      ensures Valid() && View() == Run(old(View()), schedule)
    {
      ghost var start := View();
      for i := 0 to |schedule|
        invariant Valid() && Run(start, schedule) == Run(View(), schedule[i..])
      {
        var action := schedule[i];
        assert schedule[i..][0] == action && schedule[i..][1..] == schedule[i + 1..];
        Perform(action);
      }
    }

    method Perform(action: Action<E>)
      requires Valid()
      modifies this
      ensures Valid() && View() == Step(old(View()), action)
    {
      match action
      case Offer(event) => if sendersAlive { TrySend(event); }
      case AskShutdown(id) => if sendersAlive && id !in answers { var _ := TryShutdown(id); }
      case DropSenders => sendersAlive := false;
      case Receive => if phase.Selecting? { Receive(); }
      case Tick => if phase.Selecting? { TryFlush(BackToLoop); }
      case FlushEnds(success) => if phase.Flushing? { CompleteFlush(success); }
      case DrainNext => if phase.Draining? && queue != [] { DrainOne(); }
      case DrainIdle =>
        if phase.Draining? {
          if phase.timed {
            TryFlush(Leave(Some(phase.reply)));
          } else if queue == [] {
            phase := Draining(phase.reply, true);
          }
        }
    }
  }
}
