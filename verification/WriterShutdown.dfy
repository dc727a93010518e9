/** The shutdown handshake of the writer, and what is lost when it ends (src/writer.rs). */
module WriterShutdown {
  import opened Common
  import opened Writer

  // ---------------------------------------------------------------- who is waiting for an answer

  /** The caller the task will answer when it leaves. */
  function Held<E>(s: System<E>): Option<nat> {
    match s.phase
    case Draining(reply, _) => Some(reply)
    case Flushing(Leave(reply)) => reply
    case _ => None
  }

  /** How many accepted events are ahead of the message at position i. */
  function Ahead<E>(s: System<E>, i: nat): nat
    requires i <= |s.queue|
  {
    |s.committed| + |s.buffer| + |Events(s.queue[..i])|
  }

  /** A queued shutdown request waits, and its mark counts the events ahead of it. */
  ghost predicate QueuedWait<E>(s: System<E>) {
    forall i | 0 <= i < |s.queue| && s.queue[i].Shutdown? ::
      && s.queue[i].id in s.replies && s.replies[s.queue[i].id] == Waiting(Ahead(s, i))
      && Held(s) != Some(s.queue[i].id)
  }

  ghost predicate DistinctRequests<E>(queue: seq<Message<E>>) {
    forall i, j | 0 <= i < j < |queue| && queue[i].Shutdown? && queue[j].Shutdown? :: queue[i].id != queue[j].id
  }

  /** The request that left the main loop waits, and all events ahead of it are committed or in the buffer. */
  ghost predicate HeldWaits<E>(s: System<E>) {
    Held(s).Some? ==>
      var id := Held(s).value;
      id in s.replies && s.replies[id].Waiting? && s.replies[id].mark <= |s.committed| + |s.buffer|
  }

  /** Nobody waits for an answer that cannot come. */
  ghost predicate NoOrphans<E>(s: System<E>) {
    forall id | id in s.replies && s.replies[id].Waiting? :: Held(s) == Some(id) || Shutdown(id) in s.queue
  }

  ghost predicate Served<E>(s: System<E>) {
    Conserved(s) && QueuedWait(s) && DistinctRequests(s.queue) && HeldWaits(s) && NoOrphans(s)
  }

  lemma EventsTake<E>(queue: seq<Message<E>>, i: nat)
    requires 0 < i <= |queue|
    ensures |Events(queue[..i])| == |Events(queue[1..][..i - 1])| + (if queue[0].Event? then 1 else 0)
  {
    assert queue[..i][0] == queue[0] && queue[..i][1..] == queue[1..][..i - 1];
  }

  /** A new message at the back changes nothing for those in front of it. */
  lemma AppendMarks<E>(s: System<E>, t: System<E>, m: Message<E>)
    requires Served(s) && t.queue == s.queue + [m]
    requires t.committed == s.committed && t.buffer == s.buffer && t.phase == s.phase
    requires forall id | id in s.replies :: id in t.replies && t.replies[id] == s.replies[id]
    requires m.Shutdown? ==> m.id !in s.replies && m.id in t.replies && t.replies[m.id] == Waiting(Ahead(s, |s.queue|))
    ensures QueuedWait(t) && DistinctRequests(t.queue)
  {
    forall i | 0 <= i < |t.queue| && t.queue[i].Shutdown?
      ensures t.queue[i].id in t.replies && t.replies[t.queue[i].id] == Waiting(Ahead(t, i))
      ensures Held(t) != Some(t.queue[i].id)
    {
      assert t.queue[..i] == s.queue[..i];
    }
  }

  lemma AppendOrphans<E>(s: System<E>, t: System<E>, m: Message<E>)
    requires NoOrphans(s) && t.queue == s.queue + [m] && t.phase == s.phase
    requires forall id | id in t.replies && t.replies[id].Waiting? ::
               m == Shutdown(id) || (id in s.replies && s.replies[id].Waiting?)
    ensures NoOrphans(t)
  {
    forall id | id in t.replies && t.replies[id].Waiting?
      ensures Held(t) == Some(id) || Shutdown(id) in t.queue
    {
      if m == Shutdown(id) { assert t.queue[|s.queue|] == m; }
    }
  }

  lemma AppendServes<E>(s: System<E>, t: System<E>, m: Message<E>)
    requires Served(s) && Conserved(t) && !s.phase.Exited?
    requires t.queue == s.queue + [m]
    requires t.committed == s.committed && t.buffer == s.buffer && t.phase == s.phase
    requires if m.Event? then t.replies == s.replies
             else m.id !in s.replies && t.replies == s.replies[m.id := Waiting(|s.accepted|)]
    ensures Served(t)
  {
    assert s.queue[..|s.queue|] == s.queue;
    AppendMarks(s, t, m);
    AppendOrphans(s, t, m);
  }

  /** Taking the first message keeps the marks of the others right. */
  lemma TakeMarks<E>(s: System<E>, t: System<E>)
    requires s.queue != [] && QueuedWait(s) && DistinctRequests(s.queue)
    requires t.queue == s.queue[1..] && t.committed == s.committed
    requires |t.buffer| == |s.buffer| + (if s.queue[0].Event? then 1 else 0)
    requires forall id | id in s.replies && !(s.queue[0] == Shutdown(id)) ::
               id in t.replies && t.replies[id] == s.replies[id]
    requires Held(t) == Held(s) || (s.queue[0].Shutdown? && Held(t) == Some(s.queue[0].id))
    ensures QueuedWait(t) && DistinctRequests(t.queue)
  {
    forall i | 0 <= i < |t.queue| && t.queue[i].Shutdown?
      ensures t.queue[i].id in t.replies && t.replies[t.queue[i].id] == Waiting(Ahead(t, i))
      ensures Held(t) != Some(t.queue[i].id)
    {
      assert t.queue[i] == s.queue[i + 1];
      EventsTake(s.queue, i + 1);
    }
  }

  /** A step that moves events from the buffer to the table, or changes the phase, disturbs nobody. */
  lemma StillServed<E>(s: System<E>, t: System<E>)
    requires Served(s) && Conserved(t)
    requires t.queue == s.queue && t.replies == s.replies && Held(t) == Held(s)
    requires |t.committed| + |t.buffer| == |s.committed| + |s.buffer|
    ensures Served(t)
  {
    forall i | 0 <= i < |t.queue| && t.queue[i].Shutdown? ensures Ahead(t, i) == Ahead(s, i) {}
  }

  /** Leaving answers one caller and drops the reply channels of all others. */
  lemma ExitServes<E>(s: System<E>, reply: Option<nat>)
    requires Conserved(Exit(s, reply))
    ensures Served(Exit(s, reply))
    ensures forall id | id in Exit(s, reply).replies :: !Exit(s, reply).replies[id].Waiting?
  {
  }

  lemma BeginFlushServes<E>(s: System<E>, after: After)
    requires Served(s) && !s.phase.Exited? && !s.phase.Flushing?
    requires match after case BackToLoop => s.phase.Selecting? case Leave(reply) => Held(s) == reply
    ensures Served(BeginFlush(s, after))
  {
    BeginFlushConserves(s, after);
    if s.buffer == [] && after.Leave? {
      ExitServes(s, after.reply);
    } else {
      StillServed(s, BeginFlush(s, after));
    }
  }

  lemma EndFlushServes<E>(s: System<E>, success: bool)
    requires Served(s) && s.phase.Flushing?
    ensures Served(EndFlush(s, success))
  {
    EndFlushConserves(s, success);
    if s.phase.after.BackToLoop? {
      StillServed(s, EndFlush(s, success));
    } else if success {
      ExitServes(s.(committed := s.committed + s.buffer, buffer := []), s.phase.after.reply);
    } else {
      ExitServes(s.(writeFailures := s.writeFailures + 1), s.phase.after.reply);
    }
  }

  /** The first queued message is a request, so its mark is what has been received so far. */
  lemma FirstRequest<E>(s: System<E>)
    requires Served(s) && s.queue != [] && s.queue[0].Shutdown?
    ensures s.queue[0].id in s.replies && s.replies[s.queue[0].id] == Waiting(|s.committed| + |s.buffer|)
  {
    assert Ahead(s, 0) == |s.committed| + |s.buffer|;
  }

  /** After a message is taken, whoever still waits is held or queued behind it. */
  lemma TakeOrphans<E>(s: System<E>, t: System<E>)
    requires s.queue != [] && t.queue == s.queue[1..] && (Held(s).Some? ==> Held(t) == Held(s))
    requires forall id | id in t.replies && t.replies[id].Waiting? :: id in s.replies && s.replies[id].Waiting?
    requires NoOrphans(s)
    requires s.queue[0].Shutdown? ==>
               Held(t) == Some(s.queue[0].id) || (s.queue[0].id in t.replies && !t.replies[s.queue[0].id].Waiting?)
    ensures NoOrphans(t)
  {
    forall id | id in t.replies && t.replies[id].Waiting?
      ensures Held(t) == Some(id) || Shutdown(id) in t.queue
    {
      if Held(s) != Some(id) {
        assert Shutdown(id) in s.queue;
        assert s.queue == [s.queue[0]] + s.queue[1..];
      }
    }
  }

  lemma PushEventServes<E>(s: System<E>)
    requires Served(s) && !s.phase.Flushing? && s.queue != [] && s.queue[0].Event?
    ensures Served(PushEvent(s))
  {
    var t := PushEvent(s);
    PushEventConserves(s);
    TakeMarks(s, t);
    TakeOrphans(s, t);
  }

  lemma ReceiveServes<E>(s: System<E>)
    requires Served(s) && s.phase.Selecting?
    ensures Served(ReceiveMessage(s))
  {
    if s.queue == [] {
      if !s.sendersAlive { BeginFlushServes(s, Leave(None)); }
    } else if s.queue[0].Event? {
      PushEventServes(s);
      BeginFlushServes(PushEvent(s), BackToLoop);
    } else {
      ReceiveConserves(s);
      FirstRequest(s);
      TakeMarks(s, ReceiveMessage(s));
      TakeOrphans(s, ReceiveMessage(s));
    }
  }

  lemma DrainServes<E>(s: System<E>)
    requires Served(s) && s.phase.Draining?
    ensures Served(DrainPause(s))
    ensures s.queue != [] ==> Served(DrainMessage(s))
  {
    DrainConserves(s);
    if s.phase.timed {
      BeginFlushServes(s, Leave(Some(s.phase.reply)));
    } else {
      StillServed(s, DrainPause(s));
    }
    if s.queue != [] {
      if s.queue[0].Event? {
        PushEventServes(s);
      } else {
        FirstRequest(s);
        TakeMarks(s, DrainMessage(s));
        TakeOrphans(s, DrainMessage(s));
      }
    }
  }

  lemma StepServes<E>(s: System<E>, a: Action<E>)
    requires Served(s)
    ensures Served(Step(s, a))
  {
    StepConserves(s, a);
    match a
    case Offer(e) =>
      if s.sendersAlive && !s.phase.Exited? && |s.queue| < s.capacity { AppendServes(s, TrySend(s, e), Event(e)); }
    case AskShutdown(id) =>
      if s.sendersAlive && id !in s.replies && !s.phase.Exited? && |s.queue| < s.capacity {
        AppendServes(s, Ask(s, id), Shutdown(id));
      }
    case DropSenders =>
    case Receive => if s.phase.Selecting? { ReceiveServes(s); }
    case Tick => if s.phase.Selecting? { BeginFlushServes(s, BackToLoop); }
    case FlushEnds(success) => if s.phase.Flushing? { EndFlushServes(s, success); }
    case DrainNext => if s.phase.Draining? { DrainServes(s); }
    case DrainIdle => if s.phase.Draining? { DrainServes(s); }
  }

  lemma {:induction false} RunServes<E>(s: System<E>, actions: seq<Action<E>>)
    requires Served(s)
    ensures Served(Run(s, actions))
    decreases |actions|
  {
    if actions != [] {
      StepServes(s, actions[0]);
      RunServes(Step(s, actions[0]), actions[1..]);
    }
  }

  // ---------------------------------------------------------------- theorems over every run

  ghost predicate Unique<E>(s: seq<E>) {
    forall i, j | 0 <= i < j < |s| :: s[i] != s[j]
  }

  lemma CommittedIsPrefix<E>(s: System<E>)
    requires Conserved(s)
    ensures s.committed <= s.accepted && (Unique(s.accepted) ==> Unique(s.committed))
  {
    assert s.accepted == s.committed + (s.buffer + Events(s.queue) + s.lost);
  }

  /** In every run, whatever flushes fail and are tried again: the table holds the oldest accepted events,
      each one once and in order; nothing is accepted or dropped without being counted. */
  lemma EveryRun<E>(flushRows: nat, capacity: nat, actions: seq<Action<E>>)
    ensures var s := Run(Init(flushRows, capacity), actions);
      && s.committed + s.buffer + Events(s.queue) + s.lost == s.accepted
      && s.committed <= s.accepted
      && (!s.phase.Exited? ==> s.lost == [])
      && s.accepted == Taken(s.offered) && |s.offered| == |s.accepted| + s.droppedEvents
      && (Unique(s.accepted) ==> Unique(s.committed))
      && Served(s)
  {
    RunConserves(Init<E>(flushRows, capacity), actions);
    RunServes(Init<E>(flushRows, capacity), actions);
    CommittedIsPrefix(Run(Init<E>(flushRows, capacity), actions));
  }

  /** Every event accepted before the request was sent is in the table. */
  ghost predicate CommittedAhead<E>(s: System<E>, mark: nat) {
    mark <= |s.accepted| && s.accepted[..mark] <= s.committed
  }

  ghost predicate GetsAnswer<E>(s: System<E>, a: Action<E>, id: nat) {
    id in s.replies && s.replies[id].Waiting? && id in Step(s, a).replies && Step(s, a).replies[id].Acknowledged?
  }

  /** The task leaves: its last flush ended, or there was nothing to flush. */
  ghost predicate Leaves<E>(s: System<E>, a: Action<E>) {
    || (a.FlushEnds? && s.phase.Flushing? && s.phase.after.Leave?)
    || (a.DrainIdle? && s.phase.Draining? && s.phase.timed && s.buffer == [])
  }

  lemma AnswerSource<E>(s: System<E>, a: Action<E>, id: nat)
    requires Served(s) && GetsAnswer(s, a, id)
    ensures if Held(s) == Some(id) then Leaves(s, a)
            else s.phase.Draining? && a.DrainNext? && s.queue != [] && s.queue[0] == Shutdown(id)
  {
  }

  lemma LeavingCommits<E>(s: System<E>, a: Action<E>, id: nat)
    requires Served(s) && Held(s) == Some(id) && Leaves(s, a)
    ensures var t := Step(s, a);
      t.phase.Exited? && (a != FlushEnds(false) ==> CommittedAhead(t, s.replies[id].mark))
  {
    StepConserves(s, a);
    var t := Step(s, a);
    assert t.accepted == t.committed + t.lost;
    if a != FlushEnds(false) {
      assert |t.committed| == |s.committed| + |s.buffer|;
    }
  }

  lemma EarlyAnswer<E>(s: System<E>, id: nat)
    requires Served(s) && s.phase.Draining? && s.queue != [] && s.queue[0] == Shutdown(id)
    ensures CommittedAhead(Step(s, DrainNext), s.replies[id].mark) <==> s.buffer == []
  {
    FirstRequest(s);
    var t := Step(s, DrainNext);
    assert t.accepted == s.accepted && t.committed == s.committed;
    assert s.accepted == s.committed + (s.buffer + Events(s.queue) + s.lost);
  }

  /** The request that left the main loop is answered only when the drain is over and a flush was tried; if that
      flush did not fail, every event accepted ahead of the request is in the table by then. A further request
      is answered during the drain: its events are in the table exactly if the buffer is empty. */
  lemma ShutdownHandshake<E>(flushRows: nat, capacity: nat, actions: seq<Action<E>>, a: Action<E>, id: nat)
    requires GetsAnswer(Run(Init(flushRows, capacity), actions), a, id)
    ensures var s := Run(Init(flushRows, capacity), actions);
      var t := Step(s, a);
      var mark := s.replies[id].mark;
      if Held(s) == Some(id) then
        Leaves(s, a) && t.phase.Exited? && (a != FlushEnds(false) ==> CommittedAhead(t, mark))
      else
        s.phase.Draining? && a.DrainNext? && (CommittedAhead(t, mark) <==> s.buffer == [])
  {
    RunServes(Init<E>(flushRows, capacity), actions);
    var s := Run(Init(flushRows, capacity), actions);
    AnswerSource(s, a, id);
    if Held(s) == Some(id) {
      LeavingCommits(s, a, id);
    } else {
      EarlyAnswer(s, id);
    }
  }

  // ---------------------------------------------------------------- the first call is the safe one

  function FirstRequestIn<E>(queue: seq<Message<E>>): Option<nat> {
    if queue == [] then None
    else if queue[0].Shutdown? then Some(queue[0].id)
    else FirstRequestIn(queue[1..])
  }

  lemma {:induction false} FirstStaysFirst<E>(queue: seq<Message<E>>, m: Message<E>)
    ensures FirstRequestIn(queue).Some? ==> FirstRequestIn(queue + [m]) == FirstRequestIn(queue)
    ensures FirstRequestIn(queue).None? && m.Shutdown? ==> FirstRequestIn(queue + [m]) == Some(m.id)
  {
    if queue == [] {
      assert queue + [m] == [m];
    } else {
      assert (queue + [m])[0] == queue[0] && (queue + [m])[1..] == queue[1..] + [m];
      FirstStaysFirst(queue[1..], m);
    }
  }

  lemma {:induction false} NoRequestIn<E>(queue: seq<Message<E>>)
    requires forall i | 0 <= i < |queue| :: queue[i].Event?
    ensures FirstRequestIn(queue).None?
  {
    if queue != [] { NoRequestIn(queue[1..]); }
  }

  /** Call `id` is first in line: it is the one the main loop will take, or has taken, or the task is leaving because
      there was nobody to call it. */
  ghost predicate FirstInLine<E>(s: System<E>, id: nat) {
    match s.phase
    case Selecting => FirstRequestIn(s.queue) == Some(id)
    case Flushing(BackToLoop) => FirstRequestIn(s.queue) == Some(id)
    case Flushing(Leave(reply)) => reply.Some? ==> reply == Some(id)
    case Draining(reply, _) => reply == id
    case Exited => true
  }

  lemma StepKeepsFirst<E>(s: System<E>, a: Action<E>, id: nat)
    requires FirstInLine(s, id)
    ensures FirstInLine(Step(s, a), id)
  {
    match a
    case Offer(e) => FirstStaysFirst(s.queue, Event(e));
    case AskShutdown(other) => FirstStaysFirst(s.queue, Shutdown(other));
    case _ =>
  }

  lemma {:induction false} RunKeepsFirst<E>(s: System<E>, actions: seq<Action<E>>, id: nat)
    requires FirstInLine(s, id)
    ensures FirstInLine(Run(s, actions), id)
    decreases |actions|
  {
    if actions != [] {
      StepKeepsFirst(s, actions[0], id);
      RunKeepsFirst(Step(s, actions[0]), actions[1..], id);
    }
  }

  lemma StepAccepts<E>(s: System<E>, a: Action<E>)
    ensures s.accepted <= Step(s, a).accepted
  {
  }

  lemma {:induction false} RunAccepts<E>(s: System<E>, actions: seq<Action<E>>)
    ensures s.accepted <= Run(s, actions).accepted
    decreases |actions|
  {
    if actions != [] {
      StepAccepts(s, actions[0]);
      RunAccepts(Step(s, actions[0]), actions[1..]);
    }
  }

  /** A call that still waits has the mark it was given. */
  ghost predicate Marked<E>(s: System<E>, id: nat, mark: nat) {
    id in s.replies && (s.replies[id].Waiting? ==> s.replies[id].mark == mark)
  }

  lemma StepKeepsMark<E>(s: System<E>, a: Action<E>, id: nat, mark: nat)
    requires Marked(s, id, mark)
    ensures Marked(Step(s, a), id, mark)
  {
  }

  lemma {:induction false} RunKeepsMark<E>(s: System<E>, actions: seq<Action<E>>, id: nat, mark: nat)
    requires Marked(s, id, mark)
    ensures Marked(Run(s, actions), id, mark)
    decreases |actions|
  {
    if actions != [] {
      StepKeepsMark(s, actions[0], id, mark);
      RunKeepsMark(Step(s, actions[0]), actions[1..], id, mark);
    }
  }

  /** Of several shutdown calls the first one accepted is the safe one, and the only one: the task holds no other, and
      the first is answered only when the task leaves; every event accepted before the call is in the table then, unless
      the last flush failed. */
  lemma FirstCallIsSafe<E>(flushRows: nat, capacity: nat, before: seq<Action<E>>, id: nat, after: seq<Action<E>>,
                           a: Action<E>)
    requires Run(Init<E>(flushRows, capacity), before).replies == map[]
    requires id in Step(Run(Init<E>(flushRows, capacity), before), AskShutdown(id)).replies
    ensures var s := Run(Init<E>(flushRows, capacity), before);
      var t := Run(Step(s, AskShutdown(id)), after);
      && (Held(t).Some? ==> Held(t) == Some(id))
      && (GetsAnswer(t, a, id) ==>
            && Held(t) == Some(id) && Leaves(t, a)
            && (a != FlushEnds(false) ==> s.accepted <= Step(t, a).committed))
  {
    var s := Run(Init<E>(flushRows, capacity), before);
    RunServes(Init<E>(flushRows, capacity), before);
    CallBecomesFirst(s, id);
    var called := Step(s, AskShutdown(id));
    StepServes(s, AskShutdown(id));
    RunServes(called, after);
    RunKeepsFirst(called, after, id);
    var t := Run(called, after);
    if GetsAnswer(t, a, id) {
      AnswerSource(t, a, id);
      LeavingCommits(t, a, id);
      RunKeepsMark(called, after, id, |s.accepted|);
      RunAccepts(called, after);
      StepAccepts(t, a);
    }
  }

  lemma CallBecomesFirst<E>(s: System<E>, id: nat)
    requires Served(s) && s.replies == map[] && id in Step(s, AskShutdown(id)).replies
    ensures FirstInLine(Step(s, AskShutdown(id)), id)
  {
    NoRequestIn(s.queue);
    FirstStaysFirst(s.queue, Shutdown(id));
  }

  // ---------------------------------------------------------------- when the task is gone

  /** When the task is gone, nobody waits: every reply channel was answered or dropped, later calls return at once. */
  lemma NobodyWaitsAfterExit<E>(flushRows: nat, capacity: nat, actions: seq<Action<E>>, id: nat)
    requires Run(Init<E>(flushRows, capacity), actions).phase.Exited?
    ensures var s := Run(Init<E>(flushRows, capacity), actions);
      && (id in s.replies ==> !s.replies[id].Waiting?)
      && (s.sendersAlive && id !in s.replies ==> Step(s, AskShutdown(id)).replies[id] == Dropped)
  {
    EveryRun(flushRows, capacity, actions);
  }

  // ---------------------------------------------------------------- runs, piece by piece

  lemma {:induction false} RunConcat<E>(s: System<E>, a: seq<Action<E>>, b: seq<Action<E>>)
    ensures Run(s, a + b) == Run(Run(s, a), b)
    decreases |a|
  {
    if a == [] {
      assert a + b == b;
    } else {
      assert (a + b)[0] == a[0] && (a + b)[1..] == a[1..] + b;
      RunConcat(Step(s, a[0]), a[1..], b);
    }
  }

  function DrainNextTimes<E>(n: nat): seq<Action<E>> {
    if n == 0 then [] else [DrainNext] + DrainNextTimes(n - 1)
  }

  lemma RunDrainNext<E>(s: System<E>, n: nat)
    requires n > 0 && s.phase.Draining? && s.queue != []
    ensures Run(s, DrainNextTimes(n)) == Run(DrainMessage(s), DrainNextTimes(n - 1))
  {
    var acts := DrainNextTimes<E>(n);
    assert acts[0] == DrainNext && acts[1..] == DrainNextTimes(n - 1);
  }

  lemma RunTwoMore<E>(s: System<E>, a: Action<E>, b: Action<E>, rest: seq<Action<E>>)
    ensures Run(s, [a, b] + rest) == Run(Step(Step(s, a), b), rest)
  {
    var all := [a, b] + rest;
    assert all[1..][0] == b && all[1..][1..] == rest;
    assert Run(s, all) == Run(Step(s, a), all[1..]);
  }

  lemma RunOne<E>(s: System<E>, a: Action<E>)
    ensures Run(s, [a]) == Step(s, a)
  {
    assert [a][1..] == [];
  }

  lemma RunThree<E>(s: System<E>, a: Action<E>, b: Action<E>, c: Action<E>)
    ensures Run(s, [a, b, c]) == Step(Step(Step(s, a), b), c)
  {
    assert [a, b, c] == [a, b] + [c];
    RunTwoMore(s, a, b, [c]);
    RunOne(Step(Step(s, a), b), c);
  }

  /** What the end of the task loses: what its last flush did not write, and what was accepted after the drain. */
  lemma ExitLoses<E>(s: System<E>, a: Action<E>)
    requires Conserved(s) && !s.phase.Exited? && Step(s, a).phase.Exited?
    ensures var t := Step(s, a);
      && t.lost == (if a == FlushEnds(true) then [] else s.buffer) + Events(s.queue)
      && (t.committed == t.accepted <==> Events(s.queue) == [] && (s.buffer == [] || a == FlushEnds(true)))
  {
    StepConserves(s, a);
    var t := Step(s, a);
    assert t.accepted == t.committed + t.lost;
  }

  // ---------------------------------------------------------------- where the obvious claims fail

  /** The second of two shutdown calls is answered while an event accepted before it is not in the table. */
  lemma SecondShutdownAnsweredEarly() returns (actions: seq<Action<int>>)
    ensures var s := Run(Init<int>(2, 3), actions);
      2 in s.replies && s.replies[2] == Acknowledged(1) && s.accepted == [7] && s.committed == []
  {
    var s0 := Init<int>(2, 3);
    RunThree(s0, AskShutdown(1), Offer(7), AskShutdown(2));
    var s1 := Run(s0, [AskShutdown(1), Offer(7), AskShutdown(2)]);
    assert s1.queue == [Shutdown(1), Event(7), Shutdown(2)];
    assert Step(s1, Receive) == s1.(queue := [Event(7), Shutdown(2)], phase := Draining(1, false));
    RunThree(s1, Receive, DrainNext, DrainNext);
    RunConcat(s0, [AskShutdown(1), Offer(7), AskShutdown(2)], [Receive, DrainNext, DrainNext]);
    actions := [AskShutdown(1), Offer(7), AskShutdown(2)] + [Receive, DrainNext, DrainNext];
  }

  /** An event accepted while the final flush is pending is gone, although its sender was not told so. */
  lemma LateEventLost() returns (actions: seq<Action<int>>)
    ensures var s := Run(Init<int>(2, 3), actions);
      && s.phase.Exited? && s.droppedEvents == 0 && s.writeFailures == 0
      && s.accepted == [7, 8] && s.committed == [7] && s.lost == [8]
  {
    var s0, first, second, third :=
      Init<int>(2, 3), [Offer(7), AskShutdown(1), Receive], [Receive, DrainIdle, DrainIdle],
      [Offer(8), FlushEnds(true), Tick];
    OneEventThenShutdown();
    BufferedThenIdle(Run(s0, first));
    LateOffer(Run(Run(s0, first), second));
    RunConcat(s0, first, second);
    RunConcat(s0, first + second, third);
    actions := first + second + third;
  }

  lemma OneEventThenShutdown()
    ensures Run(Init<int>(2, 3), [Offer(7), AskShutdown(1), Receive])
         == Init<int>(2, 3).(queue := [Shutdown(1)], buffer := [7], replies := map[1 := Waiting(1)],
                             offered := [Offered(7, true)], accepted := [7])
  {
    RunThree(Init<int>(2, 3), Offer(7), AskShutdown(1), Receive);
  }

  lemma BufferedThenIdle(s: System<int>)
    requires s.queue == [Shutdown(1)] && s.buffer != [] && s.phase == Selecting
    ensures Run(s, [Receive, DrainIdle, DrainIdle]) == s.(queue := [], phase := Flushing(Leave(Some(1))))
  {
    RunThree(s, Receive, DrainIdle, DrainIdle);
    assert Step(s, Receive) == s.(queue := [], phase := Draining(1, false));
  }

  lemma LateOffer(s: System<int>)
    requires s.phase == Flushing(Leave(Some(1))) && s.queue == [] && s.capacity > 0 && s.sendersAlive
    ensures var t := Run(s, [Offer(8), FlushEnds(true), Tick]);
      && t.phase.Exited? && t.droppedEvents == s.droppedEvents && t.writeFailures == s.writeFailures
      && t.accepted == s.accepted + [8] && t.committed == s.committed + s.buffer && t.lost == [8]
  {
    RunThree(s, Offer(8), FlushEnds(true), Tick);
    var t := Step(s, Offer(8));
    assert t.queue == [Event(8)];
    assert Events(t.queue) == [8] by { assert t.queue[1..] == []; }
  }
}
