/** No shutdown call of the writer (src/writer.rs) waits forever. */
module WriterProgress {
  import opened Common
  import opened Writer
  import opened WriterShutdown

  /** Nobody sends and nobody calls `shutdown` any more. */
  predicate Silent<E>(actions: seq<Action<E>>) {
    forall i | 0 <= i < |actions| :: !actions[i].Offer? && !actions[i].AskShutdown?
  }

  /** The step takes a message, ends a drain loop or ends the last flush. */
  predicate Progress<E>(s: System<E>, a: Action<E>) {
    match a
    case Receive => s.phase.Selecting? && (s.queue != [] || !s.sendersAlive)
    case DrainNext => s.phase.Draining? && s.queue != []
    case DrainIdle => s.phase.Draining? && (s.phase.timed || s.queue == [])
    case FlushEnds(_) => s.phase.Flushing? && s.phase.after.Leave?
    case _ => false
  }

  /** How often that happens in a run. */
  function Count<E>(s: System<E>, actions: seq<Action<E>>): nat
    decreases |actions|
  {
    if actions == [] then 0
    else (if Progress(s, actions[0]) then 1 else 0) + Count(Step(s, actions[0]), actions[1..])
  }

  /** How often it can happen before the task is gone. */
  function Rank<E>(s: System<E>): nat {
    match s.phase
    case Exited => 0
    case Flushing(Leave(_)) => 1
    case Draining(_, timed) => |s.queue| + (if timed then 2 else 3)
    case _ => |s.queue| + 3
  }

  lemma StepRank<E>(s: System<E>, a: Action<E>)
    requires !a.Offer? && !a.AskShutdown?
    ensures Rank(Step(s, a)) + (if Progress(s, a) then 1 else 0) <= Rank(s)
    ensures Step(s, a).accepted == s.accepted && Step(s, a).offered == s.offered
  {
  }

  /** Ticks and failing flushes of the main loop never add to the rank. */
  lemma {:induction false} RunRank<E>(s: System<E>, actions: seq<Action<E>>)
    requires Silent(actions)
    ensures Rank(Run(s, actions)) + Count(s, actions) <= Rank(s)
    ensures Run(s, actions).accepted == s.accepted && Run(s, actions).offered == s.offered
    decreases |actions|
  {
    if actions != [] {
      StepRank(s, actions[0]);
      RunRank(Step(s, actions[0]), actions[1..]);
    }
  }

  /** How many steps are progress, or find the task gone. */
  function Turns<E>(s: System<E>, actions: seq<Action<E>>): nat
    decreases |actions|
  {
    if actions == [] then 0
    else
      var turn := s.phase.Exited? || Progress(s, actions[0]);
      (if turn then 1 else 0) + Turns(Step(s, actions[0]), actions[1..])
  }

  /** Whatever else happens in between, as many turns as the rank says end the task. */
  lemma {:induction false} TurnsEnd<E>(s: System<E>, actions: seq<Action<E>>)
    requires Silent(actions) && Turns(s, actions) >= Rank(s)
    ensures Run(s, actions).phase.Exited?
    decreases |actions|
  {
    if actions != [] {
      StepRank(s, actions[0]);
      TurnsEnd(Step(s, actions[0]), actions[1..]);
    }
  }

  predicate HasRequest<E>(queue: seq<Message<E>>) { queue != [] && (queue[0].Shutdown? || HasRequest(queue[1..])) }

  lemma {:induction false} RequestQueued<E>(queue: seq<Message<E>>, id: nat)
    requires Shutdown(id) in queue
    ensures HasRequest(queue)
  {
    if !queue[0].Shutdown? { RequestQueued(queue[1..], id); }
  }

  /** What the task can do next, if a pending transaction ends with `success`. */
  function TaskAction<E>(s: System<E>, success: bool): Action<E> {
    match s.phase
    case Draining(_, _) => if s.queue != [] then DrainNext else DrainIdle
    case Flushing(_) => FlushEnds(success)
    case _ => Receive
  }

  /** The task is on its way out, or will find a shutdown request. */
  predicate Leaving<E>(s: System<E>) {
    match s.phase
    case Selecting => HasRequest(s.queue)
    case Flushing(BackToLoop) => HasRequest(s.queue)
    case _ => true
  }

  /** The task's own next steps; `oracle` says how its transactions end. */
  function TaskSchedule<E>(s: System<E>, oracle: System<E> -> bool, n: nat): seq<Action<E>>
    decreases n
  {
    if n == 0 then []
    else
      var a := TaskAction(s, oracle(s));
      [a] + TaskSchedule(Step(s, a), oracle, n - 1)
  }

  lemma TaskStep<E>(s: System<E>, success: bool)
    requires Leaving(s)
    ensures var a := TaskAction(s, success);
      && Leaving(Step(s, a))
      && (s.phase.Exited? || Progress(s, a) || (s.phase == Flushing(BackToLoop) && Step(s, a).phase.Selecting?))
  {
  }

  lemma {:induction false} TaskSilent<E>(s: System<E>, oracle: System<E> -> bool, n: nat)
    ensures var rest := TaskSchedule(s, oracle, n); Silent(rest) && Patient(s, rest)
    ensures (forall u :: oracle(u)) ==> LastFlushWorks(s, TaskSchedule(s, oracle, n))
    decreases n
  {
    if n > 0 {
      var a := TaskAction(s, oracle(s));
      var rest := TaskSchedule(Step(s, a), oracle, n - 1);
      assert ([a] + rest)[1..] == rest;
      TaskSilent(Step(s, a), oracle, n - 1);
    }
  }

  /** On its way out, of two steps of the task at least one is a turn, however its transactions end. */
  lemma {:induction false} TaskTakesTurns<E>(s: System<E>, oracle: System<E> -> bool, n: nat, k: nat)
    requires Leaving(s) && n >= 2 * k + (if s.phase == Flushing(BackToLoop) then 1 else 0)
    ensures Turns(s, TaskSchedule(s, oracle, n)) >= k
    decreases n
  {
    if k > 0 {
      var a := TaskAction(s, oracle(s));
      var t := Step(s, a);
      var rest := TaskSchedule(t, oracle, n - 1);
      assert ([a] + rest)[1..] == rest;
      TaskStep(s, oracle(s));
      TaskTakesTurns(t, oracle, n - 1, if s.phase.Exited? || Progress(s, a) then k - 1 else k);
    }
  }

  lemma WaitingLeaves<E>(s: System<E>, id: nat)
    requires Served(s) && id in s.replies && s.replies[id].Waiting?
    ensures Leaving(s)
  {
    if Held(s).None? { RequestQueued(s.queue, id); }
  }

  /** A task that a caller waits for is never stuck: its next step is progress, or ends a flush of the main loop
      after which the next one is. */
  lemma NeverStuck<E>(flushRows: nat, capacity: nat, actions: seq<Action<E>>, id: nat, success: bool)
    requires var s := Run(Init<E>(flushRows, capacity), actions); id in s.replies && s.replies[id].Waiting?
    ensures var s := Run(Init<E>(flushRows, capacity), actions);
      var a := TaskAction(s, success);
      Progress(s, a) || (s.phase == Flushing(BackToLoop) && Progress(Step(s, a), TaskAction(Step(s, a), success)))
  {
    RunServes(Init<E>(flushRows, capacity), actions);
    var s := Run(Init<E>(flushRows, capacity), actions);
    WaitingLeaves(s, id);
    TaskStep(s, success);
    TaskStep(Step(s, TaskAction(s, success)), success);
  }

  /** The pause of the drain ends only when there is nothing to take. */
  ghost predicate Patient<E>(s: System<E>, actions: seq<Action<E>>)
    decreases |actions|
  {
    actions != [] ==>
      && (actions[0].DrainIdle? && s.phase.Draining? ==> s.queue == [])
      && Patient(Step(s, actions[0]), actions[1..])
  }

  /** The flush that the task makes before it leaves does not fail. */
  ghost predicate LastFlushWorks<E>(s: System<E>, actions: seq<Action<E>>)
    decreases |actions|
  {
    actions != [] ==>
      && (actions[0] == FlushEnds(false) && s.phase.Flushing? ==> s.phase.after.BackToLoop?)
      && LastFlushWorks(Step(s, actions[0]), actions[1..])
  }

  /** The last flush, once begun, has the queue drained before it. */
  predicate DrainedFirst<E>(s: System<E>) { s.phase.Flushing? && s.phase.after.Leave? ==> s.queue == [] }

  ghost predicate NoneDropped(before: map<nat, Reply>, after: map<nat, Reply>) {
    forall id | id in after && after[id].Dropped? :: id in before && before[id].Dropped?
  }

  lemma EmptyQueueDropsNobody<E>(s: System<E>)
    requires Served(s) && s.queue == []
    ensures NoneDropped(s.replies, Settle(s.replies, Held(s)))
  {
  }

  /** Out of the main loop or the drain the task goes with an empty queue, answering the caller it holds. */
  lemma PatientExit<E>(s: System<E>, a: Action<E>)
    requires Served(s) && DrainedFirst(s) && !s.phase.Exited? && Step(s, a).phase.Exited?
    requires a.DrainIdle? && s.phase.Draining? ==> s.queue == []
    ensures s.queue == [] && Step(s, a).replies == Settle(s.replies, Held(s))
  {
  }

  lemma PatientStep<E>(s: System<E>, a: Action<E>)
    requires Served(s) && DrainedFirst(s) && !a.Offer? && !a.AskShutdown?
    requires a.DrainIdle? && s.phase.Draining? ==> s.queue == []
    ensures DrainedFirst(Step(s, a)) && NoneDropped(s.replies, Step(s, a).replies)
  {
    if !s.phase.Exited? && Step(s, a).phase.Exited? {
      PatientExit(s, a);
      EmptyQueueDropsNobody(s);
    }
  }

  lemma PatientLosesNothing<E>(s: System<E>, a: Action<E>)
    requires Served(s) && DrainedFirst(s) && s.lost == []
    requires a.DrainIdle? && s.phase.Draining? ==> s.queue == []
    requires a == FlushEnds(false) && s.phase.Flushing? ==> s.phase.after.BackToLoop?
    ensures Step(s, a).lost == []
  {
    StepConserves(s, a);
    if !s.phase.Exited? && Step(s, a).phase.Exited? {
      PatientExit(s, a);
      ExitLoses(s, a);
    }
  }

  lemma {:induction false} PatientRun<E>(s: System<E>, actions: seq<Action<E>>)
    requires Served(s) && DrainedFirst(s) && Silent(actions) && Patient(s, actions)
    ensures NoneDropped(s.replies, Run(s, actions).replies)
    ensures s.lost == [] && LastFlushWorks(s, actions) ==> Run(s, actions).lost == []
    decreases |actions|
  {
    if actions != [] {
      StepServes(s, actions[0]);
      PatientStep(s, actions[0]);
      if s.lost == [] && LastFlushWorks(s, actions) { PatientLosesNothing(s, actions[0]); }
      PatientRun(Step(s, actions[0]), actions[1..]);
    }
  }

  /** From every reachable state, over every run in which nobody sends any more, whatever flushes fail and however often
      the interval elapses: the task makes at most Rank steps of progress; when it has had Rank turns it is gone and
      nobody waits. If the drain is patient, no caller's channel was dropped, unless the last flush had begun before;
      if that flush works, every accepted event is in the table. */
  lemma ShutdownEnds<E>(flushRows: nat, capacity: nat, actions: seq<Action<E>>, rest: seq<Action<E>>)
    requires Silent(rest)
    ensures var s := Run(Init<E>(flushRows, capacity), actions);
      var t := Run(s, rest);
      && Count(s, rest) <= Rank(s) && t.accepted == s.accepted && t.offered == s.offered
      && (Turns(s, rest) >= Rank(s) ==> t.phase.Exited?)
      && (t.phase.Exited? ==> forall id | id in t.replies :: !t.replies[id].Waiting?)
      && (DrainedFirst(s) && Patient(s, rest) ==> NoneDropped(s.replies, t.replies))
      && (DrainedFirst(s) && Patient(s, rest) && LastFlushWorks(s, rest) && !s.phase.Exited? && t.phase.Exited? ==>
            t.lost == [] && t.committed == t.accepted)
  {
    var s := Run(Init<E>(flushRows, capacity), actions);
    RunServes(Init<E>(flushRows, capacity), actions);
    RunServes(s, rest);
    RunRank(s, rest);
    if Turns(s, rest) >= Rank(s) { TurnsEnd(s, rest); }
    NothingLost(Run(s, rest));
    if DrainedFirst(s) && Patient(s, rest) { PatientRun(s, rest); }
  }

  /** Such runs exist: from every reachable state in which a call waits, and however its transactions end, the task's
      own steps give it Rank turns after at most two steps for each and one more. Then it is gone and nobody waits.
      Unless it had begun its last flush before, every caller was answered, and if transactions succeed all events are
      in the table. */
  lemma WaitingCallReturns<E>(flushRows: nat, capacity: nat, actions: seq<Action<E>>, id: nat,
                              oracle: System<E> -> bool, n: nat)
    requires var s := Run(Init<E>(flushRows, capacity), actions);
      id in s.replies && s.replies[id].Waiting? && n >= 2 * Rank(s) + 1
    ensures var s := Run(Init<E>(flushRows, capacity), actions);
      var rest := TaskSchedule(s, oracle, n);
      var t := Run(s, rest);
      && Silent(rest) && Patient(s, rest) && Turns(s, rest) >= Rank(s)
      && t.phase.Exited? && (forall i | i in t.replies :: !t.replies[i].Waiting?)
      && (DrainedFirst(s) ==> NoneDropped(s.replies, t.replies))
      && (DrainedFirst(s) && (forall u :: oracle(u)) ==> t.committed == t.accepted == s.accepted)
  {
    var s := Run(Init<E>(flushRows, capacity), actions);
    RunServes(Init<E>(flushRows, capacity), actions);
    WaitingLeaves(s, id);
    TaskSilent(s, oracle, n);
    TaskTakesTurns(s, oracle, n, Rank(s));
    ShutdownEnds(flushRows, capacity, actions, TaskSchedule(s, oracle, n));
  }

  lemma NothingLost<E>(t: System<E>)
    requires Served(t)
    ensures t.phase.Exited? && t.lost == [] ==> t.committed == t.accepted
    ensures t.phase.Exited? ==> forall id | id in t.replies :: !t.replies[id].Waiting?
  {
    assert t.phase.Exited? ==> t.accepted == t.committed + t.lost;
  }

  // ---------------------------------------------------------------- the second drain loop

  /** How often the drain finds nothing to take. */
  function Idles<E>(actions: seq<Action<E>>): nat {
    if actions == [] then 0 else (if actions[0].DrainIdle? then 1 else 0) + Idles(actions[1..])
  }

  lemma {:induction false} DrainGoesOn<E>(s: System<E>, actions: seq<Action<E>>)
    requires s.phase.Draining? && Idles(actions) + (if s.phase.timed then 1 else 0) <= 1
    ensures var t := Run(s, actions); t.phase.Draining? && t.phase.reply == s.phase.reply
    decreases |actions|
  {
    if actions != [] { DrainGoesOn(Step(s, actions[0]), actions[1..]); }
  }

  /** The drain does not end when it first finds the queue empty: senders have until the second pause. What is accepted
      meanwhile is in the table once a patient end with a working last flush is over. */
  lemma SecondLoopWaits<E>(flushRows: nat, capacity: nat, actions: seq<Action<E>>, meanwhile: seq<Action<E>>,
                           rest: seq<Action<E>>)
    requires var s := Run(Init<E>(flushRows, capacity), actions);
      s.phase.Draining? && !s.phase.timed && Idles(meanwhile) <= 1 && Silent(rest)
    ensures var s := Run(Init<E>(flushRows, capacity), actions);
      var u := Run(s, meanwhile);
      var t := Run(u, rest);
      && u.phase.Draining? && u.phase.reply == s.phase.reply && s.accepted <= u.accepted
      && (Patient(u, rest) && LastFlushWorks(u, rest) && t.phase.Exited? ==> t.committed == u.accepted && t.lost == [])
  {
    var s := Run(Init<E>(flushRows, capacity), actions);
    DrainGoesOn(s, meanwhile);
    RunAccepts(s, meanwhile);
    RunConcat(Init<E>(flushRows, capacity), actions, meanwhile);
    ShutdownEnds(flushRows, capacity, actions + meanwhile, rest);
  }

  /** And the second pause ends it: with nothing left to take, the task goes on to its last flush. */
  lemma SecondPauseEnds<E>(s: System<E>)
    requires s.phase.Draining? && s.phase.timed
    ensures var t := Step(s, DrainIdle);
      && (s.buffer != [] ==> t == s.(phase := Flushing(Leave(Some(s.phase.reply)))))
      && (s.buffer == [] ==> t.phase.Exited? && t.committed == s.committed)
  {
  }

  // ---------------------------------------------------------------- the interval

  function TickAndFail<E>(n: nat): seq<Action<E>> {
    if n == 0 then [] else [Tick, FlushEnds(false)] + TickAndFail(n - 1)
  }

  lemma {:induction false} TicksChangeNothing<E>(s: System<E>, n: nat)
    requires s.phase.Selecting? && s.buffer != []
    ensures Run(s, TickAndFail(n)) == s.(writeFailures := s.writeFailures + n)
    decreases n
  {
    if n > 0 {
      RunTwoMore(s, Tick, FlushEnds(false), TickAndFail(n - 1));
      TicksChangeNothing(s.(writeFailures := s.writeFailures + 1), n - 1);
    }
  }

  /** The number of steps in all has no bound: while the database fails, the interval may elapse any number of times
      before the task takes the request that a caller waits for. */
  lemma TicksDelayShutdown<E>(flushRows: nat, capacity: nat, e: E, n: nat)
    requires flushRows > 1 && capacity > 0
    ensures var s := Run(Init<E>(flushRows, capacity), [Offer(e), Receive, AskShutdown(1)] + TickAndFail(n));
      s.phase == Selecting && s.writeFailures == n && 1 in s.replies && s.replies[1].Waiting?
  {
    var s0 := Init<E>(flushRows, capacity);
    RunConcat(s0, [Offer(e), Receive, AskShutdown(1)], TickAndFail(n));
    RunThree(s0, Offer(e), Receive, AskShutdown(1));
    var s := Run(s0, [Offer(e), Receive, AskShutdown(1)]);
    assert Step(s0, Offer(e)).queue == [Event(e)];
    assert s.phase == Selecting && s.buffer == [e];
    TicksChangeNothing(s, n);
  }
}
