/** How many events the writer (src/writer.rs) holds that are not yet in the table. */
module WriterBacklog {
  import opened Common
  import opened Writer
  import opened WriterShutdown

  /** The buffer outgrows `flush_rows` by at most one event per failed flush. */
  ghost predicate Bounded<E>(s: System<E>) {
    match s.phase
    case Selecting => |s.buffer| < s.flushRows + s.writeFailures
    case Flushing(BackToLoop) => |s.buffer| <= s.flushRows + s.writeFailures
    case Flushing(Leave(None)) => |s.buffer| < s.flushRows + s.writeFailures
    case _ => true
  }

  lemma StepBounds<E>(s: System<E>, a: Action<E>)
    requires Bounded(s) && s.flushRows > 0
    ensures Bounded(Step(s, a)) && Step(s, a).flushRows == s.flushRows && Step(s, a).capacity == s.capacity
  {
  }

  lemma {:induction false} RunBounds<E>(s: System<E>, actions: seq<Action<E>>)
    requires Bounded(s) && s.flushRows > 0
    ensures Bounded(Run(s, actions))
    ensures Run(s, actions).flushRows == s.flushRows && Run(s, actions).capacity == s.capacity
    decreases |actions|
  {
    if actions != [] {
      StepBounds(s, actions[0]);
      RunBounds(Step(s, actions[0]), actions[1..]);
    }
  }

  lemma {:induction false} EventsLength<E>(queue: seq<Message<E>>)
    ensures |Events(queue)| <= |queue|
  {
    if queue != [] { EventsLength(queue[1..]); }
  }

  /** Accepted but uncommitted events outside the drain: below flush_rows + capacity + failures in the main loop and in
      the flush after the last sender is gone, at most that while a flush of the main loop is pending. */
  lemma BacklogBound<E>(flushRows: nat, capacity: nat, actions: seq<Action<E>>)
    requires flushRows > 0
    ensures var s := Run(Init<E>(flushRows, capacity), actions);
      var backlog := |s.accepted| - |s.committed|;
      && (s.phase.Selecting? ==> |s.buffer| < flushRows + s.writeFailures)
      && (s.phase.Selecting? ==> backlog < flushRows + capacity + s.writeFailures)
      && (s.phase == Flushing(Leave(None)) ==> |s.buffer| < flushRows + s.writeFailures)
      && (s.phase == Flushing(Leave(None)) ==> backlog < flushRows + capacity + s.writeFailures)
      && (s.phase == Flushing(BackToLoop) ==> backlog <= flushRows + capacity + s.writeFailures)
  {
    RunConserves(Init<E>(flushRows, capacity), actions);
    RunBounds(Init<E>(flushRows, capacity), actions);
    EventsLength(Run(Init<E>(flushRows, capacity), actions).queue);
  }

  // ---------------------------------------------------------------- the bound is tight

  lemma RunOfferReceive<E>(s: System<E>, e: E)
    requires s.phase.Selecting? && s.queue == [] && s.capacity > 0 && s.sendersAlive
    ensures var t := Step(Step(s, Offer(e)), Receive);
      && t.queue == [] && t.buffer == s.buffer + [e] && t.committed == s.committed && t.writeFailures == s.writeFailures
      && t.capacity == s.capacity && t.flushRows == s.flushRows && t.sendersAlive
      && t.phase == (if |s.buffer| + 1 >= s.flushRows then Flushing(BackToLoop) else Selecting)
  {
    var u := Step(s, Offer(e));
    assert u.queue == [Event(e)] && u.queue[1..] == [];
  }

  function Feed<E>(e: E, n: nat): seq<Action<E>> { if n == 0 then [] else [Offer(e), Receive] + Feed(e, n - 1) }

  /** Events are offered and received one by one until the buffer is full. */
  lemma {:induction false} FeedFills<E>(s: System<E>, e: E)
    requires s.phase.Selecting? && s.queue == [] && s.capacity > 0 && s.sendersAlive && |s.buffer| < s.flushRows
    ensures var t := Run(s, Feed(e, s.flushRows - |s.buffer|));
      && t.phase == Flushing(BackToLoop) && t.queue == [] && |t.buffer| == s.flushRows && t.committed == s.committed
      && t.writeFailures == s.writeFailures && t.capacity == s.capacity && t.flushRows == s.flushRows && t.sendersAlive
    decreases s.flushRows - |s.buffer|
  {
    var n := s.flushRows - |s.buffer|;
    RunOfferReceive(s, e);
    RunTwoMore(s, Offer(e), Receive, Feed(e, n - 1));
    if n > 1 { FeedFills(Step(Step(s, Offer(e)), Receive), e); }
  }

  function FailAndFeed<E>(e: E, n: nat): seq<Action<E>> {
    if n == 0 then [] else [FlushEnds(false)] + ([Offer(e), Receive] + FailAndFeed(e, n - 1))
  }

  /** After each failed flush one more event gets into the buffer. */
  lemma {:induction false} FailuresGrow<E>(s: System<E>, e: E, n: nat)
    requires s.phase == Flushing(BackToLoop) && s.queue == [] && s.capacity > 0 && s.sendersAlive
    requires |s.buffer| >= s.flushRows
    ensures var t := Run(s, FailAndFeed(e, n));
      && t.phase == Flushing(BackToLoop) && t.queue == [] && |t.buffer| == |s.buffer| + n && t.committed == s.committed
      && t.writeFailures == s.writeFailures + n && t.capacity == s.capacity && t.sendersAlive
    decreases n
  {
    if n > 0 {
      var rest := [Offer(e), Receive] + FailAndFeed(e, n - 1);
      var failed := Step(s, FlushEnds(false));
      var all := [FlushEnds(false)] + rest;
      assert all[1..] == rest;
      RunOfferReceive(failed, e);
      RunTwoMore(failed, Offer(e), Receive, FailAndFeed(e, n - 1));
      FailuresGrow(Step(Step(failed, Offer(e)), Receive), e, n - 1);
    }
  }

  function Offers<E>(e: E, n: nat): seq<Action<E>> { if n == 0 then [] else [Offer(e)] + Offers(e, n - 1) }

  /** While the flush is pending the queue fills up. */
  lemma {:induction false} OffersQueue<E>(s: System<E>, e: E, n: nat)
    requires s.phase.Flushing? && s.sendersAlive && |s.queue| + n <= s.capacity
    ensures var t := Run(s, Offers(e, n));
      && t.phase == s.phase && |t.accepted| == |s.accepted| + n && t.committed == s.committed
      && t.writeFailures == s.writeFailures
    decreases n
  {
    if n > 0 {
      assert ([Offer(e)] + Offers(e, n - 1))[1..] == Offers(e, n - 1);
      OffersQueue(Step(s, Offer(e)), e, n - 1);
    }
  }

  /** The bound is reached while a flush is pending, for every valid setting and any number of failures. */
  lemma BacklogBoundReached<E>(flushRows: nat, capacity: nat, failures: nat, e: E) returns (actions: seq<Action<E>>)
    requires flushRows > 0 && capacity > 0
    ensures var s := Run(Init<E>(flushRows, capacity), actions);
      && s.phase == Flushing(BackToLoop) && s.writeFailures == failures
      && |s.accepted| - |s.committed| == flushRows + capacity + failures
  {
    var s0 := Init<E>(flushRows, capacity);
    var filled := Run(s0, Feed(e, flushRows));
    FeedFills(s0, e);
    var grown := Run(filled, FailAndFeed(e, failures));
    FailuresGrow(filled, e, failures);
    RunConcat(s0, Feed(e, flushRows), FailAndFeed(e, failures));
    AcceptedHeld(flushRows, capacity, Feed(e, flushRows) + FailAndFeed(e, failures));
    OffersQueue(grown, e, capacity);
    RunConcat(s0, Feed(e, flushRows) + FailAndFeed(e, failures), Offers(e, capacity));
    actions := Feed(e, flushRows) + FailAndFeed(e, failures) + Offers(e, capacity);
  }

  lemma AcceptedHeld<E>(flushRows: nat, capacity: nat, actions: seq<Action<E>>)
    ensures var s := Run(Init<E>(flushRows, capacity), actions);
      !s.phase.Exited? && s.queue == [] ==> |s.accepted| == |s.committed| + |s.buffer|
  {
    RunConserves(Init<E>(flushRows, capacity), actions);
  }
}
