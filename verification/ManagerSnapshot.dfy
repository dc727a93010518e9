/** When the published snapshot of the runtime manager (src/runtime_manager.rs) tells the truth although operations
    overlap. */
module ManagerSnapshot {
  import opened Common
  import opened ManagerConcurrent

  // ---------------------------------------------------------------- who will publish what

  /** The configuration an operation is about to publish as the running one: seen by a save at its check, or just
      installed by a reload. */
  function Claim<C>(p: Progress<C>): Option<C> {
    match p
    case SaveChecked(config, matches) => if matches then Some(config) else None
    case SaveWritten(config, matches) => if matches then Some(config) else None
    case ReloadInstalled(config) => Some(config)
    case ReloadRead(config, _) => Some(config)
    case _ => None
  }

  /** The configuration a reload took from the slot and may still put back. */
  function Origin<C>(p: Progress<C>): Option<C> {
    match p
    case ReloadTook(runtime) => Some(runtime.config)
    case ReloadLoaded(runtime, _) => Some(runtime.config)
    case ReloadStopped(previous, _) => Some(previous)
    case ReloadReleased(previous, _) => Some(previous)
    case ReloadNotStarted(previous) => Some(previous)
    case ReloadRestarted(runtime) => Some(runtime.config)
    case _ => None
  }

  predicate Announcing<C>(p: Progress<C>) { p.ReloadInstalled? || p.ReloadRead? }

  /** What the snapshot says fits a runtime with configuration h. */
  ghost predicate Told<C>(s: System<C>, h: C) { s.described == h && (!s.pendingReload ==> s.saved == h) }

  // ---------------------------------------------------------------- the guards

  /** The new runtime that a step puts into the slot has the configuration every other operation is about to publish. */
  ghost predicate NoConflict<C>(s: System<C>, a: Action<C>) {
    a.Advance? && a.op in s.ops && s.ops[a.op].ReloadStarted? ==>
      forall i | i in s.ops && Claim(s.ops[i]).Some? :: Claim(s.ops[i]).value == s.ops[a.op].runtime.config
  }

  /** A reload that looks up the runtime it has installed finds one; or another announcement is still to come; or what
      the snapshot says fits the runtime that another reload has taken and may put back. */
  ghost predicate NotMissed<C>(s: System<C>, a: Action<C>) {
    a.Advance? && a.op in s.ops && s.ops[a.op].ReloadInstalled? && s.slot.None? ==>
      || (exists i :: i in s.ops && i != a.op && Announcing(s.ops[i]))
      || (forall i | i in s.ops && Origin(s.ops[i]).Some? :: Told(s, Origin(s.ops[i]).value))
  }

  ghost predicate Conflictless<C>(s: System<C>, actions: seq<Action<C>>)
    decreases |actions|
  {
    actions != [] ==> NoConflict(s, actions[0]) && Conflictless(Step(s, actions[0]), actions[1..])
  }

  ghost predicate Orderly<C>(s: System<C>, actions: seq<Action<C>>)
    decreases |actions|
  {
    actions != [] ==>
      NoConflict(s, actions[0]) && NotMissed(s, actions[0]) && Orderly(Step(s, actions[0]), actions[1..])
  }

  // ---------------------------------------------------------------- what guarded runs keep

  /** All claims are true of the runtime in the slot, or of the one that may come back into it. */
  ghost predicate ClaimsHold<C>(s: System<C>) {
    forall i | i in s.ops && Claim(s.ops[i]).Some? :: ClaimHolds(s, Claim(s.ops[i]).value)
  }

  ghost predicate ClaimHolds<C>(s: System<C>, c: C) {
    && (s.slot.Some? ==> s.slot.value.config == c)
    && (forall j | j in s.ops && Origin(s.ops[j]).Some? :: Origin(s.ops[j]).value == c)
  }

  ghost predicate ReadsRight<C>(s: System<C>) {
    forall i | i in s.ops && s.ops[i].ReloadRead? :: s.ops[i].described == s.ops[i].config
  }

  ghost predicate Agreed<C>(s: System<C>) { OneLicence(s) && ClaimsHold(s) && ReadsRight(s) }

  /** What a step of one operation does to claims, origins and the slot. */
  lemma MoveEffects<C>(s: System<C>, p: Progress<C>, success: bool)
    ensures var m := MoveOp(s, p, success);
      && m.shared.ops == s.ops
      && (Claim(m.next).Some? ==>
            Claim(m.next) == Claim(p) || (m.shared.slot.Some? && m.shared.slot.value.config == Claim(m.next).value))
      && (Origin(m.next).Some? ==>
            Origin(m.next) == Origin(p) || (s.slot.Some? && s.slot.value.config == Origin(m.next).value))
      && (m.shared.slot.Some? ==>
            m.shared.slot == s.slot || ((p.ReloadStarted? || p.ReloadRestarted?) && m.shared.slot == Some(p.runtime)))
  {
  }

  lemma ReadsStayRight<C>(s: System<C>, a: Action<C>)
    requires Agreed(s)
    ensures ReadsRight(Step(s, a))
  {
    if a.Advance? && a.op in s.ops && s.ops[a.op].ReloadInstalled? {
      assert ClaimHolds(s, s.ops[a.op].config);
    }
  }

  lemma StepAgrees<C>(s: System<C>, a: Action<C>)
    requires Agreed(s) && NoConflict(s, a)
    ensures Agreed(Step(s, a))
  {
    StepKeepsLicence(s, a);
    ReadsStayRight(s, a);
    if a.Advance? && a.op in s.ops {
      var t := Step(s, a);
      forall i | i in t.ops && Claim(t.ops[i]).Some? ensures ClaimHolds(t, Claim(t.ops[i]).value) {
        ClaimKept(s, a, i);
      }
    }
  }

  lemma ClaimKept<C>(s: System<C>, a: Action<C>, i: nat)
    requires Agreed(s) && NoConflict(s, a) && a.Advance? && a.op in s.ops
    requires i in Step(s, a).ops && Claim(Step(s, a).ops[i]).Some?
    ensures ClaimHolds(Step(s, a), Claim(Step(s, a).ops[i]).value)
  {
    StepKeepsLicence(s, a);
    MoveEffects(s, s.ops[a.op], a.success);
  }

  /** No reload has yet to announce a new runtime. */
  ghost predicate Quiet<C>(s: System<C>) { forall i | i in s.ops :: !Announcing(s.ops[i]) }

  /** Nor to report that it put the old one back. */
  ghost predicate Settled<C>(s: System<C>) { Quiet(s) && forall i | i in s.ops :: !s.ops[i].ReloadPutBack? }

  /** No pending reload means that the saved configuration runs, unless a reload has yet to publish its outcome. */
  ghost predicate SavedTold<C>(s: System<C>) {
    Settled(s) && s.slot.Some? && !s.pendingReload ==> s.saved == s.slot.value.config
  }

  /** The whole snapshot fits the runtime in the slot, and the one that may come back into it, unless a new one has
      yet to be announced. */
  ghost predicate AllTold<C>(s: System<C>) {
    Quiet(s) ==>
      && (s.slot.Some? ==> Told(s, s.slot.value.config))
      && (forall j | j in s.ops && Origin(s.ops[j]).Some? :: Told(s, Origin(s.ops[j]).value))
  }

  /** Other operations stay where they are. */
  lemma OthersStay<C>(s: System<C>, a: Action<C>, i: nat)
    requires i in s.ops && (a.Advance? ==> i != a.op)
    ensures i in Step(s, a).ops && Step(s, a).ops[i] == s.ops[i]
  {
  }

  /** If all is quiet after a step, it was quiet before, or the operation that moved was the last to announce
      something. */
  lemma QuietBefore<C>(s: System<C>, a: Action<C>)
    requires Quiet(Step(s, a))
    ensures Quiet(s) || (a.Advance? && a.op in s.ops && Announcing(s.ops[a.op]))
  {
    forall i | i in s.ops && (a.Advance? ==> i != a.op) ensures !Announcing(s.ops[i]) { OthersStay(s, a, i); }
  }

  lemma SettledBefore<C>(s: System<C>, a: Action<C>)
    requires Settled(Step(s, a))
    ensures Settled(s) || (a.Advance? && a.op in s.ops && (Announcing(s.ops[a.op]) || s.ops[a.op].ReloadPutBack?))
  {
    QuietBefore(s, a);
    forall i | i in s.ops && (a.Advance? ==> i != a.op) ensures !s.ops[i].ReloadPutBack? { OthersStay(s, a, i); }
  }

  lemma StepTellsSaved<C>(s: System<C>, a: Action<C>)
    requires Agreed(s) && SavedTold(s) && NoConflict(s, a)
    ensures SavedTold(Step(s, a))
  {
    if Settled(Step(s, a)) {
      SettledBefore(s, a);
      if a.Advance? && a.op in s.ops {
        var m := MoveOp(s, s.ops[a.op], a.success);
        assert Step(s, a).ops[a.op] == m.next;
        assert Claim(s.ops[a.op]).Some? ==> ClaimHolds(s, Claim(s.ops[a.op]).value);
      }
    }
  }

  /** What a move from a quiet state, or from the last announcement, to a quiet state tells. */
  ghost predicate MoveTold<C>(s: System<C>, op: nat, m: Move<C>) {
    && (m.shared.slot.Some? ==> Told(m.shared, m.shared.slot.value.config))
    && (Origin(m.next).Some? ==> Told(m.shared, Origin(m.next).value))
    && (forall j | j in s.ops && j != op && Origin(s.ops[j]).Some? :: Told(m.shared, Origin(s.ops[j]).value))
  }

  lemma PublishTells<C>(s: System<C>, op: nat, success: bool)
    requires Agreed(s) && AllTold(s) && op in s.ops && NotMissed(s, Advance(op, success))
    requires Announcing(s.ops[op]) && !Announcing(MoveOp(s, s.ops[op], success).next)
    requires forall i | i in s.ops && i != op :: !Announcing(s.ops[i])
    ensures MoveTold(s, op, MoveOp(s, s.ops[op], success))
  {
    assert ClaimHolds(s, s.ops[op].config);
  }

  lemma SaveTells<C>(s: System<C>, op: nat, success: bool)
    requires Agreed(s) && AllTold(s) && Quiet(s) && op in s.ops
    requires s.ops[op].SaveBegun? || s.ops[op].SaveChecked? || s.ops[op].SaveWritten?
    ensures MoveTold(s, op, MoveOp(s, s.ops[op], success))
  {
    assert Claim(s.ops[op]).Some? ==> ClaimHolds(s, Claim(s.ops[op]).value);
  }

  lemma OwnerTells<C>(s: System<C>, op: nat, success: bool)
    requires Agreed(s) && AllTold(s) && Quiet(s) && op in s.ops
    requires !s.ops[op].SaveBegun? && !s.ops[op].SaveChecked? && !s.ops[op].SaveWritten?
    requires !Announcing(MoveOp(s, s.ops[op], success).next)
    ensures MoveTold(s, op, MoveOp(s, s.ops[op], success))
  {
  }

  lemma StepTellsAll<C>(s: System<C>, a: Action<C>)
    requires Agreed(s) && AllTold(s) && NoConflict(s, a) && NotMissed(s, a)
    ensures AllTold(Step(s, a))
  {
    var t := Step(s, a);
    if Quiet(t) {
      QuietBefore(s, a);
      if a.Advance? && a.op in s.ops {
        assert t.ops[a.op] == MoveOp(s, s.ops[a.op], a.success).next;
        var p := s.ops[a.op];
        if Announcing(p) {
          forall i | i in s.ops && i != a.op ensures !Announcing(s.ops[i]) { OthersStay(s, a, i); }
          PublishTells(s, a.op, a.success);
        } else if p.SaveBegun? || p.SaveChecked? || p.SaveWritten? {
          SaveTells(s, a.op, a.success);
        } else {
          OwnerTells(s, a.op, a.success);
        }
        MoveEffects(s, s.ops[a.op], a.success);
      }
    }
  }

  lemma {:induction false} RunTellsSaved<C>(s: System<C>, actions: seq<Action<C>>)
    requires Agreed(s) && SavedTold(s) && Conflictless(s, actions)
    ensures Agreed(Run(s, actions)) && SavedTold(Run(s, actions))
    decreases |actions|
  {
    if actions != [] {
      StepAgrees(s, actions[0]);
      StepTellsSaved(s, actions[0]);
      RunTellsSaved(Step(s, actions[0]), actions[1..]);
    }
  }

  lemma {:induction false} RunTellsAll<C>(s: System<C>, actions: seq<Action<C>>)
    requires Agreed(s) && AllTold(s) && Orderly(s, actions)
    ensures Agreed(Run(s, actions)) && AllTold(Run(s, actions))
    decreases |actions|
  {
    if actions != [] {
      StepAgrees(s, actions[0]);
      StepTellsAll(s, actions[0]);
      RunTellsAll(Step(s, actions[0]), actions[1..]);
    }
  }

  /** In every interleaving in which no new runtime is installed against what another operation is about to publish:
      whenever no reload has an outcome to publish, no pending reload means that the saved configuration runs. */
  lemma ConflictlessRun<C>(config: C, actions: seq<Action<C>>)
    requires Conflictless(Init(config), actions)
    ensures var s := Run(Init(config), actions);
      Settled(s) && s.slot.Some? && !s.pendingReload ==> s.saved == s.slot.value.config
  {
    RunTellsSaved(Init(config), actions);
  }

  /** If moreover no reload misses the runtime it installed, the summary describes the running runtime as well. */
  lemma OrderlyRun<C>(config: C, actions: seq<Action<C>>)
    requires Orderly(Init(config), actions)
    ensures var s := Run(Init(config), actions);
      Quiet(s) && s.slot.Some? ==>
        s.described == s.slot.value.config && (!s.pendingReload ==> s.saved == s.slot.value.config)
  {
    RunTellsAll(Init(config), actions);
  }

  // ---------------------------------------------------------------- the guards are exact

  ghost predicate Installs<C>(s: System<C>, a: Action<C>) {
    a.Advance? && a.op in s.ops && (s.ops[a.op].ReloadStarted? || s.ops[a.op].ReloadRestarted?)
  }

  /** The operation takes its last steps and nothing else happens. */
  function Finished<C(==)>(s: System<C>, op: nat): System<C> { Run(s, Advances(op, [true] + ([true] + []))) }

  lemma FinishClaim<C>(s: System<C>, op: nat)
    requires s.slot.Some? && op in s.ops && Claim(s.ops[op]).Some?
    ensures var t := Finished(s, op);
      && t.slot == s.slot && !t.pendingReload && t.saved == Claim(s.ops[op]).value
      && t.ops == s.ops[op := Done(true)]
      && (s.ops[op].ReloadInstalled? ==> t.described == s.slot.value.config)
      && (s.ops[op].ReloadRead? ==> t.described == s.ops[op].described)
  {
    var m0 := Move(s, s.ops[op]);
    RunAlone(s, m0, op, [true] + ([true] + []));
    AloneCons(m0, true, [true] + []);
    AloneCons(Next(m0, true), true, []);
    OthersUntouched(s, op, [true] + ([true] + []));
  }

  /** A runtime is installed while another operation has a publication to make. If that operation finishes next, what
      it publishes is true exactly if the new runtime has the configuration it claims; if a reload had already looked
      up its runtime, the summary it publishes is wrong in the same case. */
  lemma ConflictIff<C>(s: System<C>, a: Action<C>, op: nat)
    requires Installs(s, a) && op in s.ops && op != a.op && Claim(s.ops[op]).Some?
    ensures var t := Finished(Step(s, a), op);
      && t.ops == Step(s, a).ops[op := Done(true)] && t.slot == Some(s.ops[a.op].runtime) && !t.pendingReload
      && (t.saved == t.slot.value.config <==> Claim(s.ops[op]).value == s.ops[a.op].runtime.config)
      && (s.ops[op].ReloadRead? && s.ops[op].described == s.ops[op].config ==>
            (t.described == t.slot.value.config <==> Claim(s.ops[op]).value == s.ops[a.op].runtime.config))
  {
    FinishClaim(Step(s, a), op);
  }

  /** Whichever operation has something to publish and finishes next, the saved configuration it publishes runs. */
  ghost predicate PromisesKept<C>(s: System<C>) {
    s.slot.Some? ==> forall i | i in s.ops && Claim(s.ops[i]).Some? :: Finished(s, i).saved == s.slot.value.config
  }

  /** At every moment of the run. */
  ghost predicate AlwaysKept<C>(s: System<C>, actions: seq<Action<C>>)
    decreases |actions|
  {
    PromisesKept(s) && (actions != [] ==> AlwaysKept(Step(s, actions[0]), actions[1..]))
  }

  lemma KeptIff<C>(s: System<C>)
    ensures PromisesKept(s) <==>
      (s.slot.Some? ==> forall i | i in s.ops && Claim(s.ops[i]).Some? :: Claim(s.ops[i]).value == s.slot.value.config)
  {
    if s.slot.Some? {
      forall i | i in s.ops && Claim(s.ops[i]).Some? ensures Finished(s, i).saved == Claim(s.ops[i]).value {
        FinishClaim(s, i);
      }
    }
  }

  lemma KeptAfterInstall<C>(s: System<C>, a: Action<C>)
    requires PromisesKept(Step(s, a))
    ensures NoConflict(s, a)
  {
    if a.Advance? && a.op in s.ops && s.ops[a.op].ReloadStarted? {
      KeptIff(Step(s, a));
      forall i | i in s.ops && Claim(s.ops[i]).Some? ensures Claim(s.ops[i]).value == s.ops[a.op].runtime.config {
        OthersStay(s, a, i);
      }
    }
  }

  lemma AgreedKeeps<C>(s: System<C>)
    requires Agreed(s)
    ensures PromisesKept(s)
  {
    KeptIff(s);
    assert forall i | i in s.ops && Claim(s.ops[i]).Some? :: ClaimHolds(s, Claim(s.ops[i]).value);
  }

  /** A run is free of conflicts exactly if at every moment of it, whichever operation finishes next publishes the
      truth. */
  lemma {:induction false} ConflictlessFrom<C>(s: System<C>, actions: seq<Action<C>>)
    requires Agreed(s)
    ensures Conflictless(s, actions) <==> AlwaysKept(s, actions)
    decreases |actions|
  {
    AgreedKeeps(s);
    if actions != [] {
      var t := Step(s, actions[0]);
      if PromisesKept(t) { KeptAfterInstall(s, actions[0]); }
      if NoConflict(s, actions[0]) {
        StepAgrees(s, actions[0]);
        ConflictlessFrom(t, actions[1..]);
      } else {
        assert !AlwaysKept(t, actions[1..]);
      }
    }
  }

  lemma ConflictlessIff<C>(config: C, actions: seq<Action<C>>)
    ensures Conflictless(Init(config), actions) <==> AlwaysKept(Init(config), actions)
  {
    ConflictlessFrom(Init(config), actions);
  }

  /** At every moment of the run promises are kept, and the snapshot fits the runtime in the slot and the one that may
      come back, unless a new one has yet to be announced. */
  ghost predicate AlwaysTold<C>(s: System<C>, actions: seq<Action<C>>)
    decreases |actions|
  {
    PromisesKept(s) && AllTold(s) && (actions != [] ==> AlwaysTold(Step(s, actions[0]), actions[1..]))
  }

  lemma ToldAfterLookUp<C>(s: System<C>, a: Action<C>)
    requires AllTold(Step(s, a))
    ensures NotMissed(s, a)
  {
    if a.Advance? && a.op in s.ops && s.ops[a.op].ReloadInstalled? && s.slot.None? {
      var t := Step(s, a);
      if !exists i :: i in s.ops && i != a.op && Announcing(s.ops[i]) {
        assert Quiet(t);
        forall i | i in s.ops && Origin(s.ops[i]).Some? ensures Told(s, Origin(s.ops[i]).value) {
          OthersStay(s, a, i);
          assert Told(t, Origin(t.ops[i]).value);
        }
      }
    }
  }

  lemma {:induction false} OrderlyFrom<C>(s: System<C>, actions: seq<Action<C>>)
    requires Agreed(s) && AllTold(s)
    ensures Orderly(s, actions) <==> AlwaysTold(s, actions)
    decreases |actions|
  {
    AgreedKeeps(s);
    if actions != [] {
      var t := Step(s, actions[0]);
      if PromisesKept(t) { KeptAfterInstall(s, actions[0]); }
      if AllTold(t) { ToldAfterLookUp(s, actions[0]); }
      if NoConflict(s, actions[0]) && NotMissed(s, actions[0]) {
        StepAgrees(s, actions[0]);
        StepTellsAll(s, actions[0]);
        OrderlyFrom(t, actions[1..]);
      } else {
        assert !AlwaysTold(t, actions[1..]);
      }
    }
  }

  /** A run is orderly exactly if the snapshot tells the truth at every moment of it. */
  lemma OrderlyIff<C>(config: C, actions: seq<Action<C>>)
    ensures Orderly(Init(config), actions) <==> AlwaysTold(Init(config), actions)
  {
    OrderlyFrom(Init(config), actions);
  }

  /** The answers with which a reload that holds the previous configuration puts it back. */
  function FallBack<C>(p: Progress<C>): seq<bool> {
    match p
    case ReloadTook(_) => [true] + ([true] + ([true] + ([false] + ([true] + ([true] + ([true] + []))))))
    case ReloadLoaded(_, _) => [true] + ([true] + ([false] + ([true] + ([true] + ([true] + [])))))
    case ReloadStopped(_, _) => [true] + ([false] + ([true] + ([true] + ([true] + []))))
    case ReloadReleased(_, _) => [false] + ([true] + ([true] + ([true] + [])))
    case ReloadNotStarted(_) => [true] + ([true] + ([true] + []))
    case ReloadRestarted(_) => [true] + ([true] + [])
    case _ => []
  }

  lemma RestartedBack<C>(m: Move<C>)
    requires m.next.ReloadRestarted?
    ensures var e := Alone(m, FallBack(m.next));
      && e.next == Done(false) && e.shared.slot == Some(m.next.runtime) && e.shared.described == m.shared.described
  {
    AloneCons(m, true, [true] + []);
    AloneCons(Next(m, true), true, []);
  }

  lemma {:induction false} FallsBack<C>(m: Move<C>, steps: nat)
    requires Origin(m.next).Some? && |FallBack(m.next)| == steps && (m.next.ReloadTook? ==> m.shared.disk.Some?)
    ensures var e := Alone(m, FallBack(m.next));
      && e.next == Done(false) && e.shared.slot.Some? && e.shared.slot.value.config == Origin(m.next).value
      && e.shared.described == m.shared.described
    decreases steps
  {
    if m.next.ReloadRestarted? {
      RestartedBack(m);
    } else {
      var answer := !m.next.ReloadReleased?;
      var n := Next(m, answer);
      assert FallBack(m.next) == [answer] + FallBack(n.next);
      AloneCons(m, answer, FallBack(n.next));
      FallsBack(n, steps - 1);
    }
  }

  /** A reload misses the runtime it installed, and the reload that took it puts it back: the summary is then right
      exactly if it described that configuration all along. */
  lemma MissedIff<C>(s: System<C>, first: nat, second: nat, success: bool)
    requires first in s.ops && s.ops[first].ReloadInstalled? && s.slot.None?
    requires second in s.ops && Origin(s.ops[second]).Some? && (s.ops[second].ReloadTook? ==> s.disk.Some?)
    ensures var missed := Step(s, Advance(first, success));
      var t := Run(missed, Advances(second, FallBack(s.ops[second])));
      && t.ops == s.ops[first := Done(false)][second := Done(false)]
      && t.slot.Some? && t.slot.value.config == Origin(s.ops[second]).value && t.described == s.described
      && (t.described == t.slot.value.config <==> s.described == Origin(s.ops[second]).value)
  {
    var missed := Step(s, Advance(first, success));
    var m := Move(missed, missed.ops[second]);
    var answers := FallBack(s.ops[second]);
    RunAlone(missed, m, second, answers);
    FallsBack(m, |answers|);
    OthersUntouched(missed, second, answers);
  }

  // ---------------------------------------------------------------- runs that break them

  /** A save of the running configuration that overlaps a reload: in the end nothing is pending and no operation is
      in progress, yet the saved configuration is not the one that runs. */
  lemma SaveReloadRace() returns (actions: seq<Action<int>>)
    ensures var s := Run(Init(1), actions);
      && s.slot.Some? && s.slot.value.config == 2
      && s.saved == 1 && !s.pendingReload
      && s.ops == map[1 := Done(true), 2 := Done(true)]
  {
    var s0 := Init(1);
    var w := Serial.World(true, true, true, true, true);
    var before := [Edit(Some(2)), Begin(1, SaveBegun(1)), Advance(1, true), Begin(2, ReloadBegun)];
    var after := [Advance(1, true), Advance(1, true)];
    var s1 := Run(s0, before);
    RaceBegins(s1);
    ReloadAlone(s1, 2, w);
    var s2 := Run(s1, Advances(2, ReloadAnswers(w)));
    OthersUntouched(s1, 2, ReloadAnswers(w));
    RaceEnds(s2);
    RunConcat(s0, before, Advances(2, ReloadAnswers(w)));
    RunConcat(s0, before + Advances(2, ReloadAnswers(w)), after);
    actions := before + Advances(2, ReloadAnswers(w)) + after;
  }

  lemma RaceBegins(s: System<int>)
    requires s == Run(Init(1), [Edit(Some(2)), Begin(1, SaveBegun(1)), Advance(1, true), Begin(2, ReloadBegun)])
    ensures s == Init(1).(disk := Some(2), ops := map[1 := SaveChecked(1, true), 2 := ReloadBegun])
  {
    var all := [Edit(Some(2)), Begin(1, SaveBegun(1)), Advance(1, true), Begin(2, ReloadBegun)];
    var t1 := Step(Init(1), all[0]);
    var t2 := Step(t1, all[1]);
    var t3 := Step(t2, all[2]);
    assert all[1..][0] == all[1] && all[1..][1..][0] == all[2] && all[1..][1..][1..] == [all[3]];
    assert [all[3]][1..] == [];
    assert Run(Init(1), all) == Run(t1, all[1..]);
    assert Run(t1, all[1..]) == Run(t2, all[1..][1..]);
    assert Run(t2, all[1..][1..]) == Run(t3, [all[3]]);
    assert t3.ops == map[1 := SaveChecked(1, true)];
  }

  lemma RaceEnds(s: System<int>)
    requires s.ops == map[1 := SaveChecked(1, true), 2 := Done(true)]
    ensures var t := Run(s, [Advance(1, true), Advance(1, true)]);
      t == s.(disk := Some(1), saved := 1, pendingReload := false, lastReloadError := None,
              ops := map[1 := Done(true), 2 := Done(true)])
  {
    var all: seq<Action<int>> := [Advance(1, true), Advance(1, true)];
    var t1 := Step(s, all[0]);
    assert all[1..] == [all[1]] && [all[1]][1..] == [];
    assert Run(s, all) == Run(t1, [all[1]]);
    assert t1.ops == map[1 := SaveWritten(1, true), 2 := Done(true)];
  }

  function Trues(n: nat): seq<bool> { if n == 0 then [] else [true] + Trues(n - 1) }

  /** A reload that has installed its runtime and not yet looked it up. */
  lemma ReloadInstalls<C>(s: System<C>, op: nat)
    requires op in s.ops && s.ops[op] == ReloadBegun && s.slot.Some? && s.disk.Some?
    ensures var t := Run(s, Advances(op, Trues(6)));
      && SameShared(t, s.(slot := Some(Runtime(s.nextId, s.disk.value)), nextId := s.nextId + 1))
      && t.ops == s.ops[op := ReloadInstalled(s.disk.value)]
  {
    var m0 := Move(s, ReloadBegun);
    var m1 := Next(m0, true);
    var m2 := Next(m1, true);
    var m3 := Next(m2, true);
    RunAlone(s, m0, op, Trues(6));
    OthersUntouched(s, op, Trues(6));
    AloneCons(m0, true, Trues(5));
    AloneCons(m1, true, Trues(4));
    AloneCons(m2, true, Trues(3));
    StartInstalls(m3);
  }

  lemma StartInstalls<C>(m: Move<C>)
    requires m.next.ReloadStopped?
    ensures Alone(m, Trues(3))
         == Move(m.shared.(slot := Some(Runtime(m.shared.nextId, m.next.config)), nextId := m.shared.nextId + 1),
                 ReloadInstalled(m.next.config))
  {
    AloneCons(m, true, Trues(2));
    AloneCons(Next(m, true), true, Trues(1));
    AloneCons(Next(Next(m, true), true), true, Trues(0));
  }

  /** From a started manager: reload 1 has installed configuration b. */
  function FirstReload<C>(b: C): seq<Action<C>> {
    [Edit(Some(b)), Begin(1, ReloadBegun)] + Advances(1, Trues(6))
  }

  lemma RunTwo<C>(s: System<C>, x: Action<C>, y: Action<C>)
    ensures Run(s, [x, y]) == Step(Step(s, x), y)
  {
    assert [x, y][1..] == [y] && [y][1..] == [];
    assert Run(s, [x, y]) == Run(Step(s, x), [y]);
  }

  lemma FirstReloadInstalls<C>(a: C, b: C)
    ensures Run(Init(a), FirstReload(b))
         == Init(a).(disk := Some(b), slot := Some(Runtime(1, b)), nextId := 2, ops := map[1 := ReloadInstalled(b)])
  {
    RunTwo(Init(a), Edit(Some(b)), Begin(1, ReloadBegun));
    var s := Run(Init(a), [Edit(Some(b)), Begin(1, ReloadBegun)]);
    assert s.ops == map[1 := ReloadBegun];
    ReloadInstalls(s, 1);
    RunConcat(Init(a), [Edit(Some(b)), Begin(1, ReloadBegun)], Advances(1, Trues(6)));
  }

  lemma LookUp<C>(a: C, b: C, c: C)
    ensures Run(Run(Init(a), FirstReload(b)), [Advance(1, true), Edit(Some(c))])
         == Init(a).(disk := Some(c), slot := Some(Runtime(1, b)), nextId := 2, ops := map[1 := ReloadRead(b, b)])
  {
    FirstReloadInstalls(a, b);
    RunTwo(Run(Init(a), FirstReload(b)), Advance(1, true), Edit(Some(c)));
  }

  lemma SecondReload<C>(s: System<C>, b: C, c: C, w: Serial.World)
    requires s.ops == map[1 := ReloadRead(b, b)] && s.slot.Some? && s.disk == Some(c)
    requires w.valid && w.released && w.startsNew
    ensures var t := Run(s, [Begin(2, ReloadBegun)] + Advances(2, ReloadAnswers(w)));
      && t.ops == map[1 := ReloadRead(b, b), 2 := Done(true)] && t.slot.Some? && t.slot.value.config == c
  {
    var begun := Step(s, Begin(2, ReloadBegun));
    assert begun.ops == map[1 := ReloadRead(b, b), 2 := ReloadBegun];
    RunBegin(s, 2, ReloadBegun, ReloadAnswers(w));
    ReloadAlone(begun, 2, w);
    OthersUntouched(begun, 2, ReloadAnswers(w));
  }

  /** Two reloads that overlap, no save at all: the second one ends between look-up and publication of the first.
      In the end nothing is pending and no operation is in progress, yet both the saved configuration and the summary
      are those of a runtime that is gone. */
  lemma ReloadReloadRace<C>(a: C, b: C, c: C) returns (actions: seq<Action<C>>)
    ensures var s := Run(Init(a), actions);
      && s.slot.Some? && s.slot.value.config == c
      && s.saved == b && s.described == b && !s.pendingReload && s.lastReloadError.None?
      && s.ops == map[1 := Done(true), 2 := Done(true)]
  {
    var w := Serial.World(true, true, true, true, true);
    LookUp(a, b, c);
    var look := [Advance(1, true), Edit(Some(c))];
    var s2 := Run(Run(Init(a), FirstReload(b)), look);
    var second := [Begin(2, ReloadBegun)] + Advances(2, ReloadAnswers(w));
    SecondReload(s2, b, c, w);
    var s4 := Run(s2, second);
    RunConcat(Init(a), FirstReload(b), look);
    RunConcat(Init(a), FirstReload(b) + look, second);
    RunLast(Init(a), FirstReload(b) + look + second, Advance(1, true));
    actions := FirstReload(b) + look + second + [Advance(1, true)];
    assert Step(s4, Advance(1, true)).ops == map[1 := Done(true), 2 := Done(true)];
  }

  /** Two reloads that overlap: the second takes the runtime before the first has looked it up, cannot start another
      and puts it back. The summary describes the runtime before both. */
  lemma MissedRuntime<C>(a: C, b: C) returns (actions: seq<Action<C>>)
    ensures var s := Run(Init(a), actions);
      && s.slot.Some? && s.slot.value.config == b && s.described == a
      && s.ops == map[1 := Done(false), 2 := Done(false)]
  {
    FirstReloadInstalls(a, b);
    var s1 := Run(Init(a), FirstReload(b));
    RunTwo(s1, Begin(2, ReloadBegun), Advance(2, true));
    var take := [Begin(2, ReloadBegun), Advance(2, true)];
    var s2 := Run(s1, take);
    assert s2.ops == map[1 := ReloadInstalled(b), 2 := ReloadTook(Runtime(1, b))];
    MissedIff(s2, 1, 2, true);
    var s3 := Step(s2, Advance(1, true));
    var back := Advances<C>(2, FallBack(s2.ops[2]));
    RunConcat(Init(a), FirstReload(b), take);
    RunLast(Init(a), FirstReload(b) + take, Advance(1, true));
    RunConcat(Init(a), FirstReload(b) + take + [Advance(1, true)], back);
    actions := FirstReload(b) + take + [Advance(1, true)] + back;
    assert Run(s3, back).ops == map[1 := Done(false), 2 := Done(false)];
  }
}
