/** The runtime manager (src/runtime_manager.rs) with any number of operations in progress, at lock granularity. */
module ManagerConcurrent {
  import opened Common
  import Serial = Manager

  /** A started proxy. Every start makes a new one. */
  datatype Runtime<C> = Runtime(id: nat, config: C)

  /** How far an operation has come; a runtime it owns is part of its state. */
  datatype Progress<C> =
    | SaveBegun(config: C) | SaveChecked(config: C, matches: bool) | SaveWritten(config: C, matches: bool)
    | ReloadBegun
    | ReloadTook(runtime: Runtime<C>)
    | ReloadLoaded(runtime: Runtime<C>, config: C)
    | ReloadStopped(previous: C, config: C)
    | ReloadReleased(previous: C, config: C)
    | ReloadStarted(runtime: Runtime<C>)
    | ReloadInstalled(config: C)
    | ReloadRead(config: C, described: C)
    | ReloadNotStarted(previous: C)
    | ReloadRestarted(runtime: Runtime<C>)
    | ReloadPutBack
    | ReloadLost
    | ShutdownBegun | ShutdownTook(runtime: Runtime<C>)
    | Done(ok: bool)

  datatype System<C> = System(
    slot: Option<Runtime<C>>, nextId: nat, disk: Option<C>,
    saved: C, described: C, pendingReload: bool, lastReloadError: Option<Serial.ReloadError>,
    ops: map<nat, Progress<C>>)

  datatype Action<C> =
    | Begin(op: nat, first: Progress<C>)
    | Advance(op: nat, success: bool)  // `success` is the outside world's answer, if the step asks for one
    | Edit(disk: Option<C>)

  function Init<C>(config: C): System<C> {
    System(Some(Runtime(0, config)), 1, Some(config), config, config, false, None, map[])
  }

  /** What a step does to the shared state, and where it leaves the operation. */
  datatype Move<C> = Move(shared: System<C>, next: Progress<C>)

  function MoveSave<C(==)>(s: System<C>, p: Progress<C>, success: bool): Move<C>
    requires p.SaveBegun? || p.SaveChecked? || p.SaveWritten?
  {
    match p
    case SaveBegun(config) =>
      if !success then Move(s, Done(false))
      else Move(s, SaveChecked(config, s.slot.Some? && s.slot.value.config == config))
    case SaveChecked(config, matches) =>
      if !success then Move(s, Done(false))
      else Move(s.(disk := Some(config)), SaveWritten(config, matches))
    case SaveWritten(config, matches) =>
      Move(s.(saved := config, pendingReload := !matches, lastReloadError := None), Done(true))
  }

  function MoveOwner<C>(s: System<C>, p: Progress<C>, success: bool): Move<C> {
    match p
    case ReloadBegun =>
      if s.slot.None? then Move(s, Done(false)) else Move(s.(slot := None), ReloadTook(s.slot.value))
    case ReloadTook(runtime) =>
      if s.disk.None? || !success then Move(s, Done(false)) else Move(s, ReloadLoaded(runtime, s.disk.value))
    case ReloadLoaded(runtime, config) => Move(s, ReloadStopped(runtime.config, config))
    case ReloadStopped(previous, config) =>
      if success then Move(s, ReloadReleased(previous, config)) else Move(s, Done(false))
    case ReloadReleased(previous, config) =>
      if success then Move(s.(nextId := s.nextId + 1), ReloadStarted(Runtime(s.nextId, config)))
      else Move(s, ReloadNotStarted(previous))
    case ReloadStarted(runtime) => Move(s.(slot := Some(runtime)), ReloadInstalled(runtime.config))
    case ReloadInstalled(config) =>
      if s.slot.None? then Move(s, Done(false)) else Move(s, ReloadRead(config, s.slot.value.config))
    case ReloadRead(config, described) =>
      Move(s.(saved := config, described := described, pendingReload := false, lastReloadError := None), Done(true))
    case ReloadNotStarted(previous) =>
      if success then Move(s.(nextId := s.nextId + 1), ReloadRestarted(Runtime(s.nextId, previous)))
      else Move(s, ReloadLost)
    case ReloadRestarted(runtime) => Move(s.(slot := Some(runtime)), ReloadPutBack)
    case ReloadPutBack => Move(s.(lastReloadError := Some(Serial.StartFailed), pendingReload := true), Done(false))
    case ReloadLost => Move(s.(lastReloadError := Some(Serial.StartAndFallbackFailed)), Done(false))
    case ShutdownBegun =>
      if s.slot.None? then Move(s, Done(false)) else Move(s.(slot := None), ShutdownTook(s.slot.value))
    case ShutdownTook(_) => Move(s, Done(success))
    case _ => Move(s, p)
  }

  function MoveOp<C(==)>(s: System<C>, p: Progress<C>, success: bool): Move<C> {
    if p.SaveBegun? || p.SaveChecked? || p.SaveWritten? then MoveSave(s, p, success) else MoveOwner(s, p, success)
  }

  function At<C>(s: System<C>, op: nat, p: Progress<C>): System<C> { s.(ops := s.ops[op := p]) }

  function AdvanceOp<C(==)>(s: System<C>, op: nat, success: bool): System<C>
    requires op in s.ops
  {
    var move := MoveOp(s, s.ops[op], success);
    At(move.shared, op, move.next)
  }

  function Step<C(==)>(s: System<C>, a: Action<C>): System<C> {
    match a
    case Begin(op, first) =>
      if op !in s.ops && (first.SaveBegun? || first.ReloadBegun? || first.ShutdownBegun?) then At(s, op, first) else s
    case Advance(op, success) => if op in s.ops then AdvanceOp(s, op, success) else s
    case Edit(disk) => s.(disk := disk)
  }

  function Run<C(==)>(s: System<C>, actions: seq<Action<C>>): System<C>
    decreases |actions|
  {
    if actions == [] then s else Run(Step(s, actions[0]), actions[1..])
  }

  // ---------------------------------------------------------------- at most one runtime

  /** The operation owns a runtime right now. */
  predicate Owns<C>(p: Progress<C>) {
    p.ReloadTook? || p.ReloadLoaded? || p.ReloadStarted? || p.ReloadRestarted? || p.ShutdownTook?
  }

  /** The operation owns one, or has consumed one and may start its successor. */
  predicate MayOwn<C>(p: Progress<C>) {
    Owns(p) || p.ReloadStopped? || p.ReloadReleased? || p.ReloadNotStarted?
  }

  /** One licence to run a proxy: in the slot, or with one operation, or gone. */
  ghost predicate OneLicence<C>(s: System<C>) {
    && (forall i, j | i in s.ops && j in s.ops && MayOwn(s.ops[i]) && MayOwn(s.ops[j]) :: i == j)
    && (s.slot.Some? ==> forall i | i in s.ops :: !MayOwn(s.ops[i]))
  }

  /** A step may take the licence from the slot, give it back to the slot, keep it or let it go. */
  lemma MovesLicence<C>(s: System<C>, p: Progress<C>, success: bool)
    requires s.slot.Some? ==> !MayOwn(p)
    ensures var m := MoveOp(s, p, success);
      && m.shared.ops == s.ops
      && !(MayOwn(m.next) && m.shared.slot.Some?)
      && (MayOwn(m.next) || m.shared.slot.Some? ==> s.slot.Some? || MayOwn(p))
  {
  }

  lemma StepKeepsLicence<C>(s: System<C>, a: Action<C>)
    requires OneLicence(s)
    ensures OneLicence(Step(s, a))
  {
    if a.Advance? && a.op in s.ops {
      MovesLicence(s, s.ops[a.op], a.success);
    }
  }

  lemma {:induction false} RunKeepsLicence<C>(s: System<C>, actions: seq<Action<C>>)
    requires OneLicence(s)
    ensures OneLicence(Run(s, actions))
    decreases |actions|
  {
    if actions != [] {
      StepKeepsLicence(s, actions[0]);
      RunKeepsLicence(Step(s, actions[0]), actions[1..]);
    }
  }

  /** The ids of all runtimes that exist: in the slot or owned by an operation. */
  ghost function Living<C>(s: System<C>): set<nat> {
    (if s.slot.Some? then {s.slot.value.id} else {}) + set op | op in s.ops && Owns(s.ops[op]) :: s.ops[op].runtime.id
  }

  lemma LivingAtMostOne<C>(s: System<C>)
    requires OneLicence(s)
    ensures |Living(s)| <= 1
  {
    if s.slot.Some? {
      assert Living(s) == {s.slot.value.id};
    } else if i :| i in s.ops && Owns(s.ops[i]) {
      assert Living(s) == {s.ops[i].runtime.id};
    } else {
      assert Living(s) == {};
    }
  }

  /** In every interleaving of saves, reloads and shutdowns at most one runtime exists, a new one is started only
      when none does, and putting one into the slot never overwrites another. */
  lemma SingleOwner<C>(config: C, actions: seq<Action<C>>, a: Action<C>)
    ensures var s := Run(Init(config), actions);
      && |Living(s)| <= 1
      && (Step(s, a).nextId != s.nextId ==> Living(s) == {})
      && (forall op | op in s.ops && (s.ops[op].ReloadStarted? || s.ops[op].ReloadRestarted?) :: s.slot.None?)
  {
    RunKeepsLicence(Init(config), actions);
    var s := Run(Init(config), actions);
    LivingAtMostOne(s);
    if Step(s, a).nextId != s.nextId {
      assert a.Advance? && a.op in s.ops && MayOwn(s.ops[a.op]) && !Owns(s.ops[a.op]);
      assert Living(s) == {};
    }
  }

  /** Once the licence is gone, no interleaving of later operations runs a proxy again. */
  ghost predicate NoLicence<C>(s: System<C>) {
    s.slot.None? && forall i | i in s.ops :: !MayOwn(s.ops[i])
  }

  lemma StepStaysDown<C>(s: System<C>, a: Action<C>)
    requires NoLicence(s)
    ensures NoLicence(Step(s, a)) && Step(s, a).nextId == s.nextId
  {
  }

  lemma {:induction false} StaysDown<C>(s: System<C>, actions: seq<Action<C>>)
    requires NoLicence(s)
    ensures NoLicence(Run(s, actions)) && Run(s, actions).nextId == s.nextId
    decreases |actions|
  {
    if actions != [] {
      StepStaysDown(s, actions[0]);
      StaysDown(Step(s, actions[0]), actions[1..]);
    }
  }

  // ---------------------------------------------------------------- only valid configurations are stored

  /** The save has asked whether its configuration is valid. */
  predicate PastValidation<C>(p: Progress<C>) { p.SaveChecked? || p.SaveWritten? }

  /** At step k of the run, the configuration of save `op` was answered valid. */
  ghost predicate ValidatedAt<C>(s: System<C>, actions: seq<Action<C>>, k: nat, op: nat, config: C) {
    && k < |actions| && actions[k] == Advance(op, true)
    && op in Run(s, actions[..k]).ops && Run(s, actions[..k]).ops[op] == SaveBegun(config)
  }

  lemma ValidatedLater<C>(s: System<C>, actions: seq<Action<C>>, k: nat, op: nat, config: C)
    requires actions != [] && ValidatedAt(Step(s, actions[0]), actions[1..], k, op, config)
    ensures ValidatedAt(s, actions, k + 1, op, config)
  {
    assert actions[..k + 1][0] == actions[0] && actions[..k + 1][1..] == actions[1..][..k];
  }

  lemma ValidatedNow<C>(s: System<C>, actions: seq<Action<C>>, op: nat, config: C)
    requires actions != [] && actions[0] == Advance(op, true) && op in s.ops && s.ops[op] == SaveBegun(config)
    ensures ValidatedAt(s, actions, 0, op, config)
  {
    assert actions[..0] == [];
  }

  lemma OnlyByValidation<C>(s: System<C>, a: Action<C>, op: nat)
    requires op in s.ops ==> !PastValidation(s.ops[op])
    requires op in Step(s, a).ops && PastValidation(Step(s, a).ops[op])
    ensures a == Advance(op, true) && op in s.ops && s.ops[op] == SaveBegun(Step(s, a).ops[op].config)
  {
  }

  lemma {:induction false} ValidatedFrom<C>(s: System<C>, actions: seq<Action<C>>, op: nat) returns (k: nat)
    requires op in s.ops ==> !PastValidation(s.ops[op])
    requires op in Run(s, actions).ops && PastValidation(Run(s, actions).ops[op])
    ensures ValidatedAt(s, actions, k, op, Run(s, actions).ops[op].config)
    decreases |actions|
  {
    var t := Step(s, actions[0]);
    if op in t.ops && PastValidation(t.ops[op]) {
      OnlyByValidation(s, actions[0], op);
      ConfigStays(t, actions[1..], op);
      ValidatedNow(s, actions, op, t.ops[op].config);
      k := 0;
    } else {
      var j := ValidatedFrom(t, actions[1..], op);
      ValidatedLater(s, actions, j, op, Run(s, actions).ops[op].config);
      k := j + 1;
    }
  }

  lemma {:induction false} ConfigStays<C>(s: System<C>, actions: seq<Action<C>>, op: nat)
    requires op in s.ops && PastValidation(s.ops[op])
    requires op in Run(s, actions).ops && PastValidation(Run(s, actions).ops[op])
    ensures Run(s, actions).ops[op].config == s.ops[op].config
    decreases |actions|
  {
    if actions != [] {
      var t := Step(s, actions[0]);
      if op in t.ops && PastValidation(t.ops[op]) {
        ConfigStays(t, actions[1..], op);
      } else {
        DoneStays(t, actions[1..], op);
      }
    }
  }

  lemma {:induction false} DoneStays<C>(s: System<C>, actions: seq<Action<C>>, op: nat)
    requires op in s.ops && s.ops[op].Done?
    ensures op in Run(s, actions).ops && Run(s, actions).ops[op] == s.ops[op]
    decreases |actions|
  {
    if actions != [] { DoneStays(Step(s, actions[0]), actions[1..], op); }
  }

  /** In every interleaving, the file changes only by somebody else's edit or by a save whose configuration was answered
      valid before; and what is published as saved is such a configuration, or the one a reload has read. */
  lemma OnlyValidStored<C>(config: C, actions: seq<Action<C>>, a: Action<C>) returns (k: nat)
    ensures var s := Run(Init(config), actions);
      var t := Step(s, a);
      && (t.disk != s.disk && !a.Edit? ==>
            && a.Advance? && a.op in s.ops && s.ops[a.op].SaveChecked? && t.disk == Some(s.ops[a.op].config)
            && ValidatedAt(Init(config), actions, k, a.op, s.ops[a.op].config))
      && (t.saved != s.saved ==>
            && a.Advance? && a.op in s.ops
            && (s.ops[a.op].ReloadRead? || ValidatedAt(Init(config), actions, k, a.op, t.saved)))
  {
    var s := Run(Init(config), actions);
    k := 0;
    if a.Advance? && a.op in s.ops && PastValidation(s.ops[a.op]) {
      k := ValidatedFrom(Init(config), actions, a.op);
    }
  }

  // ---------------------------------------------------------------- operations that run alone are atomic

  function Abstract<C>(s: System<C>): Serial.State<C> {
    Serial.State(s.disk, if s.slot.Some? then Some(s.slot.value.config) else None,
                 s.saved, s.described, s.pendingReload, s.lastReloadError)
  }

  function Next<C(==)>(m: Move<C>, success: bool): Move<C> { MoveOp(m.shared, m.next, success) }

  /** An operation takes its steps and nothing else happens. */
  function Alone<C(==)>(m: Move<C>, answers: seq<bool>): Move<C>
    decreases |answers|
  {
    if answers == [] then m else Alone(Next(m, answers[0]), answers[1..])
  }

  function Advances<C>(op: nat, answers: seq<bool>): seq<Action<C>> {
    if answers == [] then [] else [Advance(op, answers[0])] + Advances(op, answers[1..])
  }

  ghost predicate SameShared<C>(s: System<C>, t: System<C>) { s.(ops := map[]) == t.(ops := map[]) }

  lemma {:induction false} RunAlone<C>(s: System<C>, m: Move<C>, op: nat, answers: seq<bool>)
    requires op in s.ops && s.ops[op] == m.next && SameShared(s, m.shared)
    ensures var t := Run(s, Advances(op, answers));
      op in t.ops && t.ops[op] == Alone(m, answers).next && SameShared(t, Alone(m, answers).shared)
    decreases |answers|
  {
    if answers != [] {
      var acts := Advances<C>(op, answers);
      assert acts[0] == Advance(op, answers[0]) && acts[1..] == Advances(op, answers[1..]);
      RunAlone(Step(s, acts[0]), Next(m, answers[0]), op, answers[1..]);
    }
  }

  lemma AloneCons<C>(m: Move<C>, a: bool, rest: seq<bool>)
    ensures Alone(m, [a] + rest) == Alone(Next(m, a), rest)
  {
    assert ([a] + rest)[1..] == rest;
  }

  lemma {:induction false} AloneDone<C>(m: Move<C>, answers: seq<bool>)
    requires m.next.Done?
    ensures Alone(m, answers) == m
    decreases |answers|
  {
    if answers != [] { AloneDone(m, answers[1..]); }
  }

  /** The answers a reload gets in order: take, load, stop, release, start, restart, install, publish. */
  function StartAnswers(w: Serial.World): seq<bool> { [w.startsNew] + ([w.startsOld] + ([true] + ([true] + []))) }

  function ReloadAnswers(w: Serial.World): seq<bool> {
    [true] + ([w.valid] + ([w.stops] + ([w.released] + StartAnswers(w))))
  }

  lemma StartAlone<C>(s: System<C>, previous: C, config: C, w: Serial.World)
    requires s.slot.None?
    ensures var m := Alone(Move(s, ReloadReleased(previous, config)), StartAnswers(w));
      var started := s.(slot := Some(Runtime(s.nextId, config)), nextId := s.nextId + 1,
                        saved := config, described := config, pendingReload := false, lastReloadError := None);
      var restarted := s.(slot := Some(Runtime(s.nextId, previous)), nextId := s.nextId + 1,
                          lastReloadError := Some(Serial.StartFailed), pendingReload := true);
      var lost := s.(lastReloadError := Some(Serial.StartAndFallbackFailed));
      m == if w.startsNew then Move(started, Done(true))
           else if w.startsOld then Move(restarted, Done(false))
           else Move(lost, Done(false))
  {
    var m0 := Move(s, ReloadReleased(previous, config));
    var m1 := Next(m0, w.startsNew);
    var m2 := Next(m1, w.startsOld);
    var m3 := Next(m2, true);
    AloneCons(m0, w.startsNew, [w.startsOld] + ([true] + ([true] + [])));
    AloneCons(m1, w.startsOld, [true] + ([true] + []));
    AloneCons(m2, true, [true] + []);
    AloneCons(m3, true, []);
  }

  lemma PrepareAlone<C>(s: System<C>, w: Serial.World)
    requires s.slot.Some? && s.disk.Some? && w.valid && w.released
    ensures Alone(Move(s, ReloadBegun), ReloadAnswers(w))
         == Alone(Move(s.(slot := None), ReloadReleased(s.slot.value.config, s.disk.value)), StartAnswers(w))
  {
    var taken := s.(slot := None);
    AloneCons(Move(s, ReloadBegun), true, [w.valid] + ([w.stops] + ([w.released] + StartAnswers(w))));
    AloneCons(Move(taken, ReloadTook(s.slot.value)), w.valid, [w.stops] + ([w.released] + StartAnswers(w)));
    AloneCons(Move(taken, ReloadLoaded(s.slot.value, s.disk.value)), w.stops, [w.released] + StartAnswers(w));
    AloneCons(Move(taken, ReloadStopped(s.slot.value.config, s.disk.value)), w.released, StartAnswers(w));
  }

  lemma GiveUpAlone<C>(s: System<C>, w: Serial.World)
    requires s.slot.None? || s.disk.None? || !w.valid || !w.released
    ensures Alone(Move(s, ReloadBegun), ReloadAnswers(w)) == Move(s.(slot := None), Done(false))
  {
    var m0 := Move(s, ReloadBegun);
    var r1 := [w.valid] + ([w.stops] + ([w.released] + StartAnswers(w)));
    var r2 := [w.stops] + ([w.released] + StartAnswers(w));
    var r3 := [w.released] + StartAnswers(w);
    AloneCons(m0, true, r1);
    if s.slot.None? { AloneDone(Next(m0, true), r1); return; }
    var m1 := Move(s.(slot := None), ReloadTook(s.slot.value));
    AloneCons(m1, w.valid, r2);
    if s.disk.None? || !w.valid { AloneDone(Next(m1, w.valid), r2); return; }
    var m2 := Move(s.(slot := None), ReloadLoaded(s.slot.value, s.disk.value));
    AloneCons(m2, w.stops, r3);
    var m3 := Next(m2, w.stops);
    AloneCons(m3, w.released, StartAnswers(w));
    AloneDone(Next(m3, w.released), StartAnswers(w));
  }

  /** A reload that nothing interrupts does what the serial reload does. */
  lemma ReloadAlone<C>(s: System<C>, op: nat, w: Serial.World)
    requires op in s.ops && s.ops[op] == ReloadBegun
    ensures var t := Run(s, Advances(op, ReloadAnswers(w)));
      var o := Serial.ReloadRuntime(Abstract(s), w);
      Abstract(t) == o.state && op in t.ops && t.ops[op] == Done(o.result.Ok?)
  {
    RunAlone(s, Move(s, ReloadBegun), op, ReloadAnswers(w));
    if s.slot.Some? && s.disk.Some? && w.valid && w.released {
      PrepareAlone(s, w);
      StartAlone(s.(slot := None), s.slot.value.config, s.disk.value, w);
    } else {
      GiveUpAlone(s, w);
    }
  }

  /** So does a save; a failed write leaves the file as it was. */
  lemma SaveAlone<C>(s: System<C>, op: nat, config: C, valid: bool, written: bool)
    requires op in s.ops && s.ops[op] == SaveBegun(config)
    ensures var t := Run(s, Advances(op, [valid] + ([written] + ([true] + []))));
      var write := if written then Serial.Written else Serial.Damaged(s.disk);
      var o := Serial.StoreConfig(Abstract(s), config, valid, write);
      Abstract(t) == o.state && op in t.ops && t.ops[op] == Done(o.result.Ok?)
  {
    var m0 := Move(s, SaveBegun(config));
    RunAlone(s, m0, op, [valid] + ([written] + ([true] + [])));
    AloneCons(m0, valid, [written] + ([true] + []));
    AloneCons(Next(m0, valid), written, [true] + []);
    AloneCons(Next(Next(m0, valid), written), true, []);
  }

  /** And a shutdown. */
  lemma ShutdownAlone<C>(s: System<C>, op: nat, stops: bool)
    requires op in s.ops && s.ops[op] == ShutdownBegun
    ensures var t := Run(s, Advances(op, [true] + ([stops] + [])));
      var o := Serial.ShutdownRuntime(Abstract(s), stops);
      Abstract(t) == o.state && op in t.ops && t.ops[op] == Done(o.result.Ok?)
  {
    var m0 := Move(s, ShutdownBegun);
    RunAlone(s, m0, op, [true] + ([stops] + []));
    AloneCons(m0, true, [stops] + []);
    AloneCons(Next(m0, true), stops, []);
  }

  // ---------------------------------------------------------------- schedules without overlap are serial runs

  /** The steps of one operation, under a number of its own. A write that fails may leave anything in the file. */
  function Steps<C>(op: nat, call: Serial.Op<C>): seq<Action<C>> {
    match call
    case Save(config, valid, write) =>
      [Begin(op, SaveBegun(config))] + Advances(op, [valid] + ([write.Written?] + ([true] + [])))
      + if valid && write.Damaged? then [Edit(write.left)] else []
    case Reload(world) => [Begin(op, ReloadBegun)] + Advances(op, ReloadAnswers(world))
    case Shutdown(stops) => [Begin(op, ShutdownBegun)] + Advances(op, [true] + ([stops] + []))
    case Edit(disk) => [Edit(disk)]
  }

  /** One operation after the other. */
  function Schedule<C>(op: nat, calls: seq<Serial.Op<C>>): seq<Action<C>>
    decreases |calls|
  {
    if calls == [] then [] else Steps(op, calls[0]) + Schedule(op + 1, calls[1..])
  }

  lemma RunBegin<C>(s: System<C>, op: nat, first: Progress<C>, answers: seq<bool>)
    requires op !in s.ops && (first.SaveBegun? || first.ReloadBegun? || first.ShutdownBegun?)
    ensures Run(s, [Begin(op, first)] + Advances(op, answers)) == Run(At(s, op, first), Advances(op, answers))
    ensures var t := Run(s, [Begin(op, first)] + Advances(op, answers)); t.ops.Keys == s.ops.Keys + {op}
  {
    var acts := [Begin(op, first)] + Advances<C>(op, answers);
    assert acts[0] == Begin(op, first) && acts[1..] == Advances(op, answers);
    OthersUntouched(At(s, op, first), op, answers);
  }

  lemma RunLast<C>(s: System<C>, acts: seq<Action<C>>, a: Action<C>)
    ensures Run(s, acts + [a]) == Step(Run(s, acts), a)
  {
    RunConcat(s, acts, [a]);
    assert [a][1..] == [];
  }

  lemma StepsAreSave<C>(s: System<C>, op: nat, config: C, valid: bool, write: Serial.Write<C>)
    requires op !in s.ops
    ensures var t := Run(s, Steps(op, Serial.Save(config, valid, write)));
      Abstract(t) == Serial.StoreConfig(Abstract(s), config, valid, write).state && t.ops.Keys == s.ops.Keys + {op}
  {
    var answers := [valid] + ([write.Written?] + ([true] + []));
    var acts := [Begin(op, SaveBegun(config))] + Advances(op, answers);
    RunBegin(s, op, SaveBegun(config), answers);
    SaveAlone(At(s, op, SaveBegun(config)), op, config, valid, write.Written?);
    if valid && write.Damaged? {
      RunLast(s, acts, Edit(write.left));
    } else {
      assert acts + [] == acts;
    }
  }

  lemma StepsAreCall<C>(s: System<C>, op: nat, call: Serial.Op<C>)
    requires op !in s.ops
    ensures var t := Run(s, Steps(op, call));
      Abstract(t) == Serial.Step(Abstract(s), call).state && t.ops.Keys <= s.ops.Keys + {op}
  {
    match call
    case Save(config, valid, write) => StepsAreSave(s, op, config, valid, write);
    case Reload(world) =>
      RunBegin(s, op, ReloadBegun, ReloadAnswers(world));
      ReloadAlone(At(s, op, ReloadBegun), op, world);
    case Shutdown(stops) =>
      RunBegin(s, op, ShutdownBegun, [true] + ([stops] + []));
      ShutdownAlone(At(s, op, ShutdownBegun), op, stops);
    case Edit(disk) =>
      RunLast(s, [], Edit(disk));
      assert [] + [Edit(disk)] == [Edit(disk)];
  }

  /** A schedule in which no two operations overlap is the serial run of its operations. */
  lemma {:induction false} SerialSchedule<C>(s: System<C>, op: nat, calls: seq<Serial.Op<C>>)
    requires forall i | i in s.ops :: i < op
    ensures Abstract(Run(s, Schedule(op, calls))) == Serial.Run(Abstract(s), calls)
    decreases |calls|
  {
    if calls != [] {
      StepsAreCall(s, op, calls[0]);
      RunConcat(s, Steps(op, calls[0]), Schedule(op + 1, calls[1..]));
      var t := Run(s, Steps(op, calls[0]));
      forall i | i in t.ops ensures i < op + 1 { assert i in s.ops.Keys + {op}; }
      SerialSchedule(t, op + 1, calls[1..]);
    }
  }

  /** So every theorem about serial runs holds of the schedules without overlap. */
  lemma SerialScheduleTruthful<C>(config: C, calls: seq<Serial.Op<C>>)
    ensures Serial.Truthful(Abstract(Run(Init(config), Schedule(0, calls))))
  {
    SerialSchedule(Init(config), 0, calls);
    Serial.SnapshotTruthful(Serial.Started(config), calls);
  }

  lemma {:induction false} OthersUntouched<C>(s: System<C>, op: nat, answers: seq<bool>)
    requires op in s.ops
    ensures var t := Run(s, Advances(op, answers)); op in t.ops && t.ops == s.ops[op := t.ops[op]]
    decreases |answers|
  {
    if answers != [] {
      var acts := Advances<C>(op, answers);
      assert acts[0] == Advance(op, answers[0]) && acts[1..] == Advances(op, answers[1..]);
      MovesLicenceOps(s, op, answers[0]);
      OthersUntouched(Step(s, acts[0]), op, answers[1..]);
    }
  }

  lemma MovesLicenceOps<C>(s: System<C>, op: nat, success: bool)
    requires op in s.ops
    ensures var t := AdvanceOp(s, op, success); op in t.ops && t.ops == s.ops[op := t.ops[op]]
  {
  }

  lemma {:induction false} RunConcat<C>(s: System<C>, a: seq<Action<C>>, b: seq<Action<C>>)
    ensures Run(s, a + b) == Run(Run(s, a), b)
    decreases |a|
  {
    if a == [] {
      assert a + b == b;
    } else {
      assert (a + b)[0] == a[0] && (a + b)[1..] == a[1..] + b;
      RunConcat(Step(s, a[0]), a[1..], b);
    }
  }
}
