/** The runtime manager (src/runtime_manager.rs) when its operations run one after another. */
module Manager {
  import opened Common

  /** `C` is the configuration; `disk` is None while the file is missing or does not parse. `described` is the
      configuration the published runtime summary was made from. */
  datatype State<C> = State(
    disk: Option<C>, active: Option<C>,
    saved: C, described: C, pendingReload: bool, lastReloadError: Option<ReloadError>)

  datatype ReloadError = StartFailed | StartAndFallbackFailed

  datatype Failure =
    | Invalid | NotWritten | NoRuntime | Unreadable | ListenerBusy | NotStarted(error: ReloadError) | StopFailed

  /** How the outside world answers a reload. An unclean stop of the previous runtime is only logged. */
  datatype World = World(valid: bool, stops: bool, released: bool, startsNew: bool, startsOld: bool)

  datatype Write<C> = Written | Damaged(left: Option<C>)

  datatype Op<C> =
    | Save(config: C, valid: bool, write: Write<C>)
    | Reload(world: World)
    | Shutdown(stops: bool)
    | Edit(disk: Option<C>)  // somebody else changes the file

  /** `RuntimeManager::start`, when it succeeds. */
  function Started<C>(config: C): State<C> { State(Some(config), Some(config), config, config, false, None) }

  datatype Outcome<C> = Outcome(state: State<C>, result: Result<(), Failure>)

  function StoreConfig<C(==)>(s: State<C>, config: C, valid: bool, write: Write<C>): Outcome<C> {
    if !valid then Outcome(s, Err(Invalid))
    else match write
      case Damaged(left) => Outcome(s.(disk := left), Err(NotWritten))
      case Written =>
        Outcome(s.(disk := Some(config), saved := config, pendingReload := s.active != Some(config),
                   lastReloadError := None), Ok(()))
  }

  /** The runtime is taken first; every early return after that leaves none. */
  function ReloadRuntime<C>(s: State<C>, world: World): Outcome<C> {
    if s.active.None? then Outcome(s, Err(NoRuntime))
    else
      var taken := s.(active := None);
      if s.disk.None? then Outcome(taken, Err(Unreadable))
      else if !world.valid then Outcome(taken, Err(Invalid))
      else if !world.released then Outcome(taken, Err(ListenerBusy))
      else if world.startsNew then
        Outcome(s.(active := s.disk, saved := s.disk.value, described := s.disk.value,
                   pendingReload := false, lastReloadError := None), Ok(()))
      else if world.startsOld then
        Outcome(s.(pendingReload := true, lastReloadError := Some(StartFailed)), Err(NotStarted(StartFailed)))
      else Outcome(taken.(lastReloadError := Some(StartAndFallbackFailed)), Err(NotStarted(StartAndFallbackFailed)))
  }

  function ShutdownRuntime<C>(s: State<C>, stops: bool): Outcome<C> {
    if s.active.None? then Outcome(s, Err(NoRuntime))
    else Outcome(s.(active := None), if stops then Ok(()) else Err(StopFailed))
  }

  function Step<C(==)>(s: State<C>, op: Op<C>): Outcome<C> {
    match op
    case Save(config, valid, write) => StoreConfig(s, config, valid, write)
    case Reload(world) => ReloadRuntime(s, world)
    case Shutdown(stops) => ShutdownRuntime(s, stops)
    case Edit(disk) => Outcome(s.(disk := disk), Ok(()))
  }

  function Run<C(==)>(s: State<C>, ops: seq<Op<C>>): State<C>
    decreases |ops|
  {
    if ops == [] then s else Run(Step(s, ops[0]).state, ops[1..])
  }

  // ---------------------------------------------------------------- the snapshot tells the truth

  /** While a runtime is active: the summary describes it, and a reload is pending exactly if the saved configuration
      is not the active one or a failed reload has been recorded since it was saved. */
  ghost predicate Truthful<C>(s: State<C>) {
    s.active.Some? ==>
      && s.described == s.active.value
      && (s.pendingReload <==> s.saved != s.active.value || s.lastReloadError.Some?)
  }

  /** Nobody edits the file and a failed write leaves it as it was. */
  ghost predicate Undisturbed<C>(s: State<C>, ops: seq<Op<C>>)
    decreases |ops|
  {
    ops != [] ==>
      && !ops[0].Edit?
      && (ops[0].Save? && ops[0].write.Damaged? ==> ops[0].write.left == s.disk)
      && Undisturbed(Step(s, ops[0]).state, ops[1..])
  }

  lemma {:induction false} SnapshotTruthful<C>(s: State<C>, ops: seq<Op<C>>)
    requires Truthful(s)
    ensures Truthful(Run(s, ops))
    ensures s.disk == Some(s.saved) && Undisturbed(s, ops) ==> Run(s, ops).disk == Some(Run(s, ops).saved)
    decreases |ops|
  {
    if ops != [] { SnapshotTruthful(Step(s, ops[0]).state, ops[1..]); }
  }

  /** In every serial run from a successful start. */
  lemma EverySerialRun<C>(config: C, ops: seq<Op<C>>)
    ensures var s := Run(Started(config), ops);
      && (s.active.Some? ==> s.described == s.active.value)
      && (s.active.Some? ==> (s.pendingReload <==> s.saved != s.active.value || s.lastReloadError.Some?))
      && (Undisturbed(Started(config), ops) ==> s.disk == Some(s.saved))
  {
    SnapshotTruthful(Started(config), ops);
  }

  /** A reload may stay pending although there is nothing to reload: one that cannot start the configuration it read
      and falls back leaves it so, even if that configuration is the running one. */
  lemma PendingThoughEqual<C>(config: C, stops: bool)
    ensures var s := Run(Started(config), [Reload(World(true, stops, true, false, true))]);
      s.active == Some(config) && s.saved == config && s.disk == Some(config) && s.pendingReload
  {
    var ops: seq<Op<C>> := [Reload(World(true, stops, true, false, true))];
    assert ops[1..] == [];
  }

  // ---------------------------------------------------------------- what a reload can end in

  /** A reload leaves a runtime exactly if there was one, the file is readable and valid, the listener was released
      and one of the two starts worked. Ok: it runs the file's configuration. Err: it runs the previous one, and nothing
      else of what was published has changed except the note of the failure. */
  lemma ReloadOutcome<C>(s: State<C>, world: World)
    ensures var o := ReloadRuntime(s, world);
      var ready := s.active.Some? && s.disk.Some? && world.valid && world.released;
      && (o.state.active.Some? <==> ready && (world.startsNew || world.startsOld))
      && (o.result.Ok? <==> ready && world.startsNew)
      && (o.result.Ok? ==> o.state.active == s.disk && o.state.saved == s.disk.value && !o.state.pendingReload)
      && (o.result.Ok? ==> o.state.described == s.disk.value && o.state.lastReloadError.None?)
      && (o.result.Err? && o.state.active.Some? ==> o.state.active == s.active && o.state.pendingReload)
      && (o.result.Err? ==> o.state.saved == s.saved && o.state.described == s.described)
      && (o.result.Err? && !ready ==> o.state == s.(active := None))
      && o.state.disk == s.disk
  {
  }

  /** Why a reload failed: the first thing that was wrong, and a failed start is noted for the page. */
  lemma ReloadFailure<C>(s: State<C>, world: World)
    requires ReloadRuntime(s, world).result.Err?
    ensures var o := ReloadRuntime(s, world);
      && (s.active.None? ==> o.result == Err(NoRuntime))
      && (s.active.Some? && s.disk.None? ==> o.result == Err(Unreadable))
      && (s.active.Some? && s.disk.Some? && !world.valid ==> o.result == Err(Invalid))
      && (s.active.Some? && s.disk.Some? && world.valid && !world.released ==> o.result == Err(ListenerBusy))
      && (o.result.error.NotStarted? ==>
            && o.state.lastReloadError == Some(o.result.error.error)
            && (o.result.error.error == StartFailed <==> world.startsOld))
  {
  }

  /** A save succeeds exactly if the configuration is valid and could be written; then file and saved configuration are
      this one, the runtime is untouched, and a reload is pending iff it runs another. An invalid configuration changes
      nothing; a failed write can damage the file and nothing else. */
  lemma SaveOutcome<C>(s: State<C>, config: C, valid: bool, write: Write<C>)
    ensures var o := StoreConfig(s, config, valid, write);
      && (o.result.Ok? <==> valid && write.Written?)
      && (o.result.Ok? ==>
            && o.state.disk == Some(config) && o.state.saved == config && o.state.lastReloadError.None?
            && o.state.active == s.active && o.state.described == s.described
            && (o.state.pendingReload <==> s.active != Some(config)))
      && (!valid ==> o.state == s && o.result == Err(Invalid))
      && (valid && write.Damaged? ==> o.state == s.(disk := write.left) && o.result == Err(NotWritten))
  {
  }

  /** A shutdown takes the runtime, whether it stops cleanly or not, and changes nothing else. */
  lemma ShutdownOutcome<C>(s: State<C>, stops: bool)
    ensures var o := ShutdownRuntime(s, stops);
      && o.state == s.(active := None)
      && (o.result.Ok? <==> s.active.Some? && stops)
      && (s.active.Some? && !stops ==> o.result == Err(StopFailed))
  {
  }

  /** Without a runtime the manager stays without one: no later operation brings one back. */
  lemma {:induction false} NoRuntimeIsForever<C>(s: State<C>, ops: seq<Op<C>>)
    requires s.active.None?
    ensures Run(s, ops).active.None?
    ensures forall world :: ReloadRuntime(Run(s, ops), world).result == Err(NoRuntime)
    ensures forall stops :: ShutdownRuntime(Run(s, ops), stops).result == Err(NoRuntime)
    decreases |ops|
  {
    if ops != [] { NoRuntimeIsForever(Step(s, ops[0]).state, ops[1..]); }
  }

  /** A reload of an unreadable file does not fail softly: the running proxy is gone for good. */
  lemma UnreadableFileStopsProxy<C>(config: C, world: World, later: seq<Op<C>>)
    ensures var s := Run(Started(config), [Edit(None), Reload(world)] + later);
      s.active.None?
  {
    var ops: seq<Op<C>> := [Edit(None), Reload(world)] + later;
    var edited := Started(config).(disk := None);
    assert ops[0] == Edit(None) && ops[1..][0] == Reload(world) && ops[1..][1..] == later;
    assert Run(Started(config), ops) == Run(edited, ops[1..]);
    NoRuntimeIsForever(ReloadRuntime(edited, world).state, later);
  }

  // ---------------------------------------------------------------- the manager object

  class RuntimeManager<C(==)> {
    var disk: Option<C>
    var active: Option<C>
    var saved: C
    var described: C
    var pendingReload: bool
    var lastReloadError: Option<ReloadError>

    ghost function View(): State<C>
      reads this
    {
      State(disk, active, saved, described, pendingReload, lastReloadError)
    }

    constructor (config: C)
      ensures View() == Started(config)
    {
      disk, active, saved, described := Some(config), Some(config), config, config;
      pendingReload, lastReloadError := false, None;
    }

    method SaveConfig(config: C, valid: bool, write: Write<C>) returns (r: Result<(), Failure>)
      modifies this
      ensures Outcome(View(), r) == StoreConfig(old(View()), config, valid, write)
    {
      if !valid {
        return Err(Invalid);
      }
      var activeMatches := active == Some(config);
      if write.Damaged? {
        disk := write.left;
        return Err(NotWritten);
      }
      disk := Some(config);
      saved, pendingReload, lastReloadError := config, !activeMatches, None;
      return Ok(());
    }

    method Reload(world: World) returns (r: Result<(), Failure>)
      modifies this
      ensures Outcome(View(), r) == ReloadRuntime(old(View()), world)
    {
      if active.None? {
        return Err(NoRuntime);
      }
      var previous := active.value;
      active := None;
      if disk.None? {
        return Err(Unreadable);
      }
      var config := disk.value;
      if !world.valid {
        return Err(Invalid);
      }
      if !world.released {
        return Err(ListenerBusy);
      }
      if world.startsNew {
        active := Some(config);
        saved, described, pendingReload, lastReloadError := config, config, false, None;
        return Ok(());
      }
      if world.startsOld {
        active := Some(previous);
        lastReloadError, pendingReload := Some(StartFailed), true;
        return Err(NotStarted(StartFailed));
      }
      lastReloadError := Some(StartAndFallbackFailed);
      return Err(NotStarted(StartAndFallbackFailed));
    }

    method Shutdown(stops: bool) returns (r: Result<(), Failure>)
      modifies this
      ensures Outcome(View(), r) == ShutdownRuntime(old(View()), stops)
    {
      if active.None? {
        return Err(NoRuntime);
      }
      active := None;
      return if stops then Ok(()) else Err(StopFailed);
    }
  }
}
