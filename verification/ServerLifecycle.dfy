/**
  One restartable local server (app/src-tauri/src/server_lifecycle.rs) and the procedure that restarts it
  (app/src-tauri/src/lib.rs), among concurrent restarts, server exits and shutdowns.

  Every method of the lifecycle runs under its mutex and is one step; a restart holds the operation lock from
  before it takes the old handle until its server is installed, discarded or has failed to start.
*/
module ServerLifecycle {
  import opened Common

  const BIND_RETRIES := 5

  datatype Handle = Handle(generation: nat, server: int)

  datatype Life = Life(generation: nat, handle: Option<Handle>, running: bool, lastError: Option<int>)

  // ------------------------------------------------------------------ the methods under the mutex

  function NextGeneration(generation: nat): nat { if generation < U64_MAX then generation + 1 else 1 }

  function RequestRestart(l: Life): Life { l.(generation := NextGeneration(l.generation), running := false, lastError := None) }

  function InstallHandle(l: Life, generation: nat, server: int): Life {
    if l.generation != generation then l
    else l.(handle := Some(Handle(generation, server)), running := true, lastError := None)
  }

  function TakeHandle(l: Life): Life { l.(handle := None, running := false) }

  function ServerFinished(l: Life, generation: nat, error: Option<int>): Life {
    var current := l.generation == generation;
    l.(handle := if l.handle.Some? && l.handle.value.generation == generation then None else l.handle,
       running := l.running && !current,
       lastError := if current && error.Some? then error else l.lastError)
  }

  function SetError(l: Life, generation: nat, error: int): Life {
    if l.generation == generation then l.(running := false, lastError := Some(error)) else l
  }

  function BeginShutdown(l: Life): Life {
    l.(generation := NextGeneration(l.generation), running := false, handle := None)
  }

  class LocalServerLifecycle {
    var generation: nat
    var handle: Option<Handle>
    var running: bool
    var lastError: Option<int>

    function View(): Life
      reads this
    {
      Life(generation, handle, running, lastError)
    }

    constructor ()
      ensures View() == Life(0, None, false, None)
    {
      generation, handle, running, lastError := 0, None, false, None;
    }

    method Request() returns (reserved: nat)
      modifies this
      ensures View() == RequestRestart(old(View())) && reserved == generation
    {
      generation := NextGeneration(generation);
      running, lastError := false, None;
      reserved := generation;
    }

    method Install(reserved: nat, server: int) returns (installed: bool)
      modifies this
      ensures View() == InstallHandle(old(View()), reserved, server)
      ensures installed <==> old(generation) == reserved
      ensures installed ==> handle == Some(Handle(generation, server)) && running
    {
      if generation != reserved { return false; }
      handle, running, lastError := Some(Handle(reserved, server)), true, None;
      installed := true;
    }

    method Collect() returns (server: Option<int>)
      modifies this
      ensures View() == TakeHandle(old(View()))
      ensures server == if old(handle).Some? then Some(old(handle).value.server) else None
    {
      server := if handle.Some? then Some(handle.value.server) else None;
      running, handle := false, None;
    }

    method Finished(reserved: nat, error: Option<int>)
      modifies this
      ensures View() == ServerFinished(old(View()), reserved, error)
      // only the server of this generation loses its handle, and only the current generation stops running
      ensures generation == old(generation)
      ensures handle == if old(handle).Some? && old(handle).value.generation == reserved then None else old(handle)
      ensures running <==> old(running) && old(generation) != reserved
      ensures lastError == if old(generation) == reserved && error.Some? then error else old(lastError)
    {
      if handle.Some? && handle.value.generation == reserved { handle := None; }
      if generation == reserved {
        running := false;
        if error.Some? { lastError := error; }
      }
    }

    method Fail(reserved: nat, error: int)
      modifies this
      ensures View() == SetError(old(View()), reserved, error)
    {
      if generation == reserved { running, lastError := false, Some(error); }
    }

    method Shutdown() returns (server: Option<int>)
      modifies this
      ensures View() == BeginShutdown(old(View()))
      ensures server == if old(handle).Some? then Some(old(handle).value.server) else None
    {
      generation, running := NextGeneration(generation), false;
      server := if handle.Some? then Some(handle.value.server) else None;
      handle := None;
    }
  }

  // ------------------------------------------------------------------ restarts, servers and shutdowns together

  /** Where a restart stands. */
  datatype Pc = Waiting | Locked | Taking | Stopping(server: int) | Rechecking | Starting | Built(server: int) | Discarding(server: int)

  datatype Restart = Restart(generation: nat, pc: Pc)

  /** Who answers for a server: its starter, the lifecycle, somebody stopping it; or it has exited and is still to say so. */
  datatype Phase = Fresh(starter: int) | Installed | Taken | Exited

  datatype Server = Server(generation: nat, phase: Phase)

  datatype State = State(life: Life, lock: Option<int>, restarts: map<int, Restart>, servers: map<int, Server>)

  datatype Step =
    | Request(p: int)
    | Acquire(p: int)
    | Check(p: int)
    | Take(p: int)
    | Stopped(p: int)
    | Recheck(p: int, enabled: bool)
    | Quit(p: int)
    | Build(p: int, server: int)
    | Fail(p: int, error: int)
    | Install(p: int)
    | Discard(p: int)
    | Exit(server: int)
    | Report(server: int, reason: Option<int>)
    | Shutdown

  predicate Stands(s: State, p: int, pc: Pc) { p in s.restarts && s.restarts[p].pc == pc }

  predicate BuiltBy(s: State, p: int) { p in s.restarts && (s.restarts[p].pc.Built? || s.restarts[p].pc.Discarding?) }

  predicate Enabled(s: State, step: Step) {
    match step
    case Request(p) => p !in s.restarts && s.life.generation < U64_MAX
    case Acquire(p) => Stands(s, p, Waiting) && s.lock.None?
    case Check(p) => Stands(s, p, Locked)
    case Take(p) => Stands(s, p, Taking)
    case Stopped(p) => p in s.restarts && s.restarts[p].pc.Stopping?
    case Recheck(p, _) => Stands(s, p, Rechecking)
    case Quit(p) => Stands(s, p, Starting) && s.life.generation != s.restarts[p].generation
    case Build(p, server) => Stands(s, p, Starting) && server !in s.servers
    case Fail(p, _) => Stands(s, p, Starting)
    case Install(p) => p in s.restarts && s.restarts[p].pc.Built?
    case Discard(p) => p in s.restarts && s.restarts[p].pc.Discarding?
    case Exit(server) => server in s.servers && s.servers[server].phase in {Installed, Taken}
    case Report(server, _) => server in s.servers && s.servers[server].phase == Exited
    case Shutdown => s.life.generation < U64_MAX
  }

  function At(s: State, p: int, pc: Pc): State
    requires p in s.restarts
  {
    s.(restarts := s.restarts[p := s.restarts[p].(pc := pc)])
  }

  /** The restart ends and drops the operation lock. */
  function Ended(s: State, p: int): State { s.(restarts := s.restarts - {p}, lock := None) }

  /** The collected handle's server now has somebody to stop it, unless it has exited on its own. */
  function Collected(servers: map<int, Server>, handle: Option<Handle>): map<int, Server> {
    if handle.Some? && handle.value.server in servers && servers[handle.value.server].phase == Installed
    then servers[handle.value.server := servers[handle.value.server].(phase := Taken)] else servers
  }

  function Apply(s: State, step: Step): State
    requires Enabled(s, step)
  {
    match step
    case Request(p) =>
      var life := RequestRestart(s.life);
      s.(life := life, restarts := s.restarts[p := Restart(life.generation, Waiting)])
    case Acquire(p) => At(s, p, Locked).(lock := Some(p))
    case Check(p) => if s.life.generation == s.restarts[p].generation then At(s, p, Taking) else Ended(s, p)
    case Take(p) =>
      At(s, p, if s.life.handle.Some? then Stopping(s.life.handle.value.server) else Rechecking)
        .(life := TakeHandle(s.life), servers := Collected(s.servers, s.life.handle))
    case Stopped(p) =>
      var server := s.restarts[p].pc.server;
      At(s, p, Rechecking).(servers := if server in s.servers then s.servers[server := s.servers[server].(phase := Exited)] else s.servers)
    case Recheck(p, enabled) => if s.life.generation == s.restarts[p].generation && enabled then At(s, p, Starting) else Ended(s, p)
    case Quit(p) => Ended(s, p)
    case Build(p, server) => At(s, p, Built(server)).(servers := s.servers[server := Server(s.restarts[p].generation, Fresh(p))])
    case Fail(p, error) => Ended(s, p).(life := SetError(s.life, s.restarts[p].generation, error))
    case Install(p) =>
      var r := s.restarts[p];
      if s.life.generation == r.generation then
        Ended(s, p).(life := InstallHandle(s.life, r.generation, r.pc.server), servers := s.servers[r.pc.server := Server(r.generation, Installed)])
      else At(s, p, Discarding(r.pc.server))
    case Discard(p) => Ended(s, p).(servers := s.servers - {s.restarts[p].pc.server})
    case Exit(server) => s.(servers := s.servers[server := s.servers[server].(phase := Exited)])
    case Report(server, error) => s.(life := ServerFinished(s.life, s.servers[server].generation, error), servers := s.servers - {server})
    case Shutdown => s.(life := BeginShutdown(s.life), servers := Collected(s.servers, s.life.handle))
  }

  // ------------------------------------------------------------------ the invariant

  /** Exactly the restart that holds the operation lock has moved past waiting for it. */
  predicate LockSound(s: State) {
    && (s.lock.Some? ==> s.lock.value in s.restarts)
    && forall p :: p in s.restarts ==> (s.restarts[p].pc != Waiting <==> s.lock == Some(p))
  }

  /** The installed handle is a known server's, and `running` means it is of the current generation. */
  predicate HandleSound(s: State) {
    && (s.life.handle.Some? ==>
          var h := s.life.handle.value;
          && h.server in s.servers && s.servers[h.server].generation == h.generation
          && (s.servers[h.server].phase == Installed || s.servers[h.server].phase == Exited))
    && (s.life.running ==> s.life.handle.Some? && s.life.handle.value.generation == s.life.generation)
  }

  /** Once the old handle has been taken, none is installed until the restart installs its own. */
  predicate NoHandleLeft(s: State) {
    forall p :: p in s.restarts && s.restarts[p].pc !in {Waiting, Locked, Taking} ==> s.life.handle.None?
  }

  /** Somebody answers for every server: its starter, or the lifecycle that holds its handle. */
  predicate Answered(s: State) {
    && (forall sv :: sv in s.servers && s.servers[sv].phase == Installed ==> s.life.handle == Some(Handle(s.servers[sv].generation, sv)))
    && (forall sv :: sv in s.servers && s.servers[sv].phase.Fresh? ==>
          var p := s.servers[sv].phase.starter;
          p in s.restarts && (s.restarts[p].pc == Built(sv) || s.restarts[p].pc == Discarding(sv)) && s.restarts[p].generation == s.servers[sv].generation)
    && forall p :: p in s.restarts && BuiltBy(s, p) ==> s.restarts[p].pc.server in s.servers && s.servers[s.restarts[p].pc.server].phase == Fresh(p)
  }

  /** Generations identify restarts and servers. */
  predicate GenerationsDistinct(s: State) {
    && (forall p :: p in s.restarts ==> s.restarts[p].generation <= s.life.generation)
    && (forall sv :: sv in s.servers ==> s.servers[sv].generation <= s.life.generation)
    && (forall p, q :: p in s.restarts && q in s.restarts && p != q ==> s.restarts[p].generation != s.restarts[q].generation)
    && (forall a, b :: a in s.servers && b in s.servers && a != b ==> s.servers[a].generation != s.servers[b].generation)
    && forall p, sv :: p in s.restarts && sv in s.servers && s.restarts[p].generation == s.servers[sv].generation ==> s.servers[sv].phase == Fresh(p)
  }

  ghost predicate Inv(s: State) {
    LockSound(s) && HandleSound(s) && NoHandleLeft(s) && Answered(s) && GenerationsDistinct(s)
  }

  // No step lets two restarts or two servers share a generation.

  lemma RestartGenerations(s: State, step: Step)
    requires Inv(s) && Enabled(s, step) && (step.Request? || step.Acquire? || step.Check? || step.Take? || step.Recheck? || step.Shutdown?)
    ensures GenerationsDistinct(Apply(s, step))
  {
    hide LockSound, HandleSound, NoHandleLeft;
  }

  lemma ServerGenerations(s: State, step: Step)
    requires Inv(s) && Enabled(s, step) && (step.Stopped? || step.Build? || step.Quit?)
    ensures GenerationsDistinct(Apply(s, step))
  {
    hide HandleSound, NoHandleLeft;
  }

  lemma EndGenerations(s: State, step: Step)
    requires Inv(s) && Enabled(s, step) && (step.Fail? || step.Install? || step.Discard?)
    ensures GenerationsDistinct(Apply(s, step))
  {
    hide HandleSound, NoHandleLeft;
  }

  lemma RequestKeeps(s: State, step: Step)
    requires Inv(s) && Enabled(s, step) && (step.Request? || step.Acquire?)
    ensures Inv(Apply(s, step))
  {
    hide GenerationsDistinct;
    RestartGenerations(s, step);
  }

  lemma EndKeeps(s: State, p: int)
    requires Inv(s) && s.lock == Some(p) && p in s.restarts && !BuiltBy(s, p)
    ensures Inv(Ended(s, p))
  {
  }

  lemma CheckKeeps(s: State, step: Step)
    requires Inv(s) && Enabled(s, step) && (step.Check? || step.Recheck? || step.Quit?)
    ensures Inv(Apply(s, step))
  {
    hide GenerationsDistinct;
    EndKeeps(s, step.p);
    if step.Quit? { ServerGenerations(s, step); } else { RestartGenerations(s, step); }
  }

  lemma TakeKeeps(s: State, step: Step)
    requires Inv(s) && Enabled(s, step) && step.Take?
    ensures Inv(Apply(s, step))
  {
    hide GenerationsDistinct;
    RestartGenerations(s, step);
  }

  lemma StoppedKeeps(s: State, step: Step)
    requires Inv(s) && Enabled(s, step) && step.Stopped?
    ensures Inv(Apply(s, step))
  {
    hide GenerationsDistinct;
    ServerGenerations(s, step);
  }

  lemma BuildKeeps(s: State, step: Step)
    requires Inv(s) && Enabled(s, step) && step.Build?
    ensures Inv(Apply(s, step))
  {
    hide GenerationsDistinct;
    ServerGenerations(s, step);
  }

  lemma FailKeeps(s: State, step: Step)
    requires Inv(s) && Enabled(s, step) && step.Fail?
    ensures Inv(Apply(s, step))
  {
    hide GenerationsDistinct;
    EndGenerations(s, step);
  }

  lemma InstallKeeps(s: State, step: Step)
    requires Inv(s) && Enabled(s, step) && step.Install?
    ensures Inv(Apply(s, step))
  {
    hide GenerationsDistinct;
    EndGenerations(s, step);
  }

  lemma DiscardKeeps(s: State, step: Step)
    requires Inv(s) && Enabled(s, step) && step.Discard?
    ensures Inv(Apply(s, step))
  {
    hide GenerationsDistinct;
    EndGenerations(s, step);
  }

  lemma ServerStepsKeep(s: State, step: Step)
    requires Inv(s) && Enabled(s, step) && (step.Exit? || step.Report?)
    ensures Inv(Apply(s, step))
  {
  }

  lemma ShutdownKeeps(s: State, step: Step)
    requires Inv(s) && Enabled(s, step) && step.Shutdown?
    ensures Inv(Apply(s, step))
  {
    hide GenerationsDistinct;
    RestartGenerations(s, step);
  }

  lemma StepKeepsInv(s: State, step: Step)
    requires Inv(s) && Enabled(s, step)
    ensures Inv(Apply(s, step))
  {
    match step {
      case Request(_) => RequestKeeps(s, step);
      case Acquire(_) => RequestKeeps(s, step);
      case Take(_) => TakeKeeps(s, step);
      case Stopped(_) => StoppedKeeps(s, step);
      case Build(_, _) => BuildKeeps(s, step);
      case Fail(_, _) => FailKeeps(s, step);
      case Install(_) => InstallKeeps(s, step);
      case Discard(_) => DiscardKeeps(s, step);
      case Exit(_) => ServerStepsKeep(s, step);
      case Report(_, _) => ServerStepsKeep(s, step);
      case Shutdown => ShutdownKeeps(s, step);
      case _ => CheckKeeps(s, step);
    }
  }

  // ------------------------------------------------------------------ whole runs

  function Idle(): State { State(Life(0, None, false, None), None, map[], map[]) }

  predicate IsRun(run: seq<State>, steps: seq<Step>) {
    && |run| == |steps| + 1 && run[0] == Idle()
    && forall i {:trigger steps[i]} :: 0 <= i < |steps| ==> Enabled(run[i], steps[i]) && run[i + 1] == Apply(run[i], steps[i])
  }

  lemma {:induction false} RunKeepsInv(run: seq<State>, steps: seq<Step>, i: nat)
    requires IsRun(run, steps) && i < |run|
    ensures Inv(run[i])
  {
    if i > 0 {
      RunKeepsInv(run, steps, i - 1);
      assert run[i] == Apply(run[i - 1], steps[i - 1]);
      StepKeepsInv(run[i - 1], steps[i - 1]);
    }
  }

  /** The server that is to be reported as running, if the lifecycle says one is. */
  predicate CurrentServer(s: State, sv: int) {
    s.life.handle == Some(Handle(s.life.generation, sv)) && sv in s.servers && s.servers[sv].generation == s.life.generation
  }

  /**
    In every interleaving of restarts, server exits and shutdowns: `running` means that the installed handle is of
    the current generation, and no server is left that nobody answers for.
  */
  lemma RunningMeansCurrent(run: seq<State>, steps: seq<Step>, i: nat)
    requires IsRun(run, steps) && i < |run|
    ensures run[i].life.running ==> exists sv :: CurrentServer(run[i], sv)
    ensures forall sv :: sv in run[i].servers ==>
              match run[i].servers[sv].phase
              case Fresh(p) => p in run[i].restarts && run[i].lock == Some(p) && (run[i].restarts[p].pc == Built(sv) || run[i].restarts[p].pc == Discarding(sv))
              case Installed => run[i].life.handle == Some(Handle(run[i].servers[sv].generation, sv))
              case Taken => true
              case Exited => true
  {
    RunKeepsInv(run, steps, i);
    var s := run[i];
    if s.life.running { assert CurrentServer(s, s.life.handle.value.server); }
  }

  /** Installing never overwrites a handle nobody has collected, and only the current generation is installed; another server is discarded. */
  lemma InstallNeverOverwrites(run: seq<State>, steps: seq<Step>, i: nat)
    requires IsRun(run, steps) && i < |steps| && steps[i].Install?
    ensures run[i].life.handle.None?
    ensures var r := run[i].restarts[steps[i].p];
            if r.generation == run[i].life.generation then CurrentServer(run[i + 1], r.pc.server) && run[i + 1].life.running
            else run[i + 1].life == run[i].life && run[i + 1].restarts[steps[i].p].pc == Discarding(r.pc.server)
  {
    RunKeepsInv(run, steps, i);
    assert run[i + 1] == Apply(run[i], steps[i]);
  }

  /** A handle leaves the lifecycle only to somebody who stops its server, or after that server has exited. */
  lemma HandleIsCollected(s: State, step: Step)
    requires Inv(s) && Enabled(s, step) && s.life.handle.Some? && Apply(s, step).life.handle != s.life.handle
    ensures Apply(s, step).life.handle.None?
    ensures var sv := s.life.handle.value.server;
            || (step.Take? && Apply(s, step).restarts[step.p].pc == Stopping(sv))
            || step.Shutdown?
            || (step.Report? && step.server == sv && s.servers[sv].phase == Exited)
  {
  }

  // ------------------------------------------------------------------ the restart procedure

  /** Steps of others leave restart `p` where it stands. */
  lemma OthersLeave(s: State, step: Step, p: int)
    requires Enabled(s, step) && !IsStepOf(step, p)
    ensures p in Apply(s, step).restarts <==> p in s.restarts
    ensures p in s.restarts ==> Apply(s, step).restarts[p] == s.restarts[p]
  {
  }

  datatype BindOutcome = Bound | Obsolete | Unusable

  class Host {
    var s: State

    constructor ()
      ensures Inv(s) && s == Idle()
    {
      s := Idle();
    }

    method Do(step: Step)
      requires Inv(s) && Enabled(s, step)
      modifies this
      ensures Inv(s) && s == Apply(old(s), step)
    {
      StepKeepsInv(s, step);
      s := Apply(s, step);
    }

    /** Any steps of other restarts, servers and shutdowns, while restart `p` awaits. */
    method Others(p: int)
      requires Inv(s)
      modifies this
      ensures Inv(s) && (p in s.restarts <==> p in old(s).restarts) && (p in s.restarts ==> s.restarts[p] == old(s).restarts[p])
    {
      hide *;
      var steps :| 0 <= steps;
      for i := 0 to steps
        invariant Inv(s) && (p in s.restarts <==> p in old(s).restarts) && (p in s.restarts ==> s.restarts[p] == old(s).restarts[p])
      {
        var step: Step := *;
        if Enabled(s, step) && !IsStepOf(step, p) {
          OthersLeave(s, step, p);
          Do(step);
        }
      }
    }

    /** Wait for the operation lock; nothing bounds how long, so the wait may be given up. */
    method Lock(p: int) returns (locked: bool)
      requires Inv(s) && Stands(s, p, Waiting)
      modifies this
      ensures Inv(s) && p in s.restarts && s.restarts[p].generation == old(s).restarts[p].generation
      ensures s.restarts[p].pc == if locked then Locked else Waiting
    {
      Others(p);
      if s.lock.Some? { return false; }
      Do(Acquire(p));
      locked := true;
    }

    /** `bind_loopback_with_retry`: at most six attempts, the last of them only after five ports in use, given up as soon as the generation is obsolete. */
    method Bind(p: int) returns (outcome: BindOutcome, attempts: nat, inUse: bool)
      requires Inv(s) && Stands(s, p, Starting)
      modifies this
      ensures Inv(s) && Stands(s, p, Starting) && s.restarts[p] == old(s).restarts[p]
      ensures attempts <= BIND_RETRIES + 1 && (outcome == Obsolete ==> s.life.generation != s.restarts[p].generation)
      ensures outcome == Bound ==> attempts > 0
      ensures outcome == Unusable ==> attempts > 0 && (inUse ==> attempts == BIND_RETRIES + 1)
    {
      outcome, attempts, inUse := Obsolete, 0, false;
      while s.life.generation == s.restarts[p].generation
        invariant Inv(s) && Stands(s, p, Starting) && s.restarts[p] == old(s).restarts[p]
        invariant attempts <= BIND_RETRIES && outcome == Obsolete
        decreases BIND_RETRIES - attempts
      {
        var free: bool := *;
        inUse := *;
        attempts := attempts + 1;
        if free { return Bound, attempts, false; }
        if !inUse || attempts > BIND_RETRIES { return Unusable, attempts, inUse; }
        Others(p);
      }
    }

    /**
      `restart_api_server` and `restart_webdav_server`. When it reports that its server was installed, no handle was
      overwritten, and the server is the current one unless somebody has superseded it since.
    */
    method RestartServer(p: int, enabled: bool) returns (installed: bool)
      requires Inv(s) && p !in s.restarts && s.life.generation < U64_MAX
      modifies this
      ensures Inv(s)
      ensures installed ==> p !in s.restarts && enabled && s.life.running && exists sv :: CurrentServer(s, sv)
    {
      Do(Request(p));
      var locked := Lock(p);
      if !locked { return false; }
      Do(Check(p));
      if p !in s.restarts { return false; }
      Others(p);
      Do(Step.Take(p));
      if s.restarts[p].pc.Stopping? {
        Others(p);
        Do(Stopped(p));
      }
      Others(p);
      Do(Recheck(p, enabled));
      if p !in s.restarts { return false; }
      installed := Start(p);
    }

    /** The server thread, up to the moment it reports how startup went. */
    method Start(p: int) returns (installed: bool)
      requires Inv(s) && Stands(s, p, Starting)
      modifies this
      ensures Inv(s) && p !in s.restarts
      ensures installed ==> s.life.running && exists sv :: CurrentServer(s, sv)
    {
      Others(p);
      var outcome, attempts, inUse := Bind(p);
      if outcome == Obsolete {
        Do(Quit(p));
        return false;
      } else if outcome == Unusable {
        var error: int := *;
        Do(Step.Fail(p, error));
        return false;
      }
      Others(p);
      var server := FreshServer();
      Do(Build(p, server));
      Others(p);
      Do(Step.Install(p));
      if p in s.restarts {
        Others(p);
        Do(Discard(p));
        return false;
      }
      assert CurrentServer(s, server);
      installed := true;
    }

    method FreshServer() returns (server: int)
      ensures server !in s.servers
    {
      server := 0;
      var ids := SortedIds(s.servers.Keys);
      SortedIdsAreSorted(s.servers.Keys);
      if ids != [] { server := ids[|ids| - 1] + 1; }
    }
  }

  predicate IsStepOf(step: Step, p: int) {
    match step
    case Request(q) => q == p
    case Acquire(q) => q == p
    case Check(q) => q == p
    case Take(q) => q == p
    case Stopped(q) => q == p
    case Recheck(q, _) => q == p
    case Quit(q) => q == p
    case Build(q, _) => q == p
    case Fail(q, _) => q == p
    case Install(q) => q == p
    case Discard(q) => q == p
    case _ => false
  }
}
