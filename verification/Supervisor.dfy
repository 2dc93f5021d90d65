/** The agent supervisor of `ServerProcess`: each step between two suspension points is one
    atomic step. Whether the port answers, whether a launch throws, which process owns the port
    and the time are inputs of the steps; the children and their exit handlers are part of the
    state. First the steps on values and what every run keeps, then the class whose methods
    perform them. */
module SupervisorSteps {
  import opened Wrappers

  datatype State = Stopped | Starting | Running(pid: int) | Stopping | Unresponsive(pid: int) | Failed(reason: string)

  datatype StartResult = Started | AlreadyRunning | Threw

  const MAX_HEALTH_FAILURES: nat := 3
  const MAX_AUTO_RESTARTS: nat := 3
  const STABLE_THRESHOLD: real := 60.0

  /** The launched children, numbered from 1: those alive, those that ended and whose exit
      handler has not run, and the one that the supervisor holds. */
  datatype Children = Children(launched: nat, alive: set<nat>, ended: set<nat>, process: Option<nat>) {
    /** `process?.isRunning`. */
    predicate Running() {
      process.Some? && process.value in alive
    }

    function Spawn(): Children {
      Children(launched + 1, alive + {launched + 1}, ended, Some(launched + 1))
    }

    function Die(id: nat): Children {
      if id in alive then this.(alive := alive - {id}, ended := ended + {id}) else this
    }

    function Reap(id: nat): Children {
      this.(ended := ended - {id}, process := None)
    }

    function Dropped(): Children {
      this.(process := None)
    }
  }

  /** Work that is not done yet: adoptions, polls of the port after an exit with code 0,
      restarts by their delay in seconds, stops waiting for a child to exit, and stops and
      forced restarts waiting for the port to be released. */
  datatype Tasks = Tasks(
    adoptions: nat,
    probes: nat,
    delayed: seq<nat>,
    stops: seq<nat>,
    releases: nat,
    forces: nat)

  const NO_TASKS: Tasks := Tasks(0, 0, [], [], 0, 0)

  /** How often the restart budget was renewed, and how many automatic restarts were scheduled
      and launched. */
  datatype History = History(resets: nat, autoRestarts: nat, autoLaunches: nat)

  datatype Sup = Sup(
    state: State,
    healthLoop: bool,
    failures: nat,
    restarts: nat,
    lastHealthy: Option<real>,
    expectingExit: bool,
    children: Children,
    tasks: Tasks,
    history: History)

  const INITIAL: Sup :=
    Sup(Stopped, false, 0, 0, None, false, Children(0, {}, {}, None), NO_TASKS, History(0, 0, 0))

  function Renewed(h: History): History {
    h.(resets := h.resets + 1)
  }

  /** `doStart`, called with the state already set to Starting. */
  function Launch(s: Sup, throws: bool): (Sup, bool) {
    if s.children.Running() || throws then (s, false)
    else (s.(children := s.children.Spawn(), healthLoop := true), true)
  }

  function Start(s: Sup, healthy: bool, throws: bool): (Sup, StartResult) {
    if s.state.Running? || s.state.Starting? || s.state.Unresponsive? then (s, AlreadyRunning)
    else
      var s1 := if s.state.Stopping? then s else s.(restarts := 0, failures := 0, history := Renewed(s.history));
      if healthy then (s1.(tasks := s1.tasks.(adoptions := s1.tasks.adoptions + 1)), AlreadyRunning)
      else
        var (s2, _) := Launch(s1.(state := Starting), throws);
        (s2, if throws && !s1.children.Running() then Threw else Started)
  }

  function ClampPid(pid: int): int {
    if pid > 0 then pid else 0
  }

  function Adopt(s: Sup, ownerPid: int, now: real): Sup {
    s.(restarts := 0, failures := 0, lastHealthy := Some(now), state := Running(ClampPid(ownerPid)),
       healthLoop := true, history := Renewed(s.history))
  }

  predicate LongSinceHealthy(s: Sup, now: real) {
    s.lastHealthy.Some? && now - s.lastHealthy.value >= STABLE_THRESHOLD
  }

  function Backoff(restarts: nat): nat
    requires restarts > 0
  {
    if restarts == 1 then 5 else 2 * Backoff(restarts - 1)
  }

  function Schedule(s: Sup): Sup {
    s.(restarts := s.restarts + 1,
       history := s.history.(autoRestarts := s.history.autoRestarts + 1),
       state := Starting,
       tasks := s.tasks.(delayed := s.tasks.delayed + [Backoff(s.restarts + 1)]))
  }

  function TryAutoRestart(s: Sup, now: real, reason: string): Sup {
    var s1 := if LongSinceHealthy(s, now) then s.(restarts := 0, history := Renewed(s.history)) else s;
    if s1.restarts >= MAX_AUTO_RESTARTS then s1.(state := Failed(reason), healthLoop := true) else Schedule(s1)
  }

  /** `handleProcessExit` of child id. */
  function HandleExit(s: Sup, id: nat, code: int, now: real, reason: string): Sup {
    var s1 := s.(expectingExit := false, children := s.children.Reap(id));
    if s.expectingExit then s1.(state := Stopped)
    else if code == 0 then s1.(tasks := s1.tasks.(probes := s1.tasks.probes + 1))
    else TryAutoRestart(s1, now, reason)
  }

  predicate IsRunning(s: Sup) {
    s.state.Running? || s.state.Unresponsive? || s.children.Running()
  }

  /** The child is let go of, and the stop waits for the port to be released. */
  function Release(s: Sup): Sup {
    s.(children := s.children.Dropped(), tasks := s.tasks.(releases := s.tasks.releases + 1))
  }

  /** `stop` up to its first suspension point. */
  function StopBegin(s: Sup): Sup {
    var s1 := s.(healthLoop := false);
    if IsRunning(s) || s.state.Starting? then
      var s2 := s1.(state := Stopping, expectingExit := true);
      if s.children.Running() then s2.(tasks := s2.tasks.(stops := s2.tasks.stops + [s.children.process.value]))
      else Release(s2)
    else Release(s1)
  }

  function Without(xs: seq<nat>, i: nat): seq<nat>
    requires i < |xs|
  {
    xs[..i] + xs[i + 1..]
  }

  /** A waiting stop goes on: its child has exited, or the grace period is over and it is
      killed. */
  function StopEnd(s: Sup, i: nat): Sup
    requires i < |s.tasks.stops|
  {
    Release(s.(tasks := s.tasks.(stops := Without(s.tasks.stops, i)), children := s.children.Die(s.tasks.stops[i])))
  }

  /** The port is released: the end of a stop. */
  function StopFinish(s: Sup): Sup
    requires s.tasks.releases > 0
  {
    s.(tasks := s.tasks.(releases := s.tasks.releases - 1), expectingExit := false, state := Stopped)
  }

  /** The child that the supervisor holds, if any, is killed. */
  function Killed(c: Children): Children {
    if c.process.Some? then c.Die(c.process.value) else c
  }

  /** `forceRestart` up to its first suspension point, the release of the port. */
  function ForceBegin(s: Sup): Sup {
    s.(expectingExit := true, healthLoop := false, children := Killed(s.children).Dropped(),
       tasks := s.tasks.(forces := s.tasks.forces + 1))
  }

  function Cleared(s: Sup): Sup
    requires s.tasks.forces > 0
  {
    s.(tasks := s.tasks.(forces := s.tasks.forces - 1), restarts := 0, failures := 0, expectingExit := false,
       state := Stopped)
  }

  /** The port is released: the rest of `forceRestart`. */
  function ForceFinish(s: Sup, healthy: bool, throws: bool): (Sup, StartResult)
    requires s.tasks.forces > 0
  {
    Start(Cleared(s), healthy, throws)
  }

  function Tick(s: Sup, healthy: bool, ownerPid: int, now: real): Sup {
    match s.state
    case Starting =>
      if healthy then
        var pid := if s.children.Running() then s.children.process.value else ownerPid;
        s.(failures := 0, lastHealthy := Some(now), state := Running(ClampPid(pid)))
      else s
    case Failed(_) => if healthy then Adopt(s, ownerPid, now) else s
    case Running(pid) =>
      if healthy then s.(failures := 0, lastHealthy := Some(now))
      else
        var s1 := s.(failures := s.failures + 1);
        if s1.failures >= MAX_HEALTH_FAILURES then s1.(state := Unresponsive(pid)) else s1
    case Unresponsive(pid) =>
      if healthy then s.(failures := 0, lastHealthy := Some(now), state := Running(pid))
      else s.(failures := s.failures + 1)
    case _ => s
  }

  /** A scheduled restart comes due: it only launches if the state is still Starting. */
  function DelayedRestart(s: Sup, i: nat, throws: bool): Sup
    requires i < |s.tasks.delayed|
  {
    var s1 := s.(tasks := s.tasks.(delayed := Without(s.tasks.delayed, i)));
    if s.state.Starting? then
      var (s2, launched) := Launch(s1, throws);
      if launched then s2.(history := s2.history.(autoLaunches := s2.history.autoLaunches + 1)) else s2
    else s1
  }

  function ProbeDone(s: Sup, healthy: bool, ownerPid: int, now: real, reason: string): Sup
    requires s.tasks.probes > 0
  {
    var s1 := s.(tasks := s.tasks.(probes := s.tasks.probes - 1));
    if healthy then Adopt(s1, ownerPid, now) else TryAutoRestart(s1, now, reason)
  }

  function RunAdoption(s: Sup, ownerPid: int, now: real): Sup
    requires s.tasks.adoptions > 0
  {
    Adopt(s.(tasks := s.tasks.(adoptions := s.tasks.adoptions - 1)), ownerPid, now)
  }

  /** `reconcileListeningPort` up to its adoption. */
  function Reconcile(s: Sup, adoptOrphan: bool, healthy: bool): Sup {
    if adoptOrphan && (s.state.Stopped? || s.state.Failed?) && healthy then
      s.(tasks := s.tasks.(adoptions := s.tasks.adoptions + 1))
    else s
  }

  // ----- runs -----

  datatype Event =
    | EStart(healthy: bool, throws: bool)
    | EAdopt(pid: int, now: real)
    | EDie(id: nat)
    | EExit(id: nat, code: int, now: real, reason: string)
    | EProbe(healthy: bool, pid: int, now: real, reason: string)
    | EDelayed(i: nat, throws: bool)
    | EStopBegin
    | EStopEnd(i: nat)
    | EStopFinish
    | EForce
    | EForceFinish(healthy: bool, throws: bool)
    | ETick(healthy: bool, pid: int, now: real)
    | EReconcile(adoptOrphan: bool, healthy: bool)
    | EMonitor

  /** What can happen next: scheduled work only runs if scheduled, ticks only come from the
      loop, only a live child dies, and only an ended one has an exit handler to run. */
  predicate Enabled(s: Sup, e: Event) {
    match e
    case EAdopt(_, _) => s.tasks.adoptions > 0
    case EDie(id) => id in s.children.alive
    case EExit(id, _, _, _) => id in s.children.ended
    case EProbe(_, _, _, _) => s.tasks.probes > 0
    case EDelayed(i, _) => i < |s.tasks.delayed|
    case EStopEnd(i) => i < |s.tasks.stops|
    case EStopFinish => s.tasks.releases > 0
    case EForceFinish(_, _) => s.tasks.forces > 0
    case ETick(_, _, _) => s.healthLoop
    case _ => true
  }

  function Step(s: Sup, e: Event): Sup
    requires Enabled(s, e)
  {
    match e
    case EStart(healthy, throws) => Start(s, healthy, throws).0
    case EAdopt(pid, now) => RunAdoption(s, pid, now)
    case EDie(id) => s.(children := s.children.Die(id))
    case EExit(id, code, now, reason) => HandleExit(s, id, code, now, reason)
    case EProbe(healthy, pid, now, reason) => ProbeDone(s, healthy, pid, now, reason)
    case EDelayed(i, throws) => DelayedRestart(s, i, throws)
    case EStopBegin => StopBegin(s)
    case EStopEnd(i) => StopEnd(s, i)
    case EStopFinish => StopFinish(s)
    case EForce => ForceBegin(s)
    case EForceFinish(healthy, throws) => ForceFinish(s, healthy, throws).0
    case ETick(healthy, pid, now) => Tick(s, healthy, pid, now)
    case EReconcile(adoptOrphan, healthy) => Reconcile(s, adoptOrphan, healthy)
    case EMonitor => s.(healthLoop := true)
  }

  predicate CanRun(s: Sup, es: seq<Event>)
    decreases |es|
  {
    es == [] || (Enabled(s, es[0]) && CanRun(Step(s, es[0]), es[1..]))
  }

  function Run(s: Sup, es: seq<Event>): Sup
    requires CanRun(s, es)
    decreases |es|
  {
    if es == [] then s else Run(Step(s, es[0]), es[1..])
  }

  lemma RunCons(s: Sup, e: Event, es: seq<Event>)
    requires Enabled(s, e)
    ensures CanRun(s, [e] + es) <==> CanRun(Step(s, e), es)
    ensures CanRun(s, [e] + es) ==> Run(s, [e] + es) == Run(Step(s, e), es)
  {
    assert ([e] + es)[1..] == es;
  }

  lemma RunOne(s: Sup, e: Event)
    requires Enabled(s, e)
    ensures CanRun(s, [e]) && Run(s, [e]) == Step(s, e)
  {
    assert [e] + [] == [e];
    RunCons(s, e, []);
  }

  // ----- what every step keeps: health -----

  predicate HealthOk(s: Sup) {
    && (s.state.Running? ==> s.failures < MAX_HEALTH_FAILURES)
    && (s.state.Unresponsive? ==> s.failures >= MAX_HEALTH_FAILURES)
    && ((s.state.Running? || s.state.Unresponsive?) && s.tasks.forces == 0 ==> s.healthLoop)
    && (s.state.Failed? && s.tasks.forces == 0 && s.tasks.releases == 0 ==> s.healthLoop)
    && (s.state.Stopped? && s.tasks.forces == 0 ==> !s.expectingExit)
  }

  lemma StartHealth(s: Sup, healthy: bool, throws: bool)
    requires HealthOk(s)
    ensures HealthOk(Start(s, healthy, throws).0)
  {
  }

  lemma RestartHealth(s: Sup, now: real, reason: string)
    ensures HealthOk(TryAutoRestart(s, now, reason))
  {
  }

  lemma ExitHealth(s: Sup, id: nat, code: int, now: real, reason: string)
    requires HealthOk(s)
    ensures HealthOk(HandleExit(s, id, code, now, reason))
  {
    RestartHealth(s.(expectingExit := false, children := s.children.Reap(id)), now, reason);
  }

  lemma ProbeHealth(s: Sup, healthy: bool, pid: int, now: real, reason: string)
    requires s.tasks.probes > 0
    ensures HealthOk(ProbeDone(s, healthy, pid, now, reason))
  {
    RestartHealth(s.(tasks := s.tasks.(probes := s.tasks.probes - 1)), now, reason);
  }

  lemma DelayedHealth(s: Sup, i: nat, throws: bool)
    requires HealthOk(s) && i < |s.tasks.delayed|
    ensures HealthOk(DelayedRestart(s, i, throws))
  {
  }

  lemma StopHealth(s: Sup)
    requires HealthOk(s)
    ensures HealthOk(StopBegin(s))
  {
  }

  lemma ForceHealth(s: Sup, healthy: bool, throws: bool)
    requires s.tasks.forces > 0
    ensures HealthOk(ForceFinish(s, healthy, throws).0)
  {
  }

  lemma TickHealth(s: Sup, healthy: bool, pid: int, now: real)
    requires HealthOk(s) && s.healthLoop
    ensures HealthOk(Tick(s, healthy, pid, now))
  {
  }

  /** Running means fewer than three failures, unresponsive at least three. Unless a forced
      restart waits for the port, the health loop is active in running and unresponsive, in
      failed unless a stop does, and no exit is expected in stopped. */
  lemma StepHealth(s: Sup, e: Event)
    requires Enabled(s, e) && HealthOk(s)
    ensures HealthOk(Step(s, e))
  {
    match e
    case EStart(healthy, throws) => StartHealth(s, healthy, throws);
    case EExit(id, code, now, reason) => ExitHealth(s, id, code, now, reason);
    case EProbe(healthy, pid, now, reason) => ProbeHealth(s, healthy, pid, now, reason);
    case EDelayed(i, throws) => DelayedHealth(s, i, throws);
    case EStopBegin => StopHealth(s);
    case EForceFinish(healthy, throws) => ForceHealth(s, healthy, throws);
    case ETick(healthy, pid, now) => TickHealth(s, healthy, pid, now);
    case _ =>
  }

  // ----- what every step keeps: the restart budget -----

  predicate Budget(s: Sup) {
    && s.restarts <= MAX_AUTO_RESTARTS
    && s.history.autoRestarts <= MAX_AUTO_RESTARTS * s.history.resets + s.restarts
    && s.history.autoLaunches + |s.tasks.delayed| <= s.history.autoRestarts
    && DelaysOk(s.tasks.delayed)
  }

  lemma BackoffIs()
    ensures Backoff(1) == 5 && Backoff(2) == 10 && Backoff(3) == 20
  {
    assert Backoff(2) == 2 * Backoff(1) && Backoff(3) == 2 * Backoff(2);
  }

  predicate DelaysOk(delayed: seq<nat>) {
    forall i :: 0 <= i < |delayed| ==> delayed[i] in {5, 10, 20}
  }

  lemma StartBudget(s: Sup, healthy: bool, throws: bool)
    requires Budget(s) || (s.state.Stopped? && Budget(s.(history := Renewed(s.history))) && s.restarts == 0)
    ensures Budget(Start(s, healthy, throws).0)
  {
  }

  lemma ScheduleBudget(s: Sup)
    requires Budget(s) && s.restarts < MAX_AUTO_RESTARTS
    ensures Budget(Schedule(s))
  {
    BackoffIs();
  }

  lemma RestartBudget(s: Sup, now: real, reason: string)
    requires Budget(s)
    ensures Budget(TryAutoRestart(s, now, reason))
  {
    var s1 := if LongSinceHealthy(s, now) then s.(restarts := 0, history := Renewed(s.history)) else s;
    if s1.restarts < MAX_AUTO_RESTARTS { ScheduleBudget(s1); }
  }

  lemma ExitBudget(s: Sup, id: nat, code: int, now: real, reason: string)
    requires Budget(s)
    ensures Budget(HandleExit(s, id, code, now, reason))
  {
    RestartBudget(s.(expectingExit := false, children := s.children.Reap(id)), now, reason);
  }

  lemma ProbeBudget(s: Sup, healthy: bool, pid: int, now: real, reason: string)
    requires s.tasks.probes > 0 && Budget(s)
    ensures Budget(ProbeDone(s, healthy, pid, now, reason))
  {
    RestartBudget(s.(tasks := s.tasks.(probes := s.tasks.probes - 1)), now, reason);
  }

  lemma DelayedBudget(s: Sup, i: nat, throws: bool)
    requires Budget(s) && i < |s.tasks.delayed|
    ensures Budget(DelayedRestart(s, i, throws))
  {
    assert forall k :: 0 <= k < |Without(s.tasks.delayed, i)| ==> Without(s.tasks.delayed, i)[k] in s.tasks.delayed;
  }

  lemma ForceBudget(s: Sup, healthy: bool, throws: bool)
    requires Budget(s) && s.tasks.forces > 0
    ensures Budget(ForceFinish(s, healthy, throws).0)
  {
    StartBudget(Cleared(s), healthy, throws);
  }

  lemma TickBudget(s: Sup, healthy: bool, pid: int, now: real)
    requires Budget(s)
    ensures Budget(Tick(s, healthy, pid, now))
  {
  }

  /** At most three automatic restarts are counted since the last renewal, each scheduled after
      5, 10 or 20 seconds. */
  lemma StepBudget(s: Sup, e: Event)
    requires Enabled(s, e) && Budget(s)
    ensures Budget(Step(s, e))
  {
    match e
    case EStart(healthy, throws) => StartBudget(s, healthy, throws);
    case EExit(id, code, now, reason) => ExitBudget(s, id, code, now, reason);
    case EProbe(healthy, pid, now, reason) => ProbeBudget(s, healthy, pid, now, reason);
    case EDelayed(i, throws) => DelayedBudget(s, i, throws);
    case EForceFinish(healthy, throws) => ForceBudget(s, healthy, throws);
    case ETick(healthy, pid, now) => TickBudget(s, healthy, pid, now);
    case _ =>
  }

  // ----- what every step keeps: the children -----

  ghost predicate ChildrenOk(c: Children) {
    && c.alive !! c.ended
    && (forall id :: id in c.alive || id in c.ended ==> 0 < id <= c.launched)
    && (c.process.Some? ==> c.process.value in c.alive || c.process.value in c.ended)
  }

  lemma StepChildren(s: Sup, e: Event)
    requires Enabled(s, e) && ChildrenOk(s.children)
    ensures ChildrenOk(Step(s, e).children)
  {
    ChildrenMove(s, e);
  }

  /** What an event does to the children. */
  lemma ChildrenMove(s: Sup, e: Event)
    requires Enabled(s, e)
    ensures var c, d := s.children, Step(s, e).children;
            match e
            case EDie(id) => d == c.Die(id)
            case EExit(id, _, _, _) => d == c.Reap(id)
            case EStart(_, _) => d == c || (d == c.Spawn() && !c.Running())
            case EDelayed(_, _) => d == c || (d == c.Spawn() && !c.Running())
            case EForce => d == Killed(c).Dropped()
            case EForceFinish(_, _) => d == c || (d == c.Spawn() && !c.Running())
            case EStopBegin => d == c || (d == c.Dropped() && !c.Running())
            case EStopEnd(i) => d == c.Die(s.tasks.stops[i]).Dropped()
            case _ => d == c
  {
  }

  // ----- runs keep it all -----

  /** Stops wait for children that were launched. */
  predicate StopsOk(s: Sup) {
    forall i :: 0 <= i < |s.tasks.stops| ==> s.tasks.stops[i] <= s.children.launched
  }

  lemma StepStops(s: Sup, e: Event)
    requires Enabled(s, e) && ChildrenOk(s.children) && StopsOk(s)
    ensures StopsOk(Step(s, e))
  {
    ChildrenMove(s, e);
    StopsMove(s, e);
  }

  lemma StopsMove(s: Sup, e: Event)
    requires Enabled(s, e)
    ensures var p, q := s.tasks.stops, Step(s, e).tasks.stops;
            match e
            case EStopBegin => q == p || (s.children.Running() && q == p + [s.children.process.value])
            case EStopEnd(i) => q == Without(p, i)
            case _ => q == p
  {
  }

  ghost predicate Inv(s: Sup) {
    HealthOk(s) && Budget(s) && ChildrenOk(s.children) && StopsOk(s)
  }

  lemma StepInv(s: Sup, e: Event)
    requires Enabled(s, e) && Inv(s)
    ensures Inv(Step(s, e))
  {
    StepHealth(s, e);
    StepBudget(s, e);
    StepChildren(s, e);
    StepStops(s, e);
  }

  lemma {:induction false} RunInv(s: Sup, es: seq<Event>)
    requires CanRun(s, es) && Inv(s)
    ensures Inv(Run(s, es))
    decreases |es|
  {
    if es != [] {
      StepInv(s, es[0]);
      RunInv(Step(s, es[0]), es[1..]);
    }
  }

  /** The events that renew the restart budget: a user start from stopped or failed, a forced
      restart, an adoption, and a failure a minute or more after the last healthy check. */
  predicate Renews(s: Sup, e: Event) {
    match e
    case EStart(_, _) => s.state.Stopped? || s.state.Failed?
    case EForceFinish(_, _) => true
    case EAdopt(_, _) => true
    case EProbe(healthy, _, now, _) => healthy || LongSinceHealthy(s, now)
    case EExit(_, code, now, _) => !s.expectingExit && code != 0 && LongSinceHealthy(s, now)
    case ETick(healthy, _, _) => s.state.Failed? && healthy
    case _ => false
  }

  /** The event schedules an automatic restart. */
  predicate Schedules(s: Sup, e: Event)
    requires Enabled(s, e)
  {
    |Step(s, e).tasks.delayed| > |s.tasks.delayed|
  }

  function Renewals(s: Sup, es: seq<Event>): nat
    requires CanRun(s, es)
    decreases |es|
  {
    if es == [] then 0 else (if Renews(s, es[0]) then 1 else 0) + Renewals(Step(s, es[0]), es[1..])
  }

  function Restarts(s: Sup, es: seq<Event>): nat
    requires CanRun(s, es)
    decreases |es|
  {
    if es == [] then 0 else (if Schedules(s, es[0]) then 1 else 0) + Restarts(Step(s, es[0]), es[1..])
  }

  lemma RestartCounts(s: Sup, now: real, reason: string)
    ensures var t := TryAutoRestart(s, now, reason);
            && t.history.resets == s.history.resets + (if LongSinceHealthy(s, now) then 1 else 0)
            && t.history.autoRestarts == s.history.autoRestarts + (|t.tasks.delayed| - |s.tasks.delayed|)
            && |s.tasks.delayed| <= |t.tasks.delayed| <= |s.tasks.delayed| + 1
  {
  }

  lemma StartCounts(s: Sup, healthy: bool, throws: bool)
    ensures var t := Start(s, healthy, throws).0;
            && t.history.resets == s.history.resets + (if s.state.Stopped? || s.state.Failed? then 1 else 0)
            && t.history.autoRestarts == s.history.autoRestarts && t.tasks.delayed == s.tasks.delayed
  {
  }

  lemma ExitCounts(s: Sup, id: nat, code: int, now: real, reason: string)
    ensures var t := HandleExit(s, id, code, now, reason);
            && t.history.resets ==
                 s.history.resets + (if !s.expectingExit && code != 0 && LongSinceHealthy(s, now) then 1 else 0)
            && t.history.autoRestarts == s.history.autoRestarts + (|t.tasks.delayed| - |s.tasks.delayed|)
            && |s.tasks.delayed| <= |t.tasks.delayed| <= |s.tasks.delayed| + 1
  {
    RestartCounts(s.(expectingExit := false, children := s.children.Reap(id)), now, reason);
  }

  lemma ProbeCounts(s: Sup, healthy: bool, pid: int, now: real, reason: string)
    requires s.tasks.probes > 0
    ensures var t := ProbeDone(s, healthy, pid, now, reason);
            && t.history.resets == s.history.resets + (if healthy || LongSinceHealthy(s, now) then 1 else 0)
            && t.history.autoRestarts == s.history.autoRestarts + (|t.tasks.delayed| - |s.tasks.delayed|)
            && |s.tasks.delayed| <= |t.tasks.delayed| <= |s.tasks.delayed| + 1
  {
    RestartCounts(s.(tasks := s.tasks.(probes := s.tasks.probes - 1)), now, reason);
  }

  lemma OtherCounts(s: Sup, e: Event)
    requires Enabled(s, e) && (e.EDelayed? || e.EStopBegin? || e.EStopEnd? || e.ETick? || e.EReconcile?)
    ensures var t := Step(s, e);
            && t.history.resets == s.history.resets + (if Renews(s, e) then 1 else 0)
            && t.history.autoRestarts == s.history.autoRestarts && |t.tasks.delayed| <= |s.tasks.delayed|
  {
  }

  lemma StepCounts(s: Sup, e: Event)
    requires Enabled(s, e)
    ensures Step(s, e).history.resets == s.history.resets + if Renews(s, e) then 1 else 0
    ensures Step(s, e).history.autoRestarts == s.history.autoRestarts + if Schedules(s, e) then 1 else 0
  {
    match e
    case EStart(healthy, throws) => StartCounts(s, healthy, throws);
    case EForceFinish(healthy, throws) => StartCounts(Cleared(s), healthy, throws);
    case EExit(id, code, now, reason) => ExitCounts(s, id, code, now, reason);
    case EProbe(healthy, pid, now, reason) => ProbeCounts(s, healthy, pid, now, reason);
    case EAdopt(_, _) =>
    case EDie(_) =>
    case EForce =>
    case EStopFinish =>
    case EMonitor =>
    case _ => OtherCounts(s, e);
  }

  lemma {:induction false} RunCounts(s: Sup, es: seq<Event>)
    requires CanRun(s, es)
    ensures Run(s, es).history.resets == s.history.resets + Renewals(s, es)
    ensures Run(s, es).history.autoRestarts == s.history.autoRestarts + Restarts(s, es)
    decreases |es|
  {
    if es != [] {
      StepCounts(s, es[0]);
      RunCounts(Step(s, es[0]), es[1..]);
    }
  }

  /** Over every run from launch: at most three automatic restarts per budget, so at most
      3 * (renewals + 1) in all, and no more automatic launches than that. */
  lemma RestartsBudgeted(es: seq<Event>)
    requires CanRun(INITIAL, es)
    ensures Restarts(INITIAL, es) <= MAX_AUTO_RESTARTS * (Renewals(INITIAL, es) + 1)
    ensures Run(INITIAL, es).history.autoLaunches <= Restarts(INITIAL, es)
  {
    RunInv(INITIAL, es);
    RunCounts(INITIAL, es);
  }

  // ----- health -----

  /** The time of the last healthy check is noted by an adoption and by a healthy tick in any
      state but stopped and stopping, and by nothing else; the failures are then forgotten. */
  lemma HealthNoted(s: Sup, e: Event)
    requires Enabled(s, e)
    ensures var noted := match e
              case EAdopt(_, now) => Some(now)
              case EProbe(healthy, _, now, _) => if healthy then Some(now) else None
              case ETick(healthy, _, now) =>
                if healthy && !s.state.Stopped? && !s.state.Stopping? then Some(now) else None
              case _ => None;
            if noted.Some? then Step(s, e).lastHealthy == noted && Step(s, e).failures == 0 && Step(s, e).state.Running?
            else Step(s, e).lastHealthy == s.lastHealthy
  {
  }

  /** In every reachable running or unresponsive state, unless a forced restart waits for the
      port, and in every failed one, unless a stop does, a healthy tick can come and leads to
      running. */
  lemma Recovers(es: seq<Event>, pid: int, now: real)
    requires CanRun(INITIAL, es)
    ensures var s := Run(INITIAL, es);
            (s.state.Running? || s.state.Unresponsive? || (s.state.Failed? && s.tasks.releases == 0))
            && s.tasks.forces == 0 ==>
              && Enabled(s, ETick(true, pid, now))
              && Step(s, ETick(true, pid, now)).state.Running?
              && Step(s, ETick(true, pid, now)).failures == 0
  {
    RunInv(INITIAL, es);
  }

  /** In running, unresponsive and failed the health loop is active. */
  predicate Watched(s: Sup) {
    s.state.Running? || s.state.Unresponsive? || s.state.Failed? ==> s.healthLoop
  }

  /** A forced restart, or a stop in failed without a child, cancels the loop and leaves the
      state as it is until the port is released. */
  predicate Unwatches(s: Sup, e: Event) {
    || (e.EForce? && (s.state.Running? || s.state.Unresponsive? || s.state.Failed?))
    || (e.EStopBegin? && s.state.Failed? && !s.children.Running())
  }

  lemma WatchedIff(s: Sup, e: Event)
    requires Enabled(s, e) && Watched(s)
    ensures Watched(Step(s, e)) <==> !Unwatches(s, e)
  {
  }

  predicate WatchedThroughout(s: Sup, es: seq<Event>)
    requires CanRun(s, es)
    decreases |es|
  {
    Watched(s) && (es == [] || WatchedThroughout(Step(s, es[0]), es[1..]))
  }

  predicate NeverUnwatches(s: Sup, es: seq<Event>)
    requires CanRun(s, es)
    decreases |es|
  {
    es == [] || (!Unwatches(s, es[0]) && NeverUnwatches(Step(s, es[0]), es[1..]))
  }

  /** Over a run the loop is active throughout in these states exactly when no step does that. */
  lemma {:induction false} RunWatchedIff(s: Sup, es: seq<Event>)
    requires CanRun(s, es) && Watched(s)
    ensures WatchedThroughout(s, es) <==> NeverUnwatches(s, es)
    decreases |es|
  {
    if es != [] {
      WatchedIff(s, es[0]);
      if !Unwatches(s, es[0]) { RunWatchedIff(Step(s, es[0]), es[1..]); }
    }
  }

  /** k unhealthy ticks in a row. */
  function Unhealthy(s: Sup, k: nat): Sup {
    if k == 0 then s else Tick(Unhealthy(s, k - 1), false, 0, 0.0)
  }

  /** After a healthy tick, a running agent is declared unresponsive by exactly the third
      unhealthy one, and stays so. */
  lemma {:induction false} ThreeStrikes(s: Sup, k: nat)
    requires s.state.Running? && s.failures == 0
    ensures Unhealthy(s, k).failures == k
    ensures Unhealthy(s, k).state == if k < 3 then s.state else Unresponsive(s.state.pid)
  {
    if k > 0 { ThreeStrikes(s, k - 1); }
  }

  // ----- crashes -----

  /** An unexpected failure is final exactly when the budget is spent and the last healthy
      check, if there was any, lies less than a minute back. */
  lemma GivesUpIff(s: Sup, now: real, reason: string)
    requires Inv(s)
    ensures TryAutoRestart(s, now, reason).state.Failed? <==>
        s.restarts == MAX_AUTO_RESTARTS && !LongSinceHealthy(s, now)
    ensures !TryAutoRestart(s, now, reason).state.Failed? ==> TryAutoRestart(s, now, reason).state.Starting?
  {
  }

  /** Child id was just launched, and nothing else is going on. */
  ghost predicate Launched(s: Sup, id: nat) {
    && s.state.Starting? && !s.expectingExit && s.tasks.delayed == []
    && s.children == Children(id, {id}, {}, Some(id))
  }

  /** Child id dies and its exit is handled. */
  function Crash(id: nat, now: real): seq<Event> {
    [EDie(id), EExit(id, 1, now, "Agent exited with code 1")]
  }

  /** One crash after the other at the given times, each followed by the restart it scheduled. */
  function CrashLoop(id: nat, times: seq<real>): seq<Event>
    decreases |times|
  {
    if times == [] then []
    else Crash(id, times[0]) + ([EDelayed(0, false)] + CrashLoop(id + 1, times[1..]))
  }

  lemma CrashStep(s: Sup, id: nat, now: real, rest: seq<Event>) returns (t: Sup)
    requires Launched(s, id)
    ensures t == TryAutoRestart(s.(children := Children(id, {}, {}, None)), now, "Agent exited with code 1")
    ensures CanRun(s, Crash(id, now) + rest) <==> CanRun(t, rest)
    ensures CanRun(t, rest) ==> Run(s, Crash(id, now) + rest) == Run(t, rest)
  {
    var a, b := EDie(id), EExit(id, 1, now, "Agent exited with code 1");
    var s1 := Step(s, a);
    assert s1.children == Children(id, {}, {id}, Some(id));
    t := Step(s1, b);
    assert s1.children.Reap(id) == Children(id, {}, {}, None);
    RunCons(s, a, [b] + rest);
    RunCons(s1, b, rest);
    assert [a] + ([b] + rest) == Crash(id, now) + rest;
  }

  lemma Relaunch(s: Sup, id: nat, delay: nat)
    requires s.state.Starting? && !s.expectingExit && s.tasks.delayed == [delay]
    requires s.children == Children(id, {}, {}, None)
    ensures Enabled(s, EDelayed(0, false)) && Launched(Step(s, EDelayed(0, false)), id + 1)
    ensures var t := Step(s, EDelayed(0, false));
            && t.lastHealthy == s.lastHealthy && t.restarts == s.restarts
            && t.history == s.history.(autoLaunches := s.history.autoLaunches + 1)
  {
    assert Without([delay], 0) == [];
    assert s.children.Spawn() == Children(id + 1, {id + 1}, {}, Some(id + 1));
  }

  predicate Ascending(times: seq<real>) {
    forall i, j :: 0 <= i < j < |times| ==> times[i] <= times[j]
  }

  /** All restarts that are waiting in any state of the run wait for the given delay. */
  ghost predicate Waits(s: Sup, es: seq<Event>, delay: nat)
    requires CanRun(s, es)
    decreases |es|
  {
    && (forall d :: d in s.tasks.delayed ==> d == delay)
    && (es == [] || Waits(Step(s, es[0]), es[1..], delay))
  }

  lemma WaitsCons(s: Sup, e: Event, es: seq<Event>, delay: nat)
    requires Enabled(s, e) && CanRun(Step(s, e), es) && Waits(Step(s, e), es, delay)
    requires forall d :: d in s.tasks.delayed ==> d == delay
    ensures CanRun(s, [e] + es) && Waits(s, [e] + es, delay)
  {
    RunCons(s, e, es);
    assert ([e] + es)[1..] == es;
  }

  /** The minute is counted from the last healthy check, not over a healthy period: an agent
      that was healthy once and then only crashes is restarted without end, always after the
      shortest delay, once a minute has passed. */
  lemma {:induction false} StaleHealthRestartsForever(s: Sup, id: nat, times: seq<real>)
    requires Launched(s, id) && Ascending(times) && (times != [] ==> LongSinceHealthy(s, times[0]))
    ensures CanRun(s, CrashLoop(id, times)) && Waits(s, CrashLoop(id, times), 5)
    ensures var t := Run(s, CrashLoop(id, times));
            && Launched(t, id + |times|)
            && t.history.autoRestarts == s.history.autoRestarts + |times|
            && t.history.autoLaunches == s.history.autoLaunches + |times|
    decreases |times|
  {
    if times != [] {
      var more := CrashLoop(id + 1, times[1..]);
      var rest := [EDelayed(0, false)] + more;
      var t := CrashStep(s, id, times[0], rest);
      StaleCrash(s, id, times[0], t);
      Relaunch(t, id, 5);
      var u := Step(t, EDelayed(0, false));
      assert forall i :: 0 <= i < |times[1..]| ==> times[0] <= times[1..][i];
      StaleHealthRestartsForever(u, id + 1, times[1..]);
      RelaunchWaits(t, u, more);
      CrashWaits(s, id, times[0], rest, t);
    }
  }

  lemma RelaunchWaits(t: Sup, u: Sup, more: seq<Event>)
    requires Enabled(t, EDelayed(0, false)) && u == Step(t, EDelayed(0, false)) && t.tasks.delayed == [5]
    requires CanRun(u, more) && Waits(u, more, 5)
    ensures CanRun(t, [EDelayed(0, false)] + more) && Waits(t, [EDelayed(0, false)] + more, 5)
    ensures Run(t, [EDelayed(0, false)] + more) == Run(u, more)
  {
    RunCons(t, EDelayed(0, false), more);
    WaitsCons(t, EDelayed(0, false), more, 5);
  }

  lemma StaleCrash(s: Sup, id: nat, now: real, t: Sup)
    requires Launched(s, id) && LongSinceHealthy(s, now)
    requires t == TryAutoRestart(s.(children := Children(id, {}, {}, None)), now, "Agent exited with code 1")
    ensures t.state.Starting? && !t.expectingExit && t.tasks.delayed == [5] && t.lastHealthy == s.lastHealthy
    ensures t.children == Children(id, {}, {}, None)
    ensures t.history.autoRestarts == s.history.autoRestarts + 1 && t.history.autoLaunches == s.history.autoLaunches
  {
    assert Backoff(1) == 5;
  }

  /** The first start, a healthy check, a crash a second later and its restart. */
  lemma StaleStates() returns (s1: Sup, s2: Sup, s3: Sup, s4: Sup)
    ensures s1 == Step(INITIAL, EStart(false, false)) && Enabled(s1, ETick(true, 0, 0.0))
    ensures s2 == Step(s1, ETick(true, 0, 0.0)) && Enabled(s2, EDie(1)) && s3 == Step(s2, EDie(1))
    ensures var e := EExit(1, 1, 1.0, "Agent exited with code 1"); Enabled(s3, e) && s4 == Step(s3, e)
    ensures s4.state.Starting? && !s4.expectingExit && s4.tasks.delayed == [5] && s4.lastHealthy == Some(0.0)
    ensures s4.children == Children(1, {}, {}, None)
  {
    s1 := Step(INITIAL, EStart(false, false));
    s2 := Step(s1, ETick(true, 0, 0.0));
    assert s2.children == Children(1, {1}, {}, Some(1));
    s3 := Step(s2, EDie(1));
    assert s3.children == Children(1, {}, {1}, Some(1));
    s4 := Step(s3, EExit(1, 1, 1.0, "Agent exited with code 1"));
    assert s4.children == Children(1, {}, {}, None);
    BackoffIs();
  }

  lemma FiveEvents(a: Event, b: Event, d: Event, e: Event, c: Event)
    ensures [a] + [b, d, e, c] == [a, b, d, e, c] && [b] + [d, e, c] == [b, d, e, c]
    ensures [d] + [e, c] == [d, e, c] && [e] + [c] == [e, c] && [a, b] + [d, e] + [c] == [a, b, d, e, c]
  {
  }

  /** Such a state is reached from launch: a healthy tick, and a crash a second later. */
  lemma StaleReached()
    ensures var es := [EStart(false, false), ETick(true, 0, 0.0)] + Crash(1, 1.0) + [EDelayed(0, false)];
            && CanRun(INITIAL, es) && Launched(Run(INITIAL, es), 2) && LongSinceHealthy(Run(INITIAL, es), 60.0)
  {
    var a, b, c := EStart(false, false), ETick(true, 0, 0.0), EDelayed(0, false);
    var d, e := EDie(1), EExit(1, 1, 1.0, "Agent exited with code 1");
    var s1, s2, s3, s4 := StaleStates();
    Relaunch(s4, 1, 5);
    RunOne(s4, c);
    RunCons(s3, e, [c]);
    RunCons(s2, d, [e, c]);
    RunCons(s1, b, [d, e, c]);
    RunCons(INITIAL, a, [b, d, e, c]);
    FiveEvents(a, b, d, e, c);
  }

  lemma CrashWaits(s: Sup, id: nat, now: real, rest: seq<Event>, t: Sup)
    requires Launched(s, id) && CanRun(t, rest) && Waits(t, rest, 5)
    requires t == TryAutoRestart(s.(children := Children(id, {}, {}, None)), now, "Agent exited with code 1")
    ensures CanRun(s, Crash(id, now) + rest) && Waits(s, Crash(id, now) + rest, 5)
  {
    var a, b := EDie(id), EExit(id, 1, now, "Agent exited with code 1");
    var s1 := Step(s, a);
    assert s1.children == Children(id, {}, {id}, Some(id));
    assert s1.children.Reap(id) == Children(id, {}, {}, None);
    WaitsCons(s1, b, rest, 5);
    WaitsCons(s, a, [b] + rest, 5);
    assert [a] + ([b] + rest) == Crash(id, now) + rest;
  }

  /** Crashes of an agent that was never healthy: each restart counts. */
  lemma {:induction false} NeverHealthyCounts(s: Sup, id: nat, times: seq<real>)
    requires Launched(s, id) && s.lastHealthy.None? && s.restarts + |times| <= MAX_AUTO_RESTARTS
    ensures CanRun(s, CrashLoop(id, times))
    ensures var t := Run(s, CrashLoop(id, times));
            Launched(t, id + |times|) && t.lastHealthy.None? && t.restarts == s.restarts + |times|
    decreases |times|
  {
    if times != [] {
      var more := CrashLoop(id + 1, times[1..]);
      var t := CrashStep(s, id, times[0], [EDelayed(0, false)] + more);
      Relaunch(t, id, Backoff(s.restarts + 1));
      NeverHealthyCounts(Step(t, EDelayed(0, false)), id + 1, times[1..]);
      RunCons(t, EDelayed(0, false), more);
    }
  }

  lemma FreshCrash(s: Sup, now: real, reason: string, k: nat)
    requires s.lastHealthy.None? && s.restarts == k <= 3 && s.tasks.delayed == []
    ensures var t := TryAutoRestart(s, now, reason);
            if k == 3 then t.state.Failed? && t.tasks.delayed == []
            else t.state.Starting? && t.tasks.delayed == [[5, 10, 20][k]]
  {
    BackoffIs();
  }

  /** From launch: an agent that is started, never becomes healthy and crashes at whatever times
      is restarted after 5, 10 and 20 seconds, and given up at exactly the fourth crash. */
  lemma NeverHealthyGivesUp(times: seq<real>, now: real)
    requires |times| <= 3
    ensures var es := [EStart(false, false)] + CrashLoop(1, times);
            && CanRun(INITIAL, es) && CanRun(Run(INITIAL, es), Crash(1 + |times|, now))
            && var t := Run(Run(INITIAL, es), Crash(1 + |times|, now));
               if |times| == 3 then t.state.Failed? && t.tasks.delayed == []
               else t.state.Starting? && t.tasks.delayed == [[5, 10, 20][|times|]]
  {
    var e := EStart(false, false);
    var s := Step(INITIAL, e);
    assert s.children == Children(1, {1}, {}, Some(1));
    NeverHealthyCounts(s, 1, times);
    RunCons(INITIAL, e, CrashLoop(1, times));
    var u := Run(s, CrashLoop(1, times));
    var t := CrashStep(u, 1 + |times|, now, []);
    FreshCrash(u.(children := Children(1 + |times|, {}, {}, None)), now, "Agent exited with code 1", |times|);
    assert Crash(1 + |times|, now) + [] == Crash(1 + |times|, now);
  }

  // ----- stuck in Starting -----

  /** Neither the user stops or forces a restart, nor is monitoring switched on again. */
  predicate NoRescue(es: seq<Event>) {
    forall i :: 0 <= i < |es| ==> !es[i].EStopBegin? && !es[i].EForce? && !es[i].EMonitor?
  }

  /** Starting, and nothing that happens changes anything any more. */
  ghost predicate Stuck(s: Sup) {
    s.state.Starting? && forall es :: NoRescue(es) && CanRun(s, es) ==> Run(s, es) == s
  }

  /** No health loop, no scheduled work and no child. */
  predicate Idle(s: Sup) {
    && !s.healthLoop && s.tasks == NO_TASKS
    && s.children.alive == {} && s.children.ended == {}
  }

  lemma {:induction false} IdleInert(s: Sup, es: seq<Event>)
    requires s.state.Starting? && Idle(s) && NoRescue(es) && CanRun(s, es)
    ensures Run(s, es) == s
    decreases |es|
  {
    if es != [] {
      assert !es[0].EStopBegin? && !es[0].EForce? && !es[0].EMonitor?;
      assert Step(s, es[0]) == s;
      assert NoRescue(es[1..]);
      IdleInert(s, es[1..]);
    }
  }

  /** Whatever is still going on changes something. */
  lemma BusyMoves(s: Sup) returns (e: Event)
    requires s.state.Starting? && !Idle(s)
    ensures NoRescue([e]) && Enabled(s, e) && Step(s, e) != s
  {
    if s.healthLoop {
      e := ETick(true, 0, 0.0);
    } else if s.tasks.adoptions > 0 {
      e := EAdopt(0, 0.0);
    } else if s.tasks.probes > 0 {
      e := EProbe(true, 0, 0.0, "");
    } else if s.tasks.delayed != [] {
      e := EDelayed(0, true);
      assert |Without(s.tasks.delayed, 0)| < |s.tasks.delayed|;
    } else if s.tasks.stops != [] {
      e := EStopEnd(0);
      assert |Without(s.tasks.stops, 0)| < |s.tasks.stops|;
    } else if s.tasks.releases > 0 {
      e := EStopFinish;
    } else if s.tasks.forces > 0 {
      e := EForceFinish(true, false);
    } else if s.children.alive != {} {
      var id :| id in s.children.alive;
      e := EDie(id);
      assert id !in Step(s, e).children.alive;
    } else {
      var id :| id in s.children.ended;
      e := EExit(id, 1, 0.0, "");
      assert id !in Step(s, e).children.ended;
    }
  }

  /** The supervisor is stuck in Starting exactly when nothing is left that could act. */
  lemma StuckIff(s: Sup)
    requires s.state.Starting?
    ensures Stuck(s) <==> Idle(s)
  {
    if Idle(s) {
      forall es | NoRescue(es) && CanRun(s, es) ensures Run(s, es) == s { IdleInert(s, es); }
    } else {
      var e := BusyMoves(s);
      RunOne(s, e);
    }
  }

  /** A user start leaves the supervisor stuck exactly when its launch throws while neither a
      health loop nor scheduled work nor a child is left. */
  lemma StartSticksIff(s: Sup, healthy: bool, throws: bool)
    requires s.state.Stopped? || s.state.Failed?
    ensures Stuck(Start(s, healthy, throws).0) <==> !healthy && throws && Idle(s)
  {
    var t := Start(s, healthy, throws).0;
    if t.state.Starting? { StuckIff(t); }
  }

  /** From launch, a first start that throws does. */
  lemma FirstStartSticks()
    ensures Stuck(Step(INITIAL, EStart(false, true)))
  {
    StartSticksIff(INITIAL, false, true);
  }

  /** Starting again does not help then; stopping or forcing a restart does. */
  lemma StuckNeedsStop(s: Sup, healthy: bool, throws: bool)
    requires Stuck(s) && ChildrenOk(s.children)
    ensures Start(s, healthy, throws) == (s, AlreadyRunning)
    ensures StopBegin(s).tasks.releases > 0 && StopFinish(StopBegin(s)).state.Stopped?
    ensures !throws ==> !Stuck(ForceFinish(ForceBegin(s), healthy, throws).0)
  {
    StuckIff(s);
    var t := ForceFinish(ForceBegin(s), healthy, throws).0;
    if t.state.Starting? { StuckIff(t); }
  }

  // ----- when a stop lasts -----

  /** What happens without the user or the launch of the app. */
  predicate ByItself(es: seq<Event>) {
    forall i :: 0 <= i < |es| ==>
      !es[i].EStart? && !es[i].EForce? && !es[i].EStopBegin? && !es[i].EReconcile? && !es[i].EMonitor?
  }

  ghost predicate StaysStopped(s: Sup) {
    s.state.Stopped? && forall es :: ByItself(es) && CanRun(s, es) ==> Run(s, es).state.Stopped?
  }

  predicate Quiet(s: Sup) {
    && s.tasks.adoptions == 0 && s.tasks.probes == 0 && s.tasks.forces == 0
    && s.children.alive == {} && s.children.ended == {}
  }

  lemma {:induction false} QuietStays(s: Sup, es: seq<Event>)
    requires s.state.Stopped? && Quiet(s) && ByItself(es) && CanRun(s, es)
    ensures Run(s, es).state.Stopped?
    decreases |es|
  {
    if es != [] {
      var e := es[0];
      assert !e.EStart? && !e.EForce? && !e.EStopBegin? && !e.EReconcile? && !e.EMonitor?;
      assert Step(s, e).state.Stopped? && Quiet(Step(s, e));
      assert ByItself(es[1..]);
      QuietStays(Step(s, e), es[1..]);
    }
  }

  lemma LoudMoves(s: Sup) returns (es: seq<Event>)
    requires s.state.Stopped? && (s.tasks.forces == 0 ==> !s.expectingExit) && !Quiet(s)
    ensures ByItself(es) && CanRun(s, es) && !Run(s, es).state.Stopped?
  {
    if s.tasks.forces > 0 {
      es := [EForceFinish(false, true)];
      RunOne(s, EForceFinish(false, true));
    } else if s.tasks.adoptions > 0 {
      es := [EAdopt(0, 0.0)];
      RunOne(s, EAdopt(0, 0.0));
    } else if s.tasks.probes > 0 {
      es := [EProbe(true, 0, 0.0, "")];
      RunOne(s, EProbe(true, 0, 0.0, ""));
    } else if s.children.ended != {} {
      var id :| id in s.children.ended;
      es := [EExit(id, 1, 0.0, "")];
      RunOne(s, EExit(id, 1, 0.0, ""));
    } else {
      var id :| id in s.children.alive;
      var t := Step(s, EDie(id));
      assert id in t.children.ended;
      RunOne(t, EExit(id, 1, 0.0, ""));
      RunCons(s, EDie(id), [EExit(id, 1, 0.0, "")]);
      es := [EDie(id)] + [EExit(id, 1, 0.0, "")];
    }
  }

  /** Stopped stays stopped, until the user acts, exactly when no adoption, no poll and no
      forced restart is pending and no child is left whose exit handler has still to run. */
  lemma StopLastsIff(s: Sup)
    requires s.state.Stopped? && (s.tasks.forces == 0 ==> !s.expectingExit)
    ensures StaysStopped(s) <==> Quiet(s)
  {
    if Quiet(s) {
      forall es | ByItself(es) && CanRun(s, es) ensures Run(s, es).state.Stopped? { QuietStays(s, es); }
    } else {
      var es := LoudMoves(s);
    }
  }

  /** So a stop lasts exactly when that is so at the moment the port has been released. */
  lemma StopFinishLastsIff(s: Sup)
    requires s.tasks.releases > 0
    ensures StaysStopped(StopFinish(s)) <==> Quiet(s)
  {
    StopLastsIff(StopFinish(s));
  }

  /** A stop waits for child id, and nothing else is going on. */
  ghost predicate StopWaits(s: Sup, id: nat) {
    && s.state.Stopping? && s.expectingExit && s.children == Children(id, {id}, {}, Some(id))
    && s.tasks == NO_TASKS.(stops := [id])
  }

  lemma StopKills(s: Sup, id: nat) returns (t: Sup)
    requires StopWaits(s, id)
    ensures Enabled(s, EStopEnd(0)) && t == Step(s, EStopEnd(0)) && t.expectingExit
    ensures t.children == Children(id, {}, {id}, None) && t.tasks == NO_TASKS.(releases := 1)
  {
    t := Step(s, EStopEnd(0));
    assert Without([id], 0) == [];
    assert s.children.Die(id) == Children(id, {}, {id}, Some(id));
  }

  /** A stop that kills its child lasts if the child's exit handler runs before the port has
      been released: the exit is then expected. */
  lemma KillingStopLasts(s: Sup, id: nat, code: int, now: real, reason: string)
    requires StopWaits(s, id)
    ensures var es := [EStopEnd(0), EExit(id, code, now, reason), EStopFinish];
            CanRun(s, es) && StaysStopped(Run(s, es))
  {
    var a, b, c := EStopEnd(0), EExit(id, code, now, reason), EStopFinish;
    var t := StopKills(s, id);
    var u := Step(t, b);
    assert u.children == Children(id, {}, {}, None);
    StopFinishLastsIff(u);
    RunOne(u, c);
    RunCons(t, b, [c]);
    RunCons(s, a, [b, c]);
    assert [b] + [c] == [b, c] && [a] + [b, c] == [a, b, c];
  }

  /** ... and not if it runs after that: nothing expects the exit any more. */
  lemma KillingStopUndone(s: Sup, id: nat)
    requires StopWaits(s, id)
    ensures var es := [EStopEnd(0), EStopFinish];
            CanRun(s, es) && Run(s, es).state.Stopped? && !StaysStopped(Run(s, es))
  {
    var a, b := EStopEnd(0), EStopFinish;
    var t := StopKills(s, id);
    assert id in t.children.ended;
    StopFinishLastsIff(t);
    RunOne(t, b);
    RunCons(s, a, [b]);
    assert [a] + [b] == [a, b];
  }

  /** Stops wait like this after the first start. */
  lemma StopWaitReached()
    ensures var es := [EStart(false, false), EStopBegin];
            CanRun(INITIAL, es) && StopWaits(Run(INITIAL, es), 1)
  {
    var a, b := EStart(false, false), EStopBegin;
    var s1 := Step(INITIAL, a);
    assert s1.children == Children(1, {1}, {}, Some(1));
    RunOne(s1, b);
    RunCons(INITIAL, a, [b]);
    assert [a] + [b] == [a, b];
  }

  // ----- one live child -----

  /** The only child alive is the one that the supervisor holds. */
  ghost predicate Tracked(c: Children) {
    forall id :: id in c.alive ==> c.process == Some(id)
  }

  /** The event makes the supervisor forget a living child: the exit handler of an earlier one,
      or the end of a stop that waited for an earlier one. */
  predicate Forgets(s: Sup, e: Event)
    requires Enabled(s, e)
  {
    s.children.Running() && (e.EExit? || (e.EStopEnd? && s.tasks.stops[e.i] != s.children.process.value))
  }

  /** One step keeps all living children in hand exactly when it forgets none. */
  lemma TrackedIff(s: Sup, e: Event)
    requires Enabled(s, e) && ChildrenOk(s.children) && Tracked(s.children)
    ensures Tracked(Step(s, e).children) <==> !Forgets(s, e)
  {
    ChildrenMove(s, e);
    var c, d := s.children, Step(s, e).children;
    if Forgets(s, e) {
      assert c.process.value in d.alive && d.process.None?;
    }
  }

  ghost predicate TrackedThroughout(s: Sup, es: seq<Event>)
    requires CanRun(s, es)
    decreases |es|
  {
    Tracked(s.children) && (es == [] || TrackedThroughout(Step(s, es[0]), es[1..]))
  }

  predicate NeverForgets(s: Sup, es: seq<Event>)
    requires CanRun(s, es)
    decreases |es|
  {
    es == [] || (!Forgets(s, es[0]) && NeverForgets(Step(s, es[0]), es[1..]))
  }

  /** Over a run every living child is in hand throughout, so that at most one lives, exactly
      when no step forgets one. */
  lemma {:induction false} RunTrackedIff(s: Sup, es: seq<Event>)
    requires CanRun(s, es) && ChildrenOk(s.children) && Tracked(s.children)
    ensures TrackedThroughout(s, es) <==> NeverForgets(s, es)
    decreases |es|
  {
    if es != [] {
      StepChildren(s, es[0]);
      TrackedIff(s, es[0]);
      if !Forgets(s, es[0]) { RunTrackedIff(Step(s, es[0]), es[1..]); }
    }
  }

  lemma TrackedIsOne(c: Children)
    requires Tracked(c)
    ensures |c.alive| <= 1
  {
    if id :| id in c.alive {
      assert c.alive == {id};
    }
  }

  /** Some event that can come next forgets a living child. */
  ghost predicate CanForget(s: Sup) {
    exists e :: Enabled(s, e) && Forgets(s, e)
  }

  lemma CanForgetIff(s: Sup)
    ensures CanForget(s) <==>
              && s.children.Running()
              && (s.children.ended != {}
                  || exists i :: 0 <= i < |s.tasks.stops| && s.tasks.stops[i] != s.children.process.value)
  {
    if s.children.Running() {
      if s.children.ended != {} {
        var id :| id in s.children.ended;
        assert Enabled(s, EExit(id, 1, 0.0, "")) && Forgets(s, EExit(id, 1, 0.0, ""));
      }
      if i :| 0 <= i < |s.tasks.stops| && s.tasks.stops[i] != s.children.process.value {
        assert Enabled(s, EStopEnd(i)) && Forgets(s, EStopEnd(i));
      }
    }
  }

  /** The child that a forced restart launches can be forgotten exactly when, as the port has
      been released, the exit handler of an earlier child has still to run, or a stop still
      waits for one. */
  lemma ForcedChildIff(s: Sup)
    requires s.tasks.forces > 0 && StopsOk(s) && !s.children.Running()
    ensures CanForget(ForceFinish(s, false, false).0) <==> s.children.ended != {} || s.tasks.stops != []
  {
    var t := ForceFinish(s, false, false).0;
    assert t.children == s.children.Spawn() && t.tasks.stops == s.tasks.stops;
    CanForgetIff(t);
    if s.tasks.stops != [] {
      assert t.tasks.stops[0] != t.children.process.value;
    }
  }

  /** The supervisor holds child id, the only one, and no stop waits for another. */
  ghost predicate Holds(s: Sup, id: nat) {
    s.children == Children(id, {id}, {}, Some(id)) && s.tasks.stops == []
  }

  lemma ForceKills(s: Sup, id: nat) returns (t: Sup)
    requires Holds(s, id)
    ensures t == Step(s, EForce) && t.expectingExit && t.children == Children(id, {}, {id}, None)
    ensures t.tasks == s.tasks.(forces := s.tasks.forces + 1)
  {
    t := Step(s, EForce);
    assert s.children.Die(id) == Children(id, {}, {id}, Some(id));
  }

  /** A forced restart whose killed child's exit handler runs before the port has been released
      ends with one living child, in hand and not to be forgotten, and schedules nothing. */
  lemma ForcedRestartClean(s: Sup, id: nat, code: int, now: real, reason: string)
    requires Holds(s, id)
    ensures var es := [EForce, EExit(id, code, now, reason), EForceFinish(false, false)];
            && CanRun(s, es)
            && var t := Run(s, es);
               && Holds(t, id + 1) && !CanForget(t) && t.state.Starting? && !t.expectingExit
               && t.tasks == s.tasks && t.history.autoRestarts == s.history.autoRestarts
  {
    var a, b, c := EForce, EExit(id, code, now, reason), EForceFinish(false, false);
    var t := ForceKills(s, id);
    var u := Step(t, b);
    assert u.children == Children(id, {}, {}, None) && u.tasks == t.tasks;
    var v := Step(u, c);
    assert v.children == Children(id + 1, {id + 1}, {}, Some(id + 1));
    CanForgetIff(v);
    RunOne(u, c);
    RunCons(t, b, [c]);
    RunCons(s, a, [b, c]);
    assert [b] + [c] == [b, c] && [a] + [b, c] == [a, b, c];
  }

  lemma ForceRelaunches(s: Sup, id: nat) returns (t: Sup, u: Sup)
    requires Holds(s, id)
    ensures t == Step(s, EForce) && Enabled(t, EForceFinish(false, false)) && u == Step(t, EForceFinish(false, false))
    ensures u.children == Children(id + 1, {id + 1}, {id}, Some(id + 1)) && u.tasks == s.tasks
    ensures u.state.Starting? && !u.expectingExit && u.restarts == 0
  {
    t := ForceKills(s, id);
    u := Step(t, EForceFinish(false, false));
    assert t.children.Spawn() == Children(id + 1, {id + 1}, {id}, Some(id + 1));
  }

  lemma LateHandler(s: Sup, id: nat, code: int, now: real, reason: string) returns (t: Sup, u: Sup)
    requires s.children == Children(id + 1, {id + 1}, {id}, Some(id + 1)) && s.tasks.delayed == []
    requires !s.expectingExit && s.restarts == 0 && code != 0
    ensures Enabled(s, EExit(id, code, now, reason)) && t == Step(s, EExit(id, code, now, reason))
    ensures Enabled(t, EDelayed(0, false)) && u == Step(t, EDelayed(0, false))
    ensures u.children.alive == {id + 1, id + 2}
  {
    t := Step(s, EExit(id, code, now, reason));
    assert s.children.Reap(id) == Children(id + 1, {id + 1}, {}, None);
    u := Step(t, EDelayed(0, false));
    assert t.children.Spawn().alive == {id + 1, id + 2};
  }

  /** If it runs after that, the forced restart has stopped expecting the exit: the handler
      drops the new child and schedules a restart, and two children live. */
  lemma ForcedRestartTwins(s: Sup, id: nat, code: int, now: real, reason: string)
    requires Holds(s, id) && s.tasks.delayed == [] && code != 0
    ensures var es := [EForce, EForceFinish(false, false), EExit(id, code, now, reason), EDelayed(0, false)];
            CanRun(s, es) && Run(s, es).children.alive == {id + 1, id + 2}
  {
    var a, b, c, d := EForce, EForceFinish(false, false), EExit(id, code, now, reason), EDelayed(0, false);
    var s1, s2 := ForceRelaunches(s, id);
    var s3, s4 := LateHandler(s2, id, code, now, reason);
    RunOne(s3, d);
    RunCons(s2, c, [d]);
    RunCons(s1, b, [c, d]);
    RunCons(s, a, [b, c, d]);
    assert [c] + [d] == [c, d] && [b] + [c, d] == [b, c, d] && [a] + [b, c, d] == [a, b, c, d];
  }

  /** The first start leads to such a state. */
  lemma HoldReached()
    ensures var es := [EStart(false, false)];
            CanRun(INITIAL, es) && Holds(Run(INITIAL, es), 1) && Run(INITIAL, es).tasks.delayed == []
  {
    RunOne(INITIAL, EStart(false, false));
    assert Step(INITIAL, EStart(false, false)).children == Children(1, {1}, {}, Some(1));
  }
}

module Supervisors {
  import opened Wrappers
  import opened SupervisorSteps

  class ServerProcess {
    var state: State
    var healthLoop: bool
    var consecutiveFailures: nat
    var autoRestartCount: nat
    var lastHealthyAt: Option<real>
    var expectingExit: bool
    /** The child that is held, and those that the operating system knows of. */
    var process: Option<nat>
    var launched: nat
    var alive: set<nat>
    var ended: set<nat>
    /** Scheduled work. */
    var adoptions: nat
    var probes: nat
    var delayed: seq<nat>
    var stops: seq<nat>
    var releases: nat
    var forces: nat
    ghost var history: History

    ghost function View(): Sup
      reads this
    {
      Sup(state, healthLoop, consecutiveFailures, autoRestartCount, lastHealthyAt, expectingExit,
          Children(launched, alive, ended, process), Tasks(adoptions, probes, delayed, stops, releases, forces),
          history)
    }

    /** What every step keeps. */
    ghost predicate Valid()
      reads this
    {
      Inv(View())
    }

    constructor ()
      ensures Valid() && View() == INITIAL
    {
      state, healthLoop := Stopped, false;
      consecutiveFailures, autoRestartCount, lastHealthyAt, expectingExit := 0, 0, None, false;
      process, launched, alive, ended := None, 0, {}, {};
      adoptions, probes, delayed, stops, releases, forces := 0, 0, [], [], 0, 0;
      history := History(0, 0, 0);
    }

    method Update(next: State)
      modifies this`state
      ensures state == next && View() == old(View()).(state := next)
    {
      if state != next {
        state := next;
      }
    }

    /** `process?.isRunning`. */
    predicate ProcessRunning()
      reads this
    {
      process.Some? && process.value in alive
    }

    predicate IsRunning()
      reads this
    {
      state.Running? || state.Unresponsive? || ProcessRunning()
    }

    /** A signal that no child survives. */
    method Kill(id: nat)
      modifies this`alive, this`ended
      ensures View().children == old(View()).children.Die(id)
    {
      if id in alive {
        alive, ended := alive - {id}, ended + {id};
      }
    }

    method Start(healthy: bool, throws: bool) returns (r: StartResult)
      modifies this
      ensures (View(), r) == SupervisorSteps.Start(old(View()), healthy, throws)
    {
      if state.Running? || state.Starting? || state.Unresponsive? {
        return AlreadyRunning;
      }
      if state.Failed? || state.Stopped? {
        autoRestartCount, consecutiveFailures := 0, 0;
        history := Renewed(history);
      }
      if healthy {
        adoptions := adoptions + 1;
        return AlreadyRunning;
      }
      Update(Starting);
      var launched, threw := DoStart(throws);
      r := if threw then Threw else Started;
    }

    method DoStart(throws: bool) returns (spawned: bool, threw: bool)
      modifies this`process, this`launched, this`alive, this`healthLoop
      ensures (View(), spawned) == Launch(old(View()), throws)
      ensures threw <==> throws && !old(ProcessRunning())
    {
      if ProcessRunning() {
        return false, false;
      }
      if throws {
        return false, true;
      }
      launched := launched + 1;
      alive := alive + {launched};
      process := Some(launched);
      healthLoop := true;
      return true, false;
    }

    method StopBegin()
      modifies this
      ensures View() == SupervisorSteps.StopBegin(old(View()))
    {
      CancelHealthLoop();
      if IsRunning() || state.Starting? {
        state := Stopping;
        expectingExit := true;
        if ProcessRunning() {
          stops := stops + [process.value];
          return;
        }
      }
      Release();
    }

    method Release()
      modifies this`process, this`releases
      ensures View() == SupervisorSteps.Release(old(View()))
    {
      process := None;
      releases := releases + 1;
    }

    method StopEnd(i: nat)
      requires i < |stops|
      modifies this
      ensures View() == SupervisorSteps.StopEnd(old(View()), i)
    {
      var waitedFor := stops[i];
      stops := stops[..i] + stops[i + 1..];
      Kill(waitedFor);
      Release();
    }

    method StopFinish()
      requires releases > 0
      modifies this
      ensures View() == SupervisorSteps.StopFinish(old(View()))
    {
      releases := releases - 1;
      expectingExit := false;
      Update(Stopped);
    }

    method CancelHealthLoop()
      modifies this`healthLoop
      ensures View() == old(View()).(healthLoop := false)
    {
      healthLoop := false;
    }

    method KillProcess()
      modifies this`process, this`alive, this`ended
      ensures View() == old(View()).(children := Killed(old(View()).children).Dropped())
    {
      if process.Some? {
        Kill(process.value);
      }
      process := None;
    }

    method ForceBegin()
      modifies this
      ensures View() == SupervisorSteps.ForceBegin(old(View()))
    {
      expectingExit := true;
      CancelHealthLoop();
      KillProcess();
      forces := forces + 1;
    }

    method ForceFinish(healthy: bool, throws: bool) returns (r: StartResult)
      requires forces > 0
      modifies this
      ensures (View(), r) == SupervisorSteps.ForceFinish(old(View()), healthy, throws)
    {
      Clear();
      r := Start(healthy, throws);
    }

    /** The rest of a forced restart up to its start. */
    method Clear()
      requires forces > 0
      modifies this
      ensures View() == Cleared(old(View()))
    {
      forces := forces - 1;
      autoRestartCount, consecutiveFailures := 0, 0;
      expectingExit := false;
      Update(Stopped);
    }

    method HandleProcessExit(id: nat, code: int, now: real, reason: string)
      modifies this
      ensures View() == HandleExit(old(View()), id, code, now, reason)
    {
      ended := ended - {id};
      var wasExpecting := expectingExit;
      expectingExit := false;
      process := None;
      if wasExpecting {
        Update(Stopped);
        return;
      }
      if code == 0 {
        probes := probes + 1;
        return;
      }
      TryAutoRestart(now, reason);
    }

    /** The end of the polling after an exit with code 0. */
    method ProbeDone(healthy: bool, ownerPid: int, now: real, reason: string)
      requires probes > 0
      modifies this
      ensures View() == SupervisorSteps.ProbeDone(old(View()), healthy, ownerPid, now, reason)
    {
      probes := probes - 1;
      if healthy {
        AdoptHealthyListener(ownerPid, now);
      } else {
        TryAutoRestart(now, reason);
      }
    }

    method TryAutoRestart(now: real, reason: string)
      modifies this`state, this`healthLoop, this`autoRestartCount, this`delayed, this`history
      ensures View() == SupervisorSteps.TryAutoRestart(old(View()), now, reason)
    {
      if lastHealthyAt.Some? && now - lastHealthyAt.value >= STABLE_THRESHOLD {
        autoRestartCount := 0;
        history := Renewed(history);
      }
      if autoRestartCount >= MAX_AUTO_RESTARTS {
        Update(Failed(reason));
        BeginPortMonitoring();
        return;
      }
      ScheduleRestart();
    }

    method ScheduleRestart()
      modifies this`state, this`autoRestartCount, this`delayed, this`history
      ensures View() == Schedule(old(View()))
    {
      autoRestartCount := autoRestartCount + 1;
      history := history.(autoRestarts := history.autoRestarts + 1);
      var backoff := Backoff(autoRestartCount);
      Update(Starting);
      delayed := delayed + [backoff];
    }

    /** A scheduled restart comes due. */
    method DelayedRestart(i: nat, throws: bool)
      requires i < |delayed|
      modifies this
      ensures View() == SupervisorSteps.DelayedRestart(old(View()), i, throws)
    {
      delayed := delayed[..i] + delayed[i + 1..];
      if !state.Starting? {
        return;
      }
      var spawned, _ := DoStart(throws);
      if spawned {
        history := history.(autoLaunches := history.autoLaunches + 1);
      }
    }

    method BeginPortMonitoring()
      modifies this`healthLoop
      ensures View() == Step(old(View()), EMonitor)
    {
      healthLoop := true;
    }

    method ReconcileListeningPort(adoptOrphan: bool, healthy: bool)
      modifies this`adoptions
      ensures View() == Reconcile(old(View()), adoptOrphan, healthy)
    {
      if !adoptOrphan {
        return;
      }
      if !(state.Stopped? || state.Failed?) {
        return;
      }
      if healthy {
        adoptions := adoptions + 1;
      }
    }

    /** A scheduled adoption runs. */
    method RunAdoption(ownerPid: int, now: real)
      requires adoptions > 0
      modifies this
      ensures View() == SupervisorSteps.RunAdoption(old(View()), ownerPid, now)
    {
      adoptions := adoptions - 1;
      AdoptHealthyListener(ownerPid, now);
    }

    method AdoptHealthyListener(ownerPid: int, now: real)
      modifies this`state, this`healthLoop, this`autoRestartCount, this`consecutiveFailures, this`lastHealthyAt,
          this`history
      ensures View() == Adopt(old(View()), ownerPid, now)
    {
      autoRestartCount, consecutiveFailures := 0, 0;
      history := Renewed(history);
      lastHealthyAt := Some(now);
      Update(Running(ClampPid(ownerPid)));
      healthLoop := true;
    }

    method TickHealth(healthy: bool, ownerPid: int, now: real)
      modifies this`state, this`healthLoop, this`autoRestartCount, this`consecutiveFailures, this`lastHealthyAt,
          this`history
      ensures View() == Tick(old(View()), healthy, ownerPid, now)
    {
      match state {
        case Starting =>
          if healthy {
            consecutiveFailures := 0;
            lastHealthyAt := Some(now);
            var pid := if ProcessRunning() then process.value else ownerPid;
            Update(Running(ClampPid(pid)));
          }
        case Failed(_) =>
          if healthy {
            AdoptHealthyListener(ownerPid, now);
          }
        case Running(pid) =>
          if healthy {
            consecutiveFailures := 0;
            lastHealthyAt := Some(now);
          } else {
            consecutiveFailures := consecutiveFailures + 1;
            if consecutiveFailures >= MAX_HEALTH_FAILURES {
              Update(Unresponsive(pid));
            }
          }
        case Unresponsive(pid) =>
          if healthy {
            consecutiveFailures := 0;
            lastHealthyAt := Some(now);
            Update(Running(pid));
          } else {
            consecutiveFailures := consecutiveFailures + 1;
          }
        case Stopped =>
        case Stopping =>
      }
    }

    /** One step of any kind, as the run loop takes them. */
    method Take(e: Event)
      requires Valid() && Enabled(View(), e)
      modifies this
      ensures Valid() && View() == Step(old(View()), e)
    {
      StepInv(View(), e);
      match e {
        case EStart(healthy, throws) => var _ := Start(healthy, throws);
        case EAdopt(pid, now) => RunAdoption(pid, now);
        case EDie(id) => Kill(id);
        case EExit(id, code, now, reason) => HandleProcessExit(id, code, now, reason);
        case EProbe(healthy, pid, now, reason) => ProbeDone(healthy, pid, now, reason);
        case EDelayed(i, throws) => DelayedRestart(i, throws);
        case EStopBegin => StopBegin();
        case EStopEnd(i) => StopEnd(i);
        case EStopFinish => StopFinish();
        case EForce => ForceBegin();
        case EForceFinish(healthy, throws) => var _ := ForceFinish(healthy, throws);
        case ETick(healthy, pid, now) => TickHealth(healthy, pid, now);
        case EReconcile(adoptOrphan, healthy) => ReconcileListeningPort(adoptOrphan, healthy);
        case EMonitor => BeginPortMonitoring();
      }
    }
  }
}
