/** What the events of the supervisor do to each part of its state, in terms of the events alone,
    and what that comes to over a run: no scheduled work is lost or invented. */
module SupervisorLaws {
  import opened Wrappers
  import opened SupervisorSteps

  /** The last healthy check lies a minute or more back. */
  predicate Stale(s: Sup, now: real) {
    s.lastHealthy.Some? && now >= s.lastHealthy.value + 60.0
  }

  /** A user start is not turned away. */
  predicate Startable(s: Sup) {
    s.state.Stopped? || s.state.Stopping? || s.state.Failed?
  }

  predicate HeldLives(s: Sup) {
    s.children.process.Some? && s.children.process.value in s.children.alive
  }

  /** A child ends with code 0 and nobody expected it to. */
  predicate CleanExit(s: Sup, e: Event) {
    e.EExit? && e.code == 0 && !s.expectingExit
  }

  /** A child fails: it ends with another code, or a clean end leaves the port dead. */
  predicate Failure(s: Sup, e: Event) {
    (e.EExit? && e.code != 0 && !s.expectingExit) || (e.EProbe? && !e.healthy)
  }

  function When(e: Event): real {
    match e
    case EExit(_, _, now, _) => now
    case EProbe(_, _, now, _) => now
    case _ => 0.0
  }

  /** A failure that is not restarted: the budget is spent and the last healthy check recent. */
  predicate Final(s: Sup, e: Event) {
    Failure(s, e) && s.restarts >= 3 && !Stale(s, When(e))
  }

  /** A healthy agent that nobody here launched is taken over. */
  predicate Adopts(s: Sup, e: Event) {
    || e.EAdopt?
    || (e.EProbe? && e.healthy)
    || (e.ETick? && e.healthy && s.state.Failed?)
  }

  predicate AsksAdoption(s: Sup, e: Event) {
    || (e.EStart? && e.healthy && Startable(s))
    || (e.EForceFinish? && e.healthy)
    || (e.EReconcile? && e.adoptOrphan && e.healthy && (s.state.Stopped? || s.state.Failed?))
  }

  predicate Launches(s: Sup, e: Event) {
    && !HeldLives(s)
    && match e
       case EStart(healthy, throws) => Startable(s) && !healthy && !throws
       case EForceFinish(healthy, throws) => !healthy && !throws
       case EDelayed(_, throws) => s.state.Starting? && !throws
       case _ => false
  }

  /** A stop finds something to stop. */
  predicate Stops(s: Sup, e: Event) {
    e.EStopBegin? && (s.state.Running? || s.state.Unresponsive? || s.state.Starting? || HeldLives(s))
  }

  // ----- work -----

  /** A poll of the port is begun by exactly a clean exit that nobody expected. */
  lemma PollsMove(s: Sup, e: Event)
    requires Enabled(s, e)
    ensures Step(s, e).tasks.probes ==
              s.tasks.probes + (if CleanExit(s, e) then 1 else 0) - (if e.EProbe? then 1 else 0)
  {
  }

  lemma AdoptionsMove(s: Sup, e: Event)
    requires Enabled(s, e)
    ensures Step(s, e).tasks.adoptions ==
              s.tasks.adoptions + (if AsksAdoption(s, e) then 1 else 0) - (if e.EAdopt? then 1 else 0)
  {
  }

  /** The delay of the k-th automatic restart on one budget. */
  function DelayOf(k: nat): nat {
    if k <= 1 then 5 else if k == 2 then 10 else 20
  }

  /** A restart is scheduled by exactly a failure that is not final. */
  lemma DelayedMove(s: Sup, e: Event)
    requires Enabled(s, e) && s.restarts <= 3
    ensures Step(s, e).tasks.delayed ==
              if e.EDelayed? then s.tasks.delayed[..e.i] + s.tasks.delayed[e.i + 1..]
              else if Failure(s, e) && !Final(s, e) then
                s.tasks.delayed + [DelayOf(if Stale(s, When(e)) then 1 else s.restarts + 1)]
              else s.tasks.delayed
  {
    BackoffIs();
  }

  /** A stop waits for the child it found alive, and otherwise at once for the port; in the end
      every stop waits for the port. */
  lemma StopsMove(s: Sup, e: Event)
    requires Enabled(s, e)
    ensures Step(s, e).tasks.stops ==
              if e.EStopBegin? && HeldLives(s) then s.tasks.stops + [s.children.process.value]
              else if e.EStopEnd? then s.tasks.stops[..e.i] + s.tasks.stops[e.i + 1..]
              else s.tasks.stops
    ensures Step(s, e).tasks.releases ==
              s.tasks.releases + (if e.EStopEnd? || (e.EStopBegin? && !HeldLives(s)) then 1 else 0)
              - (if e.EStopFinish? then 1 else 0)
    ensures Step(s, e).tasks.forces ==
              s.tasks.forces + (if e.EForce? then 1 else 0) - (if e.EForceFinish? then 1 else 0)
  {
  }

  // ----- children -----

  lemma LaunchesMove(s: Sup, e: Event)
    requires Enabled(s, e)
    ensures var c, d := s.children, Step(s, e).children;
            && d.launched == c.launched + (if Launches(s, e) then 1 else 0)
            && (Launches(s, e) ==> d.process == Some(d.launched) && d.alive == c.alive + {d.launched})
            && Step(s, e).history.autoLaunches ==
                 s.history.autoLaunches + (if e.EDelayed? && Launches(s, e) then 1 else 0)
  {
  }

  /** Who ends: a child that dies, the one that a stop waited for, and the one that a forced
      restart finds held. An end stays until its exit handler has run. */
  lemma EndsMove(s: Sup, e: Event)
    requires Enabled(s, e)
    ensures var c, d := s.children, Step(s, e).children;
            var gone := match e
              case EDie(id) => {id}
              case EStopEnd(i) => {s.tasks.stops[i]} * c.alive
              case EForce => if c.process.Some? then {c.process.value} * c.alive else {}
              case _ => {};
            && (!Launches(s, e) ==> d.alive == c.alive - gone)
            && d.ended == c.ended + gone - (if e.EExit? then {e.id} else {})
  {
  }

  /** The held child is let go of by an exit handler, by a stop that need not or no longer wait,
      and by a forced restart. */
  lemma HoldMoves(s: Sup, e: Event)
    requires Enabled(s, e) && !Launches(s, e)
    ensures Step(s, e).children.process ==
              if e.EExit? || e.EForce? || e.EStopEnd? || (e.EStopBegin? && !HeldLives(s)) then None
              else s.children.process
  {
  }

  // ----- counters and flags -----

  /** Failed health checks are counted in running and unresponsive, and forgotten by a healthy
      one, an adoption and a start. */
  lemma FailuresMove(s: Sup, e: Event)
    requires Enabled(s, e)
    ensures Step(s, e).failures ==
              if Adopts(s, e) || e.EForceFinish? || (e.EStart? && (s.state.Stopped? || s.state.Failed?)) then 0
              else if e.ETick? && e.healthy && !s.state.Stopped? && !s.state.Stopping? then 0
              else if e.ETick? && !e.healthy && (s.state.Running? || s.state.Unresponsive?) then s.failures + 1
              else s.failures
  {
  }

  /** Automatic restarts are counted up by each that is scheduled, and forgotten by an adoption,
      a start, and a failure a minute or more after the last healthy check. */
  lemma RestartsMove(s: Sup, e: Event)
    requires Enabled(s, e)
    ensures Step(s, e).restarts ==
              if Adopts(s, e) || e.EForceFinish? || (e.EStart? && (s.state.Stopped? || s.state.Failed?)) then 0
              else if Failure(s, e) && Stale(s, When(e)) then 1
              else if Failure(s, e) && !Final(s, e) then s.restarts + 1
              else s.restarts
  {
  }

  /** The health loop is switched on by a launch, an adoption, giving up and the launch of the
      app, and off by a stop and a forced restart. */
  lemma LoopMoves(s: Sup, e: Event)
    requires Enabled(s, e)
    ensures Step(s, e).healthLoop ==
              if Launches(s, e) || Adopts(s, e) || Final(s, e) || e.EMonitor? then true
              else if e.EStopBegin? || e.EForce? then false
              else s.healthLoop
  {
  }

  /** An exit is expected from the beginning of a forced restart, or of a stop that finds
      something to stop, until it is over or an exit has been handled. */
  lemma ExpectMoves(s: Sup, e: Event)
    requires Enabled(s, e)
    ensures Step(s, e).expectingExit ==
              if e.EForce? || Stops(s, e) then true
              else if e.EStopFinish? || e.EForceFinish? || e.EExit? then false
              else s.expectingExit
  {
  }

  function Pid(pid: int): int {
    if pid > 0 then pid else 0
  }

  /** The state after each event, the reason of a failure apart. */
  lemma StateMoves(s: Sup, e: Event)
    requires Enabled(s, e)
    ensures var t := Step(s, e).state;
            if Adopts(s, e) then
              t == Running(Pid(match e case EAdopt(pid, _) => pid case EProbe(_, pid, _, _) => pid
                                       case ETick(_, pid, _) => pid case _ => 0))
            else if Final(s, e) then t.Failed?
            else if Failure(s, e) then t.Starting?
            else match e
              case EStart(healthy, _) => if Startable(s) && !healthy then t.Starting? else t == s.state
              case EForceFinish(healthy, _) => if healthy then t.Stopped? else t.Starting?
              case EExit(_, _, _, _) => if s.expectingExit then t.Stopped? else t == s.state
              case EStopBegin => if Stops(s, e) then t.Stopping? else t == s.state
              case EStopFinish => t.Stopped?
              case ETick(healthy, pid, _) =>
                if s.state.Starting? && healthy then
                  t == Running(Pid(if HeldLives(s) then s.children.process.value else pid))
                else if s.state.Unresponsive? && healthy then t == Running(s.state.pid)
                else if s.state.Running? && !healthy && s.failures >= 2 then t == Unresponsive(s.state.pid)
                else t == s.state
              case _ => t == s.state
  {
  }

  /** What a user start answers: turned away, adopting, or launched or not. */
  lemma StartAnswers(s: Sup, healthy: bool, throws: bool)
    ensures Start(s, healthy, throws).1 ==
              if !Startable(s) || healthy then AlreadyRunning
              else if throws && !HeldLives(s) then Threw
              else Started
    ensures !Startable(s) ==> Start(s, healthy, throws).0 == s
  {
  }

  // ----- an exit with code 0 -----

  /** A clean exit that nobody expected begins a poll of the port and leaves state and counters
      alone. If the port then answers, the agent is adopted with a fresh budget; if not, it is
      restarted, or given up exactly when the budget is spent and health is recent or was never
      seen. */
  lemma CleanExitPolls(s: Sup, id: nat, now: real, reason: string, pid: int, later: real, why: string)
    requires Enabled(s, EExit(id, 0, now, reason)) && !s.expectingExit && s.restarts <= 3
    ensures var t := Step(s, EExit(id, 0, now, reason));
            && t == s.(children := t.children, tasks := s.tasks.(probes := s.tasks.probes + 1))
            && Enabled(t, EProbe(true, pid, later, why)) && Enabled(t, EProbe(false, pid, later, why))
            && var u, v := Step(t, EProbe(true, pid, later, why)), Step(t, EProbe(false, pid, later, why));
               && u.state == Running(Pid(pid)) && u.restarts == u.failures == 0 && u.healthLoop
               && u.lastHealthy == Some(later)
               && (v.state.Failed? <==> s.restarts == 3 && !Stale(s, later))
               && (!v.state.Failed? ==> v.state.Starting? && |v.tasks.delayed| == |s.tasks.delayed| + 1)
  {
    var t := Step(s, EExit(id, 0, now, reason));
    StateMoves(t, EProbe(false, pid, later, why));
    DelayedMove(t, EProbe(false, pid, later, why));
    RestartsMove(t, EProbe(true, pid, later, why));
  }

  /** A failure is given up exactly when the budget is spent and the last healthy check, if there
      was any, lies less than a minute back; otherwise it is restarted after 5, 10 or 20 seconds. */
  lemma FailureIff(s: Sup, e: Event)
    requires Enabled(s, e) && Failure(s, e) && s.restarts <= 3
    ensures var t, now := Step(s, e), When(e);
            && (t.state.Failed? <==>
                  s.restarts == 3 && (s.lastHealthy.None? || now - s.lastHealthy.value < 60.0))
            && (!t.state.Failed? ==>
                  && t.state.Starting? && 1 <= t.restarts <= 3
                  && t.tasks.delayed == s.tasks.delayed + [[5, 10, 20][t.restarts - 1]])
  {
    StateMoves(s, e);
    DelayedMove(s, e);
    RestartsMove(s, e);
  }

  // ----- over a run -----

  /** How many events of the run satisfy p in the state they meet. */
  function Count(p: (Sup, Event) -> bool, s: Sup, es: seq<Event>): nat
    requires CanRun(s, es)
    decreases |es|
  {
    if es == [] then 0 else (if p(s, es[0]) then 1 else 0) + Count(p, Step(s, es[0]), es[1..])
  }

  /** What one more event of a kind adds and one of another takes away is balanced over a run. */
  lemma {:induction false} Balance(f: Sup -> int, plus: (Sup, Event) -> bool, minus: (Sup, Event) -> bool,
                                   s: Sup, es: seq<Event>)
    requires CanRun(s, es)
    requires forall x, e :: Enabled(x, e) ==>
               f(Step(x, e)) == f(x) + (if plus(x, e) then 1 else 0) - (if minus(x, e) then 1 else 0)
    ensures f(Run(s, es)) + Count(minus, s, es) == f(s) + Count(plus, s, es)
    decreases |es|
  {
    if es != [] {
      assert Enabled(s, es[0]);
      Balance(f, plus, minus, Step(s, es[0]), es[1..]);
    }
  }

  predicate IsAdopt(s: Sup, e: Event) { e.EAdopt? }
  predicate IsProbe(s: Sup, e: Event) { e.EProbe? }
  predicate IsDelayed(s: Sup, e: Event) { e.EDelayed? }
  predicate IsStop(s: Sup, e: Event) { e.EStopBegin? }
  predicate IsStopFinish(s: Sup, e: Event) { e.EStopFinish? }
  predicate IsForce(s: Sup, e: Event) { e.EForce? }
  predicate IsForceFinish(s: Sup, e: Event) { e.EForceFinish? }
  predicate Restarts(s: Sup, e: Event) { Failure(s, e) && !Final(s, e) }
  predicate Never(s: Sup, e: Event) { false }

  /** Over every run: each adoption that was asked for has run or is pending, and so have each
      poll that a clean exit began, each automatic restart that a failure scheduled, each stop
      and each forced restart; and the children are numbered by the launches. */
  lemma RunAccounts(es: seq<Event>)
    requires CanRun(INITIAL, es)
    ensures var t := Run(INITIAL, es);
            && t.tasks.adoptions + Count(IsAdopt, INITIAL, es) == Count(AsksAdoption, INITIAL, es)
            && t.tasks.probes + Count(IsProbe, INITIAL, es) == Count(CleanExit, INITIAL, es)
            && |t.tasks.delayed| + Count(IsDelayed, INITIAL, es) == Count(Restarts, INITIAL, es)
            && |t.tasks.stops| + t.tasks.releases + Count(IsStopFinish, INITIAL, es) == Count(IsStop, INITIAL, es)
            && t.tasks.forces + Count(IsForceFinish, INITIAL, es) == Count(IsForce, INITIAL, es)
            && t.children.launched == Count(Launches, INITIAL, es)
  {
    AdoptionsBalance(INITIAL, es);
    ProbesBalance(INITIAL, es);
    DelayedBalance(INITIAL, es);
    StopsBalance(INITIAL, es);
    ForcesBalance(INITIAL, es);
    LaunchesBalance(INITIAL, es);
  }

  lemma AdoptionsBalance(s: Sup, es: seq<Event>)
    requires CanRun(s, es)
    ensures Run(s, es).tasks.adoptions + Count(IsAdopt, s, es) == s.tasks.adoptions + Count(AsksAdoption, s, es)
  {
    forall x, e | Enabled(x, e)
      ensures Step(x, e).tasks.adoptions ==
                x.tasks.adoptions + (if AsksAdoption(x, e) then 1 else 0) - (if IsAdopt(x, e) then 1 else 0)
    {
      AdoptionsMove(x, e);
    }
    Balance((x: Sup) => x.tasks.adoptions, AsksAdoption, IsAdopt, s, es);
  }

  lemma ProbesBalance(s: Sup, es: seq<Event>)
    requires CanRun(s, es)
    ensures Run(s, es).tasks.probes + Count(IsProbe, s, es) == s.tasks.probes + Count(CleanExit, s, es)
  {
    forall x, e | Enabled(x, e)
      ensures Step(x, e).tasks.probes ==
                x.tasks.probes + (if CleanExit(x, e) then 1 else 0) - (if IsProbe(x, e) then 1 else 0)
    {
      PollsMove(x, e);
    }
    Balance((x: Sup) => x.tasks.probes, CleanExit, IsProbe, s, es);
  }

  lemma DelayedCount(x: Sup, e: Event)
    requires Enabled(x, e)
    ensures |Step(x, e).tasks.delayed| ==
              |x.tasks.delayed| + (if Restarts(x, e) then 1 else 0) - (if IsDelayed(x, e) then 1 else 0)
  {
  }

  lemma DelayedBalance(s: Sup, es: seq<Event>)
    requires CanRun(s, es)
    ensures |Run(s, es).tasks.delayed| + Count(IsDelayed, s, es) == |s.tasks.delayed| + Count(Restarts, s, es)
  {
    forall x, e | Enabled(x, e)
      ensures |Step(x, e).tasks.delayed| ==
                |x.tasks.delayed| + (if Restarts(x, e) then 1 else 0) - (if IsDelayed(x, e) then 1 else 0)
    {
      DelayedCount(x, e);
    }
    Balance((x: Sup) => |x.tasks.delayed|, Restarts, IsDelayed, s, es);
  }

  lemma StopsBalance(s: Sup, es: seq<Event>)
    requires CanRun(s, es)
    ensures |Run(s, es).tasks.stops| + Run(s, es).tasks.releases + Count(IsStopFinish, s, es) ==
              |s.tasks.stops| + s.tasks.releases + Count(IsStop, s, es)
  {
    forall x, e | Enabled(x, e)
      ensures |Step(x, e).tasks.stops| + Step(x, e).tasks.releases ==
                |x.tasks.stops| + x.tasks.releases
                + (if IsStop(x, e) then 1 else 0) - (if IsStopFinish(x, e) then 1 else 0)
    {
      StopsMove(x, e);
    }
    Balance((x: Sup) => |x.tasks.stops| + x.tasks.releases, IsStop, IsStopFinish, s, es);
  }

  lemma ForcesBalance(s: Sup, es: seq<Event>)
    requires CanRun(s, es)
    ensures Run(s, es).tasks.forces + Count(IsForceFinish, s, es) == s.tasks.forces + Count(IsForce, s, es)
  {
    forall x, e | Enabled(x, e)
      ensures Step(x, e).tasks.forces ==
                x.tasks.forces + (if IsForce(x, e) then 1 else 0) - (if IsForceFinish(x, e) then 1 else 0)
    {
      StopsMove(x, e);
    }
    Balance((x: Sup) => x.tasks.forces, IsForce, IsForceFinish, s, es);
  }

  lemma {:induction false} NeverCounts(s: Sup, es: seq<Event>)
    requires CanRun(s, es)
    ensures Count(Never, s, es) == 0
    decreases |es|
  {
    if es != [] { NeverCounts(Step(s, es[0]), es[1..]); }
  }

  lemma LaunchesBalance(s: Sup, es: seq<Event>)
    requires CanRun(s, es)
    ensures Run(s, es).children.launched == s.children.launched + Count(Launches, s, es)
  {
    forall x, e | Enabled(x, e)
      ensures Step(x, e).children.launched ==
                x.children.launched + (if Launches(x, e) then 1 else 0) - (if Never(x, e) then 1 else 0)
    {
      LaunchesMove(x, e);
    }
    Balance((x: Sup) => x.children.launched, Launches, Never, s, es);
    NeverCounts(s, es);
  }

  // ----- children over a run -----

  /** The children that have died, or been killed, and whose exit handler has run. */
  function Handled(s: Sup, es: seq<Event>): nat
    requires CanRun(s, es)
  {
    Count(IsExit, s, es)
  }

  predicate IsExit(s: Sup, e: Event) { e.EExit? }

  /** Every child that was launched lives, has an exit handler still to run, or has had it run
      once. */
  lemma {:induction false} ChildrenAccounted(s: Sup, es: seq<Event>)
    requires CanRun(s, es) && ChildrenOk(s.children)
    ensures var c, d := s.children, Run(s, es).children;
            |d.alive| + |d.ended| + Handled(s, es) == |c.alive| + |c.ended| + (d.launched - c.launched)
    decreases |es|
  {
    if es != [] {
      StepChildren(s, es[0]);
      ChildrenBalance(s, es[0]);
      ChildrenAccounted(Step(s, es[0]), es[1..]);
    }
  }

  /** One child more, or some that live no longer and have ended, or one handled. */
  ghost predicate Next(c: Children, d: Children, handled: set<nat>, launch: bool) {
    && c.alive !! c.ended && handled <= c.ended
    && d.launched == c.launched + (if launch then 1 else 0)
    && (launch ==> d.launched !in c.alive && d.alive == c.alive + {d.launched})
    && (launch || handled != {} ==> d.ended == c.ended - handled)
    && (handled != {} ==> !launch && d.alive == c.alive)
    && (launch ==> handled == {})
    && (!launch && handled == {} ==> d.alive <= c.alive && d.ended == c.ended + (c.alive - d.alive))
  }

  lemma ChildrenNext(s: Sup, e: Event)
    requires Enabled(s, e) && ChildrenOk(s.children)
    ensures Next(s.children, Step(s, e).children, if e.EExit? then {e.id} else {}, Launches(s, e))
  {
  }

  lemma ChildrenBalance(s: Sup, e: Event)
    requires Enabled(s, e) && ChildrenOk(s.children)
    ensures var c, d := s.children, Step(s, e).children;
            |d.alive| + |d.ended| + (if IsExit(s, e) then 1 else 0) ==
              |c.alive| + |c.ended| + (d.launched - c.launched)
  {
    ChildrenNext(s, e);
    Balanced(s.children, Step(s, e).children, if e.EExit? then {e.id} else {}, Launches(s, e));
  }

  lemma Balanced(c: Children, d: Children, handled: set<nat>, launch: bool)
    requires Next(c, d, handled, launch)
    ensures |d.alive| + |d.ended| + |handled| == |c.alive| + |c.ended| + (d.launched - c.launched)
  {
    if launch {
      OneMore(c.alive, d.launched);
    } else if handled == {} {
      Moved(c.alive, c.ended, c.alive - d.alive);
      assert d.alive == c.alive - (c.alive - d.alive);
    } else {
      assert c.ended == d.ended + handled;
    }
  }

  lemma OneMore<T>(a: set<T>, x: T)
    requires x !in a
    ensures |a + {x}| == |a| + 1
  {
  }

  lemma Moved<T>(a: set<T>, b: set<T>, gone: set<T>)
    requires a !! b && gone <= a
    ensures |a - gone| + |b + gone| == |a| + |b|
  {
    assert b !! gone;
  }
}
