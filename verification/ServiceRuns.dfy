/** The supervised services as a state machine, and what holds in each of its runs. */
module ServiceRuns {

  datatype State = Pending | Starting | Running | Degraded | Stopping | Stopped | Failed

  datatype Policy = Never | Always | OnFailure

  /** What a service file says; `deps` are the indices of the services named by `after`. */
  datatype Config = Config(name: string, deps: seq<nat>, policy: Policy, attempts: int, delay: int,
                           readyNone: bool, timeout: int)

  /** What the supervisor keeps for a service; times are in milliseconds since boot. */
  datatype Service = Service(state: State, pid: int, restarts: int, started: int, stopped: int, scheduled: int)

  /** How an attempt to start a process ends; `at` is the clock after a successful fork. */
  datatype Spawn = NoBinary | ForkFailed | Child(pid: int, at: int)

  /** One change of one service. */
  datatype Step =
    | Check(i: nat, ready: bool, now: int)                                    // readiness check of a pump
    | Attempt(i: nat, spawn: Spawn, now: int)                                 // start attempt of a pump
    | Exit(i: nat, code: int, bySignal: bool, at: int, later: int)            // its process was reaped
    | Reset(i: nat)                                                           // start command
    | Stop(i: nat)                                                            // stop command

  predicate Up(s: Service) { s.state.Running? || s.state.Degraded? }

  function Checked(c: Config, s: Service, ready: bool, now: int): Service {
    if !s.state.Starting? then s
    else if c.readyNone || ready then s.(state := Running)
    else if now - s.started >= c.timeout then s.(state := Degraded)
    else s
  }

  function Spawned(s: Service, spawn: Spawn): Service {
    if spawn.Child? then s.(pid := spawn.pid, state := Starting, started := spawn.at)
    else s.(state := Degraded)
  }

  predicate Restarts(c: Config, code: int, bySignal: bool) {
    c.policy.Always? || (c.policy.OnFailure? && (code != 0 || bySignal))
  }

  function Exited(c: Config, s: Service, code: int, bySignal: bool, at: int, later: int): Service {
    var gone := s.(pid := 0, stopped := at);
    if s.state.Stopping? || s.state.Stopped? || !Restarts(c, code, bySignal) then
      gone.(state := Stopped)
    else if s.restarts + 1 > c.attempts then
      gone.(state := Degraded, restarts := s.restarts + 1)
    else
      gone.(state := Pending, restarts := s.restarts + 1, scheduled := later + c.delay)
  }

  function Next(c: Config, s: Service, step: Step): Service {
    match step
    case Check(_, ready, now) => Checked(c, s, ready, now)
    case Attempt(_, spawn, _) => Spawned(s, spawn)
    case Exit(_, code, bySignal, at, later) => Exited(c, s, code, bySignal, at, later)
    case Reset(_) => s.(state := Pending, restarts := 0, scheduled := 0)
    case Stop(_) => s.(state := Stopped, pid := 0)
  }

  predicate DepsUp(config: seq<Config>, services: seq<Service>, i: nat)
    requires i < |config|
  {
    forall d :: d in config[i].deps && d < |services| ==> Up(services[d])
  }

  ghost predicate PidFree(services: seq<Service>, pid: int) {
    pid > 0 && forall j :: 0 <= j < |services| ==> services[j].pid != pid
  }

  /** When a step can be taken. A fork is assumed to return a pid that no known child has. */
  ghost predicate Enabled(config: seq<Config>, services: seq<Service>, step: Step) {
    && |config| == |services| && step.i < |services|
    && var s := services[step.i];
    match step
    case Check(_, _, _) => true
    case Attempt(i, spawn, now) =>
      s.state.Pending? && now >= s.scheduled && DepsUp(config, services, i)
      && (spawn.Child? ==> PidFree(services, spawn.pid))
    case Exit(_, _, _, _, _) => s.pid > 0
    case Reset(_) => !s.state.Running? && !s.state.Starting?
    case Stop(_) => s.pid > 0
  }

  function Apply(config: seq<Config>, services: seq<Service>, step: Step): (r: seq<Service>)
    requires |config| == |services| && step.i < |services|
    ensures |r| == |services|
  {
    services[step.i := Next(config[step.i], services[step.i], step)]
  }

  /** The run `steps` leads from `a` to `b`, each step being possible where it is taken. */
  ghost predicate Leads(config: seq<Config>, a: seq<Service>, steps: seq<Step>, b: seq<Service>) {
    if steps == [] then a == b
    else
      var rest, step := steps[..|steps| - 1], steps[|steps| - 1];
      exists m {:trigger Follows(config, m, step, b)} :: Leads(config, a, rest, m) && Follows(config, m, step, b)
  }

  ghost predicate Follows(config: seq<Config>, m: seq<Service>, step: Step, b: seq<Service>) {
    Enabled(config, m, step) && b == Apply(config, m, step)
  }

  const COMPOSITOR := "lgp-compositor"

  /** The table that start_all makes of freshly loaded services. */
  ghost predicate Booted(config: seq<Config>, services: seq<Service>) {
    && |services| == |config|
    && forall i :: 0 <= i < |config| ==> FreshService(config[i], services[i])
  }

  ghost predicate FreshService(c: Config, s: Service) {
    && s.state == (if c.name == COMPOSITOR then Stopped else Pending)
    && s.pid == 0 && s.restarts == 0 && s.scheduled == 0
  }

  // ---------------------------------------------------------- invariant

  ghost predicate ServiceOk(s: Service) {
    && !s.state.Failed? && !s.state.Stopping? && s.pid >= 0
    && (s.state.Starting? || s.state.Running? ==> s.pid > 0)
  }

  /** Between two steps no service is FAILED or STOPPING, a starting or running service has a process,
      and no two services share one. */
  ghost predicate TableOk(services: seq<Service>) {
    && (forall i :: 0 <= i < |services| ==> ServiceOk(services[i]))
    && (forall i, j :: 0 <= i < j < |services| && services[i].pid > 0 ==> services[i].pid != services[j].pid)
  }

  lemma {:induction false} RunKeepsTable(config: seq<Config>, a: seq<Service>, steps: seq<Step>, b: seq<Service>)
    requires Booted(config, a) && Leads(config, a, steps, b)
    ensures |b| == |config| && TableOk(b)
    decreases |steps|
  {
    if steps == [] {
    } else {
      var last := |steps| - 1;
      var m :| Leads(config, a, steps[..last], m) && Follows(config, m, steps[last], b);
      RunKeepsTable(config, a, steps[..last], m);
      StepKeepsTable(config, m, steps[last], b);
    }
  }

  lemma StepKeepsTable(config: seq<Config>, m: seq<Service>, step: Step, b: seq<Service>)
    requires TableOk(m) && Follows(config, m, step, b)
    ensures TableOk(b)
  {
    var s := b[step.i];
    assert s.pid == m[step.i].pid || s.pid == 0 || PidFree(m, s.pid);
  }

  // ------------------------------------------------- dependencies first

  ghost predicate Attempted(steps: seq<Step>, i: nat) {
    exists k :: 0 <= k < |steps| && steps[k].Attempt? && steps[k].i == i
  }

  /** A service that was never attempted still waits or is stopped, and has no process. */
  lemma {:induction false} NotAttempted(config: seq<Config>, a: seq<Service>, steps: seq<Step>, b: seq<Service>, i: nat)
    requires Booted(config, a) && Leads(config, a, steps, b) && i < |config| && !Attempted(steps, i)
    ensures |b| == |config| && b[i].pid == 0 && (b[i].state.Pending? || b[i].state.Stopped?)
    decreases |steps|
  {
    if steps == [] {
    } else {
      var last := |steps| - 1;
      var m :| Leads(config, a, steps[..last], m) && Follows(config, m, steps[last], b);
      NotAttempted(config, a, steps[..last], m, i);
    }
  }

  /** The order of first start attempts extends the `after` relation: before a service is attempted,
      each of its dependencies has been. */
  lemma {:induction false} DependenciesFirst(config: seq<Config>, a: seq<Service>, steps: seq<Step>, b: seq<Service>,
                                             k: nat, d: nat)
    requires Booted(config, a) && Leads(config, a, steps, b)
    requires k < |steps| && steps[k].Attempt? && steps[k].i < |config| && d in config[steps[k].i].deps && d < |config|
    ensures Attempted(steps[..k], d)
    decreases |steps|
  {
    var last := |steps| - 1;
    var m :| Leads(config, a, steps[..last], m) && Follows(config, m, steps[last], b);
    if k < last {
      DependenciesFirst(config, a, steps[..last], m, k, d);
      assert steps[..last][..k] == steps[..k];
    } else {
      assert Up(m[d]);
      if !Attempted(steps[..k], d) {
        NotAttempted(config, a, steps[..last], m, d);
      }
    }
  }

  // -------------------------------------------------------- restarts

  /** How often a process of service `i` was forked since the last start command for it. */
  ghost function Forks(steps: seq<Step>, i: nat): nat {
    if steps == [] then 0 else
      var rest, step := steps[..|steps| - 1], steps[|steps| - 1];
      if step.i != i then Forks(rest, i)
      else if step.Reset? then 0
      else if step.Attempt? && step.spawn.Child? then Forks(rest, i) + 1
      else Forks(rest, i)
  }

  function AtLeastZero(x: int): nat { if x < 0 then 0 else x }

  ghost predicate WithinBudget(c: Config, s: Service, forks: nat) {
    && s.restarts >= 0 && forks <= 1 + AtLeastZero(c.attempts) && forks <= 1 + s.restarts
    && (s.state.Pending? ==> forks <= AtLeastZero(c.attempts) && forks <= s.restarts)
  }

  lemma {:induction false} RestartBudget(config: seq<Config>, a: seq<Service>, steps: seq<Step>, b: seq<Service>,
                                         i: nat)
    requires Booted(config, a) && Leads(config, a, steps, b) && i < |config|
    ensures |b| == |config| && WithinBudget(config[i], b[i], Forks(steps, i))
    decreases |steps|
  {
    if steps == [] {
    } else {
      var last := |steps| - 1;
      var m :| Leads(config, a, steps[..last], m) && Follows(config, m, steps[last], b);
      RestartBudget(config, a, steps[..last], m, i);
    }
  }

  /** A service is forked at most `attempts` + 1 times between two start commands. */
  lemma ForksBounded(config: seq<Config>, a: seq<Service>, steps: seq<Step>, b: seq<Service>, i: nat)
    requires Booted(config, a) && Leads(config, a, steps, b) && i < |config|
    ensures Forks(steps, i) <= AtLeastZero(config[i].attempts) + 1
  {
    RestartBudget(config, a, steps, b, i);
  }

  /** No step from `k` on is a start command or a start attempt for `i`. */
  ghost predicate Untouched(steps: seq<Step>, k: nat, i: nat) {
    forall j :: k <= j < |steps| && steps[j].i == i ==> !steps[j].Reset? && !steps[j].Attempt?
  }

  lemma {:induction false} ScheduledStays(config: seq<Config>, a: seq<Service>, steps: seq<Step>, b: seq<Service>,
                                          k: nat)
    requires Booted(config, a) && Leads(config, a, steps, b) && k < |steps|
    requires steps[k].Exit? && Untouched(steps, k + 1, steps[k].i)
    ensures |b| == |config| && steps[k].i < |config|
    ensures var s := b[steps[k].i];
            s.pid == 0 && (s.state.Pending? ==> s.scheduled == steps[k].later + config[steps[k].i].delay)
    decreases |steps|
  {
    var last := |steps| - 1;
    var m :| Leads(config, a, steps[..last], m) && Follows(config, m, steps[last], b);
    RunKeepsTable(config, a, steps[..last], m);
    if k < last {
      ScheduledStays(config, a, steps[..last], m, k);
    }
  }

  /** After an exit, the next start attempt that no start command asked for waits for the restart delay. */
  lemma RespawnWaits(config: seq<Config>, a: seq<Service>, steps: seq<Step>, b: seq<Service>, k: nat, j: nat)
    requires Booted(config, a) && Leads(config, a, steps, b) && k < j < |steps|
    requires steps[k].Exit? && steps[j].Attempt? && steps[j].i == steps[k].i < |config|
    requires Untouched(steps[..j], k + 1, steps[k].i)
    ensures steps[j].now >= steps[k].later + config[steps[k].i].delay
    decreases |steps|
  {
    var last := |steps| - 1;
    var m :| Leads(config, a, steps[..last], m) && Follows(config, m, steps[last], b);
    if j < last {
      assert steps[..last][..j] == steps[..j];
      RespawnWaits(config, a, steps[..last], m, k, j);
    } else {
      ScheduledStays(config, a, steps[..last], m, k);
    }
  }

  // ------------------------------------------------- the table on the way

  /** The table that the steps make, each applied where it concerns a known service. */
  ghost function Play(config: seq<Config>, a: seq<Service>, steps: seq<Step>): seq<Service> {
    if steps == [] then a else
    var m, step := Play(config, a, steps[..|steps| - 1]), steps[|steps| - 1];
    if |config| == |m| && step.i < |m| then Apply(config, m, step) else m
  }

  lemma {:induction false} PlayLeads(config: seq<Config>, a: seq<Service>, steps: seq<Step>, b: seq<Service>)
    requires Leads(config, a, steps, b)
    ensures Play(config, a, steps) == b
    decreases |steps|
  {
    if steps != [] {
      var last := |steps| - 1;
      var m :| Leads(config, a, steps[..last], m) && Follows(config, m, steps[last], b);
      PlayLeads(config, a, steps[..last], m);
    }
  }

  /** Every step of a run can be taken in the table that the steps before it make. */
  lemma {:induction false} StepInPlace(config: seq<Config>, a: seq<Service>, steps: seq<Step>, b: seq<Service>, k: nat)
    requires Leads(config, a, steps, b) && k < |steps|
    ensures Enabled(config, Play(config, a, steps[..k]), steps[k])
    decreases |steps|
  {
    var last := |steps| - 1;
    var m :| Leads(config, a, steps[..last], m) && Follows(config, m, steps[last], b);
    if k < last {
      StepInPlace(config, a, steps[..last], m, k);
      assert steps[..last][..k] == steps[..k];
    } else {
      PlayLeads(config, a, steps[..last], m);
    }
  }

  lemma {:induction false} LeadsPrefix(config: seq<Config>, a: seq<Service>, steps: seq<Step>, b: seq<Service>, n: nat)
    requires Leads(config, a, steps, b) && n <= |steps|
    ensures Leads(config, a, steps[..n], Play(config, a, steps[..n]))
    decreases |steps|
  {
    if n == |steps| {
      assert steps[..n] == steps;
      PlayLeads(config, a, steps, b);
    } else {
      var last := |steps| - 1;
      var m :| Leads(config, a, steps[..last], m) && Follows(config, m, steps[last], b);
      LeadsPrefix(config, a, steps[..last], m, n);
      assert steps[..last][..n] == steps[..n];
    }
  }

  // ------------------------------------------------- children of a service

  predicate ForkOf(step: Step, i: nat) { step.Attempt? && step.i == i && step.spawn.Child? }

  predicate EndOf(step: Step, i: nat) { (step.Exit? || step.Stop?) && step.i == i }

  /** How many processes of service `i` were forked and neither seen to exit nor stopped. */
  ghost function Unseen(steps: seq<Step>, i: nat): int {
    if steps == [] then 0 else
      var step := steps[|steps| - 1];
      Unseen(steps[..|steps| - 1], i) + if ForkOf(step, i) then 1 else if EndOf(step, i) then -1 else 0
  }

  /** How often a process was forked for service `i` while it had one. */
  ghost function Forgotten(config: seq<Config>, a: seq<Service>, steps: seq<Step>, i: nat): nat {
    if steps == [] then 0 else
      var rest, step := steps[..|steps| - 1], steps[|steps| - 1];
      var m := Play(config, a, rest);
      Forgotten(config, a, rest, i) + if ForkOf(step, i) && i < |m| && m[i].pid > 0 then 1 else 0
  }

  /** The children that were not seen to end are the one in the table and the forgotten ones. */
  lemma {:induction false} CountChildren(config: seq<Config>, a: seq<Service>, steps: seq<Step>, b: seq<Service>,
                                         i: nat)
    requires Booted(config, a) && Leads(config, a, steps, b) && i < |config|
    ensures |b| == |config| && b[i].pid >= 0
    ensures Unseen(steps, i) == Forgotten(config, a, steps, i) + if b[i].pid > 0 then 1 else 0
    decreases |steps|
  {
    if steps != [] {
      var last := |steps| - 1;
      var m :| Leads(config, a, steps[..last], m) && Follows(config, m, steps[last], b);
      CountChildren(config, a, steps[..last], m, i);
      PlayLeads(config, a, steps[..last], m);
    }
  }

  /** No step from `j` on is an attempt, an exit or a stop of service `i`. */
  ghost predicate Quiet(steps: seq<Step>, j: nat, i: nat) {
    forall k :: j <= k < |steps| && steps[k].i == i ==> steps[k].Check? || steps[k].Reset?
  }

  /** Step `j` is a start command for a degraded service that still has a process, and nothing came of it yet. */
  ghost predicate Renewed(config: seq<Config>, a: seq<Service>, steps: seq<Step>, i: nat, j: nat) {
    && j < |steps| && steps[j] == Reset(i) && Quiet(steps, j + 1, i)
    && var m := Play(config, a, steps[..j]);
    i < |m| && m[i].state.Degraded? && m[i].pid > 0
  }

  /** A waiting service has a process exactly when it was degraded with one and put in line again. */
  lemma {:induction false} WaitsWithChild(config: seq<Config>, a: seq<Service>, steps: seq<Step>, b: seq<Service>,
                                          i: nat)
    requires Booted(config, a) && Leads(config, a, steps, b) && i < |config|
    ensures |b| == |config| && (b[i].state.Stopped? ==> b[i].pid == 0)
    ensures b[i].state.Pending? && b[i].pid > 0 <==> exists j: nat :: Renewed(config, a, steps, i, j)
    decreases |steps|
  {
    if steps != [] {
      var last := |steps| - 1;
      var rest, step := steps[..last], steps[last];
      var m :| Leads(config, a, rest, m) && Follows(config, m, step, b);
      WaitsWithChild(config, a, rest, m, i);
      RunKeepsTable(config, a, rest, m);
      PlayLeads(config, a, rest, m);
      RenewedNext(config, a, steps, m, i);
      assert ServiceOk(m[i]);
    }
  }

  lemma RenewedNext(config: seq<Config>, a: seq<Service>, steps: seq<Step>, m: seq<Service>, i: nat)
    requires steps != [] && m == Play(config, a, steps[..|steps| - 1]) && i < |m|
    ensures var rest, step := steps[..|steps| - 1], steps[|steps| - 1];
            (exists j: nat :: Renewed(config, a, steps, i, j)) <==>
            || (step == Reset(i) && m[i].state.Degraded? && m[i].pid > 0)
            || ((step.i == i ==> step.Check? || step.Reset?) && exists j: nat :: Renewed(config, a, rest, i, j))
  {
    var last := |steps| - 1;
    var rest := steps[..last];
    forall j: nat | j < last ensures rest[..j] == steps[..j] && rest[j] == steps[j] {}
    forall j: nat | j < last && (steps[last].i == i ==> steps[last].Check? || steps[last].Reset?)
      ensures Renewed(config, a, steps, i, j) <==> Renewed(config, a, rest, i, j)
    {
      assert Quiet(steps, j + 1, i) <==> Quiet(rest, j + 1, i);
    }
    if steps[last] == Reset(i) && m[i].state.Degraded? && m[i].pid > 0 { assert Renewed(config, a, steps, i, last); }
  }

  /** Step `k` forks a process for service `i` although that was put in line with a process. */
  ghost predicate Overtakes(config: seq<Config>, a: seq<Service>, steps: seq<Step>, i: nat, k: nat) {
    k < |steps| && ForkOf(steps[k], i) && exists j: nat :: Renewed(config, a, steps[..k], i, j)
  }

  /** At no time does service `i` have more than one child that was not seen to end. */
  ghost predicate OneAtATime(steps: seq<Step>, i: nat) {
    forall n :: 0 <= n <= |steps| ==> Unseen(steps[..n], i) <= 1
  }

  lemma {:induction false} ForgottenMeans(config: seq<Config>, a: seq<Service>, steps: seq<Step>, b: seq<Service>,
                                          i: nat)
    requires Booted(config, a) && Leads(config, a, steps, b) && i < |config|
    ensures Forgotten(config, a, steps, i) > 0 <==> exists k: nat :: Overtakes(config, a, steps, i, k)
    decreases |steps|
  {
    if steps != [] {
      var last := |steps| - 1;
      var rest := steps[..last];
      var m: seq<Service> :| Leads(config, a, rest, m) && Follows(config, m, steps[last], b);
      ForgottenMeans(config, a, rest, m, i);
      PlayLeads(config, a, rest, m);
      WaitsWithChild(config, a, rest, m, i);
      forall k: nat | k < last ensures Overtakes(config, a, steps, i, k) <==> Overtakes(config, a, rest, i, k) {
        assert rest[..k] == steps[..k];
      }
      assert Overtakes(config, a, steps, i, last) <==> ForkOf(steps[last], i) && m[i].pid > 0;
    }
  }

  /** A service has at most one child at a time exactly when no process is forked for it after a start command
      that found it degraded with a process, unless that process was seen to end in between. */
  lemma OneChild(config: seq<Config>, a: seq<Service>, steps: seq<Step>, b: seq<Service>, i: nat)
    requires Booted(config, a) && Leads(config, a, steps, b) && i < |config|
    ensures OneAtATime(steps, i) <==> forall k: nat :: !Overtakes(config, a, steps, i, k)
  {
    if k: nat :| Overtakes(config, a, steps, i, k) {
      TwoAt(config, a, steps, b, i, k);
    } else {
      forall n | 0 <= n <= |steps| ensures Unseen(steps[..n], i) <= 1 {
        LeadsPrefix(config, a, steps, b, n);
        var m := Play(config, a, steps[..n]);
        CountChildren(config, a, steps[..n], m, i);
        ForgottenMeans(config, a, steps[..n], m, i);
        forall k: nat | k < n ensures !Overtakes(config, a, steps[..n], i, k) {
          assert steps[..n][..k] == steps[..k] && !Overtakes(config, a, steps, i, k);
        }
      }
    }
  }

  lemma TwoAt(config: seq<Config>, a: seq<Service>, steps: seq<Step>, b: seq<Service>, i: nat, k: nat)
    requires Booted(config, a) && Leads(config, a, steps, b) && i < |config| && Overtakes(config, a, steps, i, k)
    ensures Unseen(steps[..k + 1], i) >= 2
  {
    var m, m' := Play(config, a, steps[..k]), Play(config, a, steps[..k + 1]);
    LeadsPrefix(config, a, steps, b, k);
    LeadsPrefix(config, a, steps, b, k + 1);
    StepInPlace(config, a, steps, b, k);
    WaitsWithChild(config, a, steps[..k], m, i);
    CountChildren(config, a, steps[..k], m, i);
    assert steps[..k + 1][..k] == steps[..k];
  }

  /** For example: forked, given up for not becoming ready in time, asked for again, and forked again. */
  function AskedForAgain(timeout: int, p: int, q: int): seq<Step> {
    [Attempt(0, Child(p, 0), 0), Check(0, false, timeout), Reset(0), Attempt(0, Child(q, timeout), timeout)]
  }

  lemma TwoChildren(c: Config, a: seq<Service>, p: int, q: int)
    requires Booted([c], a) && c.name != COMPOSITOR && c.deps == [] && !c.readyNone && c.timeout >= 0
    requires p > 0 && q > 0 && p != q
    ensures exists b :: Leads([c], a, AskedForAgain(c.timeout, p, q), b)
    ensures Unseen(AskedForAgain(c.timeout, p, q), 0) == 2
  {
    var config, steps := [c], AskedForAgain(c.timeout, p, q);
    assert FreshService(config[0], a[0]);
    assert a == [a[0]];
    var b1 := Apply(config, a, steps[0]);
    var b2 := Apply(config, b1, steps[1]);
    var b3 := Apply(config, b2, steps[2]);
    var b4 := Apply(config, b3, steps[3]);
    assert steps[..1][..0] == [] && steps[..2][..1] == steps[..1] && steps[..3][..2] == steps[..2];
    assert Leads(config, a, [], a) && Follows(config, a, steps[0], b1);
    assert Leads(config, a, steps[..1], b1) && Follows(config, b1, steps[1], b2);
    assert Leads(config, a, steps[..2], b2) && Follows(config, b2, steps[2], b3);
    assert Leads(config, a, steps[..3], b3) && Follows(config, b3, steps[3], b4);
    assert Leads(config, a, steps, b4);
    assert Unseen(steps[..1], 0) == 1 && Unseen(steps[..2], 0) == 1 && Unseen(steps[..3], 0) == 1;
  }
}
