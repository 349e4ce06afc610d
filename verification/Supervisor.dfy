/** The supervisor of luna-init: its entry points, the steps they take, and what holds of the whole trace. */
module Supervisor {
  import opened Graph
  import Deps = DepGraph
  import opened ServiceRuns
  import opened BootProgress

  /** What can happen to the supervisor. A start order `t.order` is what the dependency graph returns. */
  datatype Event =
    | Pumped(t: Tick)
    | Reaped(pid: int, code: int, bySignal: bool, at: int, later: int)
    | StartAsked(name: string, t: Tick)
    | StopAsked(name: string)

  /** The index of the first service with this name, or |config|. */
  function FindName(config: seq<Config>, name: string): (i: nat)
    ensures i <= |config| && (i < |config| ==> config[i].name == name)
    ensures forall k :: 0 <= k < i ==> config[k].name != name
  {
    if config == [] || config[0].name == name then 0 else 1 + FindName(config[1..], name)
  }

  /** The index of the first service with this process, or |services|. */
  function FindPid(services: seq<Service>, pid: int): (i: nat)
    ensures i <= |services| && (i < |services| ==> services[i].pid == pid)
    ensures forall k :: 0 <= k < i ==> services[k].pid != pid
  {
    if services == [] || services[0].pid == pid then 0 else 1 + FindPid(services[1..], pid)
  }

  ghost predicate InputsOk(config: seq<Config>, t: Tick) {
    |t.ready| == |t.spawns| == |config|
  }

  ghost predicate EventsOk(config: seq<Config>, events: seq<Event>) {
    forall j :: 0 <= j < |events| && (events[j].Pumped? || events[j].StartAsked?) ==> InputsOk(config, events[j].t)
  }

  /** A start command has an effect unless the service is unknown or already running. */
  predicate StartsOver(config: seq<Config>, services: seq<Service>, name: string)
    requires |config| == |services|
  {
    var i := FindName(config, name);
    i < |config| && !services[i].state.Running? && !services[i].state.Starting?
  }

  function ResetAt(services: seq<Service>, i: nat): (r: seq<Service>)
    requires i < |services|
    ensures |r| == |services|
  {
    services[i := services[i].(state := Pending, restarts := 0, scheduled := 0)]
  }

  /** The table after an event. */
  ghost function Handle(config: seq<Config>, services: seq<Service>, ev: Event): (r: seq<Service>)
    requires |config| == |services| && (ev.Pumped? || ev.StartAsked? ==> InputsOk(config, ev.t))
    ensures |r| == |services|
  {
    match ev
    case Pumped(t) => Pump(config, services, t)
    case Reaped(pid, code, bySignal, at, later) =>
      var i := FindPid(services, pid);
      if pid <= 0 || i == |services| then services
      else services[i := Exited(config[i], services[i], code, bySignal, at, later)]
    case StartAsked(name, t) =>
      if StartsOver(config, services, name) then Pump(config, ResetAt(services, FindName(config, name)), t)
      else services
    case StopAsked(name) =>
      var i := FindName(config, name);
      if i == |config| || services[i].pid <= 0 then services
      else services[i := services[i].(state := Stopped, pid := 0)]
  }

  /** Forks return pids that differ from each other and from those of the children in the table. */
  ghost predicate PidsFree(services: seq<Service>, spawns: seq<Spawn>) {
    && (forall i :: 0 <= i < |spawns| && spawns[i].Child? ==> PidFree(services, spawns[i].pid))
    && (forall i, j :: 0 <= i < j < |spawns| && spawns[i].Child? && spawns[j].Child? ==> spawns[i].pid != spawns[j].pid)
  }

  /** The event pumps, and its forks return free pids. */
  ghost predicate PidsOk(config: seq<Config>, services: seq<Service>, ev: Event)
    requires |config| == |services|
  {
    Pumping(config, services, ev) ==> PidsFree(services, ev.t.spawns)
  }

  predicate Pumping(config: seq<Config>, services: seq<Service>, ev: Event)
    requires |config| == |services|
  {
    ev.Pumped? || (ev.StartAsked? && StartsOver(config, services, ev.name))
  }

  /** The table after the events. */
  ghost function After(config: seq<Config>, a: seq<Service>, events: seq<Event>): (r: seq<Service>)
    requires |config| == |a| && EventsOk(config, events)
    ensures |r| == |a|
  {
    if events == [] then a else Handle(config, After(config, a, events[..|events| - 1]), events[|events| - 1])
  }

  /** Every fork of the events returns a pid that no known child has. */
  ghost predicate PidsFresh(config: seq<Config>, a: seq<Service>, events: seq<Event>)
    requires |config| == |a| && EventsOk(config, events)
  {
    forall j :: 0 <= j < |events| ==> PidsOk(config, After(config, a, events[..j]), events[j])
  }

  // ------------------------------------------------ the steps of the events

  /** The readiness checks of the first `k` services in a pump. */
  ghost function ChecksOf(t: Tick, k: nat): seq<Step>
    requires k <= |t.ready|
  {
    seq(k, i requires 0 <= i < k => Check(i, t.ready[i], t.now))
  }

  /** The start attempts that the first `k` services of the start order get in a pump: one at the time of the
      pump for each service that can start when its turn comes. */
  ghost function StartsOf(config: seq<Config>, c: seq<Service>, t: Tick, k: nat): seq<Step>
    requires |config| == |c| == |t.spawns| && k <= |t.order|
  {
    if k == 0 then [] else
    var m, i := StartFirst(config, c, t, k - 1), t.order[k - 1];
    StartsOf(config, c, t, k - 1)
    + (if i < |m| && CanStart(config, m, t.now, i) then [Attempt(i, t.spawns[i], t.now)] else [])
  }

  ghost function PumpSteps(config: seq<Config>, a: seq<Service>, t: Tick): seq<Step>
    requires |config| == |a| && InputsOk(config, t)
  {
    ChecksOf(t, |a|) + StartsOf(config, CheckAll(config, a, t), t, |t.order|)
  }

  /** The steps an event takes. */
  ghost function StepsOf(config: seq<Config>, services: seq<Service>, ev: Event): seq<Step>
    requires |config| == |services| && (ev.Pumped? || ev.StartAsked? ==> InputsOk(config, ev.t))
  {
    match ev
    case Pumped(t) => PumpSteps(config, services, t)
    case Reaped(pid, code, bySignal, at, later) =>
      var i := FindPid(services, pid);
      if pid <= 0 || i == |services| then [] else [Exit(i, code, bySignal, at, later)]
    case StartAsked(name, t) =>
      var i := FindName(config, name);
      if StartsOver(config, services, name) then [Reset(i)] + PumpSteps(config, ResetAt(services, i), t) else []
    case StopAsked(name) =>
      var i := FindName(config, name);
      if i == |config| || services[i].pid <= 0 then [] else [Stop(i)]
  }

  /** All steps of the events, in order. */
  ghost function Trace(config: seq<Config>, a: seq<Service>, events: seq<Event>): seq<Step>
    requires |config| == |a| && EventsOk(config, events)
  {
    if events == [] then [] else
    var rest := events[..|events| - 1];
    Trace(config, a, rest) + StepsOf(config, After(config, a, rest), events[|events| - 1])
  }

  // ----------------------------------------------- events as runs of steps

  lemma LeadsOne(config: seq<Config>, a: seq<Service>, step: Step)
    requires Enabled(config, a, step)
    ensures Leads(config, a, [step], Apply(config, a, step))
  {
    assert [step][..0] == [] && Leads(config, a, [], a);
    assert Follows(config, a, [step][0], Apply(config, a, step));
  }

  lemma LeadsNext(config: seq<Config>, a: seq<Service>, steps: seq<Step>, b: seq<Service>, step: Step)
    requires Leads(config, a, steps, b) && Enabled(config, b, step)
    ensures Leads(config, a, steps + [step], Apply(config, b, step))
  {
    var all := steps + [step];
    assert all[..|all| - 1] == steps && all[|all| - 1] == step;
    assert Follows(config, b, step, Apply(config, b, step));
  }

  lemma {:induction false} LeadsOn(config: seq<Config>, a: seq<Service>, s: seq<Step>, b: seq<Service>, t: seq<Step>,
                                   c: seq<Service>)
    requires Leads(config, a, s, b) && Leads(config, b, t, c)
    ensures Leads(config, a, s + t, c)
    decreases |t|
  {
    if t == [] {
      assert s + t == s;
    } else {
      var last := |t| - 1;
      var m :| Leads(config, b, t[..last], m) && Follows(config, m, t[last], c);
      LeadsOn(config, a, s, b, t[..last], m);
      LeadsNext(config, a, s + t[..last], m, t[last]);
      assert s + t[..last] + [t[last]] == s + t;
    }
  }

  /** The table when the first `k` services have been checked for readiness. */
  ghost function CheckFirst(config: seq<Config>, a: seq<Service>, t: Tick, k: nat): (r: seq<Service>)
    requires |config| == |a| == |t.ready|
    ensures |r| == |a|
  {
    seq(|a|, i requires 0 <= i < |a| => if i < k then Checked(config[i], a[i], t.ready[i], t.now) else a[i])
  }

  lemma {:induction false} ChecksRun(config: seq<Config>, a: seq<Service>, t: Tick, k: nat)
    requires |config| == |a| == |t.ready| && k <= |a|
    ensures Leads(config, a, ChecksOf(t, k), CheckFirst(config, a, t, k))
    decreases k
  {
    if k == 0 {
      assert CheckFirst(config, a, t, k) == a;
    } else {
      ChecksRun(config, a, t, k - 1);
      var step := Check(k - 1, t.ready[k - 1], t.now);
      LeadsNext(config, a, ChecksOf(t, k - 1), CheckFirst(config, a, t, k - 1), step);
      CheckNext(config, a, t, k);
      assert ChecksOf(t, k) == ChecksOf(t, k - 1) + [step];
    }
  }

  lemma CheckNext(config: seq<Config>, a: seq<Service>, t: Tick, k: nat)
    requires |config| == |a| == |t.ready| && 0 < k <= |a|
    ensures Apply(config, CheckFirst(config, a, t, k - 1), Check(k - 1, t.ready[k - 1], t.now))
            == CheckFirst(config, a, t, k)
  {
  }

  lemma {:induction false} StartsRun(config: seq<Config>, c: seq<Service>, t: Tick, k: nat)
    requires |config| == |c| == |t.spawns| && k <= |t.order| && PidsFree(c, t.spawns)
    ensures Leads(config, c, StartsOf(config, c, t, k), StartFirst(config, c, t, k))
    decreases k
  {
    if k > 0 {
      StartsRun(config, c, t, k - 1);
      var m, i := StartFirst(config, c, t, k - 1), t.order[k - 1];
      if i < |m| && CanStart(config, m, t.now, i) {
        StillFree(config, c, t, k - 1, i);
        LeadsNext(config, c, StartsOf(config, c, t, k - 1), m, Attempt(i, t.spawns[i], t.now));
      } else {
        assert StartsOf(config, c, t, k) == StartsOf(config, c, t, k - 1);
      }
    }
  }

  lemma StillFree(config: seq<Config>, c: seq<Service>, t: Tick, k: nat, i: nat)
    requires i < |config| == |c| == |t.spawns| && k <= |t.order| && PidsFree(c, t.spawns)
    requires StartFirst(config, c, t, k)[i].state.Pending?
    ensures t.spawns[i].Child? ==> PidFree(StartFirst(config, c, t, k), t.spawns[i].pid)
  {
    forall j | 0 <= j < |c| && t.spawns[i].Child? ensures StartFirst(config, c, t, k)[j].pid != t.spawns[i].pid {
      StartKeeps(config, c, t, k, j);
    }
  }

  lemma PumpIsRun(config: seq<Config>, a: seq<Service>, t: Tick)
    requires |config| == |a| && InputsOk(config, t) && PidsFree(a, t.spawns)
    ensures Leads(config, a, PumpSteps(config, a, t), Pump(config, a, t))
  {
    var c := CheckAll(config, a, t);
    ChecksRun(config, a, t, |a|);
    assert CheckFirst(config, a, t, |a|) == c;
    StartsRun(config, c, t, |t.order|);
    LeadsOn(config, a, ChecksOf(t, |a|), c, StartsOf(config, c, t, |t.order|), Pump(config, a, t));
  }

  /** The steps of an event can be taken one after the other and lead to the table after it. */
  lemma EventIsRun(config: seq<Config>, a: seq<Service>, ev: Event)
    requires |config| == |a| && (ev.Pumped? || ev.StartAsked? ==> InputsOk(config, ev.t)) && PidsOk(config, a, ev)
    ensures Leads(config, a, StepsOf(config, a, ev), Handle(config, a, ev))
  {
    match ev
    case Pumped(t) => PumpIsRun(config, a, t);
    case Reaped(pid, code, bySignal, at, later) =>
      var i := FindPid(a, pid);
      if pid > 0 && i < |a| { LeadsOne(config, a, Exit(i, code, bySignal, at, later)); }
    case StartAsked(name, t) =>
      var i := FindName(config, name);
      if StartsOver(config, a, name) {
        var m := ResetAt(a, i);
        LeadsOne(config, a, Reset(i));
        PumpIsRun(config, m, t);
        LeadsOn(config, a, [Reset(i)], m, PumpSteps(config, m, t), Pump(config, m, t));
      }
    case StopAsked(name) =>
      var i := FindName(config, name);
      if i < |a| && a[i].pid > 0 { LeadsOne(config, a, Stop(i)); }
  }

  lemma {:induction false} EventsAreRuns(config: seq<Config>, a: seq<Service>, events: seq<Event>)
    requires |config| == |a| && EventsOk(config, events) && PidsFresh(config, a, events)
    ensures Leads(config, a, Trace(config, a, events), After(config, a, events))
    decreases |events|
  {
    if events != [] {
      var last := |events| - 1;
      var rest, m := events[..last], After(config, a, events[..last]);
      forall j | 0 <= j < last ensures PidsOk(config, After(config, a, rest[..j]), rest[j]) {
        assert rest[..j] == events[..j];
      }
      EventsAreRuns(config, a, rest);
      EventIsRun(config, m, events[last]);
      LeadsOn(config, a, Trace(config, a, rest), m, StepsOf(config, m, events[last]), After(config, a, events));
    }
  }

  /** If step `k` is an attempt, its service waits, its time has come, and its dependencies are up and have been
      attempted before. */
  ghost predicate InTurn(config: seq<Config>, a: seq<Service>, steps: seq<Step>, k: nat)
    requires k < |steps|
  {
    var m, step := Play(config, a, steps[..k]), steps[k];
    step.Attempt? ==>
      && step.i < |config| == |m| && m[step.i].state.Pending? && step.now >= m[step.i].scheduled
      && (forall d :: d in config[step.i].deps && d < |config| ==> Up(m[d]) && Attempted(steps[..k], d))
  }

  /** If step `j` is the first attempt after the exit `k` and not asked for, it has waited for the restart delay. */
  ghost predicate Delayed(config: seq<Config>, steps: seq<Step>, k: nat, j: nat)
    requires k < j < |steps|
  {
    && steps[k].Exit? && steps[j].Attempt? && steps[j].i == steps[k].i < |config|
    && Untouched(steps[..j], k + 1, steps[k].i)
    ==> steps[j].now >= steps[k].later + config[steps[k].i].delay
  }

  /** What the supervisor promises of the steps that lead from table `a` to table `b`. */
  ghost predicate Supervised(config: seq<Config>, a: seq<Service>, steps: seq<Step>, b: seq<Service>) {
    && Play(config, a, steps) == b && |b| == |config| && TableOk(b)
    && (forall i: nat :: i < |config| ==> Forks(steps, i) <= AtLeastZero(config[i].attempts) + 1)
    && (forall k: nat :: k < |steps| ==> InTurn(config, a, steps, k))
    && (forall k: nat, j: nat :: k < j < |steps| ==> Delayed(config, steps, k, j))
    && (forall i: nat :: i < |config| ==> (OneAtATime(steps, i) <==> NeverOvertaken(config, a, steps, i)))
  }

  ghost predicate NeverOvertaken(config: seq<Config>, a: seq<Service>, steps: seq<Step>, i: nat) {
    forall k: nat :: !Overtakes(config, a, steps, i, k)
  }

  /** Whatever happens after start_all, the trace of the events leads to the table they leave, which is
      consistent; every start comes in turn and, after an exit, in time; no service is forked more often than its
      restart attempts allow; and it has one child at a time exactly if none is overtaken after a start command. */
  lemma EveryRun(config: seq<Config>, a: seq<Service>, events: seq<Event>)
    requires Booted(config, a) && EventsOk(config, events) && PidsFresh(config, a, events)
    ensures Supervised(config, a, Trace(config, a, events), After(config, a, events))
  {
    var steps, b := Trace(config, a, events), After(config, a, events);
    EventsAreRuns(config, a, events);
    PlayLeads(config, a, steps, b);
    RunKeepsTable(config, a, steps, b);
    forall i: nat | i < |config| ensures Forks(steps, i) <= AtLeastZero(config[i].attempts) + 1 {
      ForksBounded(config, a, steps, b, i);
    }
    forall i: nat | i < |config| ensures OneAtATime(steps, i) <==> NeverOvertaken(config, a, steps, i) {
      OneChild(config, a, steps, b, i);
    }
    forall k: nat | k < |steps| ensures InTurn(config, a, steps, k) { StartsInTurn(config, a, steps, b, k); }
    forall k: nat, j: nat | k < j < |steps| ensures Delayed(config, steps, k, j) {
      if steps[k].Exit? && steps[j].Attempt? && steps[j].i == steps[k].i < |config|
         && Untouched(steps[..j], k + 1, steps[k].i) {
        RespawnWaits(config, a, steps, b, k, j);
      }
    }
  }

  lemma StartsInTurn(config: seq<Config>, a: seq<Service>, steps: seq<Step>, b: seq<Service>, k: nat)
    requires Booted(config, a) && Leads(config, a, steps, b) && k < |steps|
    ensures InTurn(config, a, steps, k)
  {
    StepInPlace(config, a, steps, b, k);
    if steps[k].Attempt? {
      forall d | d in config[steps[k].i].deps && d < |config| ensures Attempted(steps[..k], d) {
        DependenciesFirst(config, a, steps, b, k, d);
      }
    }
  }

  // ------------------------------------------------- events without commands

  lemma {:induction false} StartsHaveNoReset(config: seq<Config>, c: seq<Service>, t: Tick, k: nat)
    requires |config| == |c| == |t.spawns| && k <= |t.order|
    ensures NoReset(StartsOf(config, c, t, k))
    decreases k
  {
    if k > 0 { StartsHaveNoReset(config, c, t, k - 1); }
  }

  ghost predicate NoReset(steps: seq<Step>) {
    forall k :: 0 <= k < |steps| ==> !steps[k].Reset?
  }

  lemma {:induction false} TraceHasNoReset(config: seq<Config>, a: seq<Service>, events: seq<Event>)
    requires |config| == |a| && EventsOk(config, events) && forall j :: 0 <= j < |events| ==> !events[j].StartAsked?
    ensures NoReset(Trace(config, a, events))
    decreases |events|
  {
    if events != [] {
      var rest, ev := events[..|events| - 1], events[|events| - 1];
      TraceHasNoReset(config, a, rest);
      var m := After(config, a, rest);
      if ev.Pumped? { StartsHaveNoReset(config, CheckAll(config, m, ev.t), ev.t, |ev.t.order|); }
    }
  }

  /** Whatever happens after start_all, short of a start command, a service that waits for blocked services only
      keeps the boot incomplete. */
  lemma NeverBoots(config: seq<Config>, a: seq<Service>, events: seq<Event>, i: nat)
    requires Booted(config, a) && Inside(DepEdges(config), |config|)
    requires EventsOk(config, events) && PidsFresh(config, a, events)
    requires forall j :: 0 <= j < |events| ==> !events[j].StartAsked?
    requires i < |config| && Blocked(config, a, i) && !a[i].state.Stopped?
    requires forall d :: d in config[i].deps && d < |a| ==> Blocked(config, a, d) && !a[d].state.Stopped?
    ensures !BootComplete(config, After(config, a, events))
  {
    EventsAreRuns(config, a, events);
    TraceHasNoReset(config, a, events);
    NeverInRun(config, a, Trace(config, a, events), After(config, a, events), i);
  }

  // --------------------------------------------------------- entry points

  class Supervisor {
    const graph: Deps.DepGraph
    const config: seq<Config>
    var services: seq<Service>
    ghost var log: seq<Step>   // the steps taken since start_all

    ghost function Order(): Edges { Deps.EdgesOf(graph.defs) }

    /** The graph was built from the same services. */
    ghost predicate Linked()
      reads this, graph, graph.edge, graph.indegree
    {
      && graph.Shape() && graph.Holds(Order()) && Acyclic(Order()) && Deps.AllKnown(graph.defs)
      && |services| == |config| == |graph.defs|
      && forall i :: 0 <= i < |config| ==> config[i].deps == Deps.DepsOf(graph.defs, i)
    }

    constructor (g: Deps.DepGraph, c: seq<Config>, s: seq<Service>)
      requires g.Shape() && g.Holds(Deps.EdgesOf(g.defs)) && Acyclic(Deps.EdgesOf(g.defs)) && Deps.AllKnown(g.defs)
      requires |s| == |c| == |g.defs| && forall i :: 0 <= i < |c| ==> c[i].deps == Deps.DepsOf(g.defs, i)
      ensures Linked() && graph == g && config == c && services == s && log == []
    {
      graph, config, services, log := g, c, s, [];
    }

    method ServiceFind(name: string) returns (i: nat)
      ensures i == FindName(config, name)
    {
      i := 0;
      while i < |config|
        invariant i <= |config|
        invariant forall k :: 0 <= k < i ==> config[k].name != name
      {
        if config[i].name == name { break; }
        i := i + 1;
      }
      FindNameIsFirst(config, name, i);
    }

    method ServiceFindByPid(pid: int) returns (i: nat)
      ensures i == if pid <= 0 then |services| else FindPid(services, pid)
    {
      if pid <= 0 { return |services|; }
      i := 0;
      while i < |services|
        invariant i <= |services|
        invariant forall k :: 0 <= k < i ==> services[k].pid != pid
      {
        if services[i].pid == pid { break; }
        i := i + 1;
      }
      FindPidIsFirst(services, pid, i);
    }

    /** Parent side of forking a service. */
    method SpawnService(i: nat, spawn: Spawn) returns (pid: int)
      requires i < |services| && (spawn.Child? ==> spawn.pid > 0)
      modifies this`services
      ensures pid < 0 <==> !spawn.Child?
      ensures spawn.NoBinary? ==> services == old(services)[i := old(services)[i].(state := Degraded)]
      ensures spawn.ForkFailed? ==> services == old(services)
      ensures spawn.Child? ==> services == old(services)[i := Spawned(old(services)[i], spawn)]
    {
      match spawn
      case NoBinary =>
        services := services[i := services[i].(state := Degraded)];
        pid := -1;
      case ForkFailed =>
        pid := -1;
      case Child(p, at) =>
        services := services[i := services[i].(pid := p, state := Starting, started := at)];
        pid := p;
    }

    /** Readiness of the starting services. */
    method CheckReadiness(now: int, ready: seq<bool>)
      requires |services| == |config| == |ready|
      modifies this`services, this`log
      ensures services == CheckAll(config, old(services), Tick(now, ready, [], []))
      ensures log == old(log) + ChecksOf(Tick(now, ready, [], []), |config|)
    {
      for i := 0 to |services|
        invariant |services| == |config|
        invariant forall k :: 0 <= k < i ==> services[k] == Checked(config[k], old(services)[k], ready[k], now)
        invariant forall k :: i <= k < |services| ==> services[k] == old(services)[k]
        invariant log == old(log) + ChecksOf(Tick(now, ready, [], []), i)
      {
        log := log + [Check(i, ready[i], now)];
        var svc := services[i];
        if svc.state == Starting {
          if config[i].readyNone || ready[i] {
            services := services[i := svc.(state := Running)];
          } else if now - svc.started >= config[i].timeout {
            services := services[i := svc.(state := Degraded)];
          }
        }
      }
    }

    method CanStartNow(i: nat) returns (can: bool)
      requires |services| == |config| && i < |config|
      ensures can == DepsUp(config, services, i)
    {
      var deps := config[i].deps;
      for j := 0 to |deps|
        invariant forall k :: 0 <= k < j && deps[k] < |services| ==> Up(services[deps[k]])
      {
        var d := deps[j];
        if d < |services| && services[d].state != Running && services[d].state != Degraded {
          return false;
        }
      }
      return true;
    }

    method TryStartOne(i: nat, t: Tick)
      requires |services| == |config| == |t.spawns| && i < |services|
      requires t.spawns[i].Child? ==> t.spawns[i].pid > 0
      modifies this`services, this`log
      ensures services == TryStart(config, old(services), t, i)
      ensures log == old(log)
                     + if CanStart(config, old(services), t.now, i) then [Attempt(i, t.spawns[i], t.now)] else []
    {
      if services[i].state != Pending || t.now < services[i].scheduled { return; }
      var can := CanStartNow(i);
      if can {
        log := log + [Attempt(i, t.spawns[i], t.now)];
        var pid := SpawnService(i, t.spawns[i]);
        if pid < 0 && services[i].state != Degraded {
          services := services[i := services[i].(state := Degraded)];
        }
      }
    }

    /** One pump, with the clock, the readiness probes and the fork results as inputs. */
    method SupervisorPump(now: int, ready: seq<bool>, spawns: seq<Spawn>) returns (ghost order: seq<nat>)
      requires Linked() && |ready| == |spawns| == |config|
      requires forall i :: 0 <= i < |spawns| && spawns[i].Child? ==> spawns[i].pid > 0
      modifies this`services, this`log
      ensures Linked() && Topological(Order(), |config|, order)
      ensures services == Pump(config, old(services), Tick(now, ready, spawns, order))
      ensures log == old(log) + PumpSteps(config, old(services), Tick(now, ready, spawns, order))
    {
      var count, list, blocked := graph.TopoSort(Deps.MAX_COUNT, Order());
      order := list;
      ghost var t := Tick(now, ready, spawns, order);
      CheckReadiness(now, ready);
      ghost var c := services;
      assert c == CheckAll(config, old(services), t);
      StartInOrder(list, Tick(now, ready, spawns, list));
      Regroup(old(log), ChecksOf(t, |config|), StartsOf(config, c, t, |list|));
    }

    /** Gives each service of the start order its turn. */
    method StartInOrder(list: seq<nat>, t: Tick)
      requires |services| == |config| == |t.spawns| && t.order == list
      requires forall k :: 0 <= k < |list| ==> list[k] < |config|
      requires PidsPositive(t.spawns)
      modifies this`services, this`log
      ensures services == StartFirst(config, old(services), t, |list|)
      ensures log == old(log) + StartsOf(config, old(services), t, |list|)
    {
      ghost var c := services;
      for k := 0 to |list|
        invariant |services| == |config| && services == StartFirst(config, c, t, k)
        invariant log == old(log) + StartsOf(config, c, t, k)
      {
        TryStartOne(list[k], t);
      }
    }

    /** Puts every service but the compositor in line, and pumps once. */
    method SupervisorStartAll(now: int, ready: seq<bool>, spawns: seq<Spawn>) returns (ghost order: seq<nat>)
      requires Linked() && |ready| == |spawns| == |config|
      requires forall i :: 0 <= i < |spawns| && spawns[i].Child? ==> spawns[i].pid > 0
      modifies this`services, this`log
      ensures Linked() && Topological(Order(), |config|, order)
      ensures services == Pump(config, InLine(config, old(services)), Tick(now, ready, spawns, order))
      ensures log == PumpSteps(config, InLine(config, old(services)), Tick(now, ready, spawns, order))
    {
      for i := 0 to |services|
        invariant |services| == |config|
        invariant forall k :: 0 <= k < i ==> services[k] == LineUp(config[k], old(services)[k])
        invariant forall k :: i <= k < |services| ==> services[k] == old(services)[k]
      {
        services := services[i := services[i].(scheduled := 0)];
        if config[i].name == COMPOSITOR {
          services := services[i := services[i].(state := Stopped)];
        } else if services[i].state != Degraded {
          services := services[i := services[i].(state := Pending)];
        }
      }
      assert services == InLine(config, old(services));
      log := [];
      order := SupervisorPump(now, ready, spawns);
      Regroup([], [], PumpSteps(config, InLine(config, old(services)), Tick(now, ready, spawns, order)));
    }

    method SupervisorStartOne(name: string, now: int, ready: seq<bool>, spawns: seq<Spawn>)
      returns (r: int, ghost order: seq<nat>)
      requires Linked() && |ready| == |spawns| == |config|
      requires forall i :: 0 <= i < |spawns| && spawns[i].Child? ==> spawns[i].pid > 0
      modifies this`services, this`log
      ensures Linked() && (StartsOver(config, old(services), name) ==> Topological(Order(), |config|, order))
      ensures services == Handle(config, old(services), StartAsked(name, Tick(now, ready, spawns, order)))
      ensures log == old(log) + StepsOf(config, old(services), StartAsked(name, Tick(now, ready, spawns, order)))
      ensures var i := FindName(config, name);
              r == if i == |config| || services[i].state == Degraded || services[i].state == Failed then -1 else 0
    {
      var i := ServiceFind(name);
      if i == |config| || services[i].state == Running || services[i].state == Starting {
        return if i == |config| then -1 else 0, [];
      }
      services := services[i := services[i].(state := Pending, restarts := 0, scheduled := 0)];
      log := log + [Reset(i)];
      ghost var m := services;
      order := SupervisorPump(now, ready, spawns);
      Regroup(old(log), [Reset(i)], PumpSteps(config, m, Tick(now, ready, spawns, order)));
      r := if services[i].state == Degraded || services[i].state == Failed then -1 else 0;
    }

    /** Stops a service and waits for its process to go, by force after a while. */
    method SupervisorStopOne(name: string)
      requires |services| == |config|
      modifies this`services, this`log
      ensures services == Handle(config, old(services), StopAsked(name))
      ensures log == old(log) + StepsOf(config, old(services), StopAsked(name))
    {
      var i := ServiceFind(name);
      if i == |config| || services[i].pid <= 0 { return; }
      services := services[i := services[i].(state := Stopping)];
      services := services[i := services[i].(state := Stopped, pid := 0)];
      log := log + [Stop(i)];
    }

    /** A child process has gone; `at` and `later` are the two readings of the clock. */
    method ReaperOnExit(pid: int, code: int, bySignal: bool, at: int, later: int)
      requires |services| == |config|
      modifies this`services, this`log
      ensures services == Handle(config, old(services), Reaped(pid, code, bySignal, at, later))
      ensures log == old(log) + StepsOf(config, old(services), Reaped(pid, code, bySignal, at, later))
    {
      var i := ServiceFindByPid(pid);
      if i == |services| { return; }
      log := log + [Exit(i, code, bySignal, at, later)];
      var svc := services[i].(pid := 0, stopped := at);
      if svc.state == Stopping || svc.state == Stopped {
        services := services[i := svc.(state := Stopped)];
        return;
      }
      svc := svc.(state := Failed);
      var restart := match config[i].policy
        case Always => true
        case OnFailure => code != 0 || bySignal
        case Never => false;
      if !restart {
        svc := svc.(state := Stopped);
      } else {
        svc := svc.(restarts := svc.restarts + 1);
        svc := if svc.restarts > config[i].attempts then svc.(state := Degraded)
               else svc.(state := Pending, scheduled := later + config[i].delay);
      }
      services := services[i := svc];
    }

    method IsBootComplete() returns (complete: bool)
      requires |services| == |config|
      ensures complete == BootComplete(config, services)
    {
      for i := 0 to |services|
        invariant forall k :: 0 <= k < i && WaitsOrStarts(services[k]) ==> HasStopped(config, services, k)
      {
        if services[i].state == Pending || services[i].state == Starting {
          var stopped := BlockedByStopped(i);
          if !stopped { return false; }
        }
      }
      return true;
    }

    method BlockedByStopped(i: nat) returns (blocked: bool)
      requires i < |config|
      ensures blocked == HasStopped(config, services, i)
    {
      var deps := config[i].deps;
      for j := 0 to |deps|
        invariant forall k :: 0 <= k < j && deps[k] < |services| ==> services[deps[k]].state != Stopped
      {
        if deps[j] < |services| && services[deps[j]].state == Stopped { return true; }
      }
      return false;
    }

    /** Handles one event; the start order of a pump is what the graph returns then. */
    method Dispatch(input: Event) returns (ghost ev: Event)
      requires Linked() && InputOk(config, input)
      modifies this`services, this`log
      ensures Linked() && SameInput(input, ev) && InputOk(config, ev)
      ensures Pumping(config, old(services), ev) ==> Topological(Order(), |config|, ev.t.order)
      ensures services == Handle(config, old(services), ev) && log == old(log) + StepsOf(config, old(services), ev)
    {
      ev := input;
      match input
      case Pumped(t) =>
        ghost var order := SupervisorPump(t.now, t.ready, t.spawns);
        ev := Pumped(t.(order := order));
      case StartAsked(name, t) =>
        var r;
        ghost var order;
        r, order := SupervisorStartOne(name, t.now, t.ready, t.spawns);
        ev := StartAsked(name, t.(order := order));
      case StopAsked(name) => SupervisorStopOne(name);
      case Reaped(pid, code, bySignal, at, later) => ReaperOnExit(pid, code, bySignal, at, later);
    }

    /** start_all on freshly loaded services, then whatever happens. The steps logged are the trace of the events,
        and if forks return free pids they keep what the supervisor promises. */
    method Supervise(first: Tick, inputs: seq<Event>) returns (ghost events: seq<Event>)
      requires Linked() && Loaded(services) && InputOk(config, Pumped(first))
      requires forall j :: 0 <= j < |inputs| ==> InputOk(config, inputs[j])
      modifies this`services, this`log
      ensures Linked() && SameInputs([Pumped(first)] + inputs, events)
      ensures var a := InLine(config, old(services));
              Followed(config, a, events, services, log)
              && (PidsFresh(config, a, events) ==> Supervised(config, a, log, services))
    {
      ghost var a := InLine(config, services);
      LoadedLinesUp(config, services);
      ghost var order := SupervisorStartAll(first.now, first.ready, first.spawns);
      events := [Pumped(first.(order := order))];
      OneEvent(config, a, events[0]);
      for j := 0 to |inputs|
        invariant Linked() && SameInputs([Pumped(first)] + inputs[..j], events)
        invariant Followed(config, a, events, services, log)
      {
        ghost var m, done := services, log;
        ghost var ev := Dispatch(inputs[j]);
        NextEvent(config, a, events, m, done, ev);
        NextInput(first, inputs, j, events, ev);
        events := events + [ev];
      }
      assert inputs[..|inputs|] == inputs;
      if PidsFresh(config, a, events) { EveryRun(config, a, events); }
    }

    /** A boot: start_all on freshly loaded services, then pumps at whatever times. If enough of them can be chosen
        that let the readiness timeouts pass, which services are up and whether the boot counts as complete is
        settled. If a service is blocked only through others, the boot never counts as complete. */
    method Boot(inputs: seq<Tick>) returns (complete: bool, ghost ticks: seq<Tick>)
      requires Linked() && Loaded(services) && BootInputs(config, inputs) && |inputs| > 0
      modifies this`services, this`log
      ensures Linked() && SameTicks(inputs, ticks)
      ensures var a := InLine(config, old(services));
              && PumpedBy(config, Order(), a, ticks, services)
              && (complete ==> BlockedDirectly(config, a))
              && (forall picks :: Chosen(config, Order(), a, ticks, picks) && |picks| > |config| ==>
                    (complete <==> BlockedDirectly(config, a)) && SettledAs(config, a, services))
              && (Spaced(config, inputs) && |inputs| > |config| ==>
                    (complete <==> BlockedDirectly(config, a)) && SettledAs(config, a, services))
    {
      ghost var a := InLine(config, services);
      LoadedLinesUp(config, services);
      ticks := PumpAll(inputs);
      complete := IsBootComplete();
      BootEnds(graph.defs, config, a, inputs, ticks);
    }

    method PumpAll(inputs: seq<Tick>) returns (ghost ticks: seq<Tick>)
      requires Linked() && BootInputs(config, inputs) && |inputs| > 0
      modifies this`services, this`log
      ensures Linked() && SameTicks(inputs, ticks)
      ensures PumpedBy(config, Order(), InLine(config, old(services)), ticks, services)
    {
      ghost var a := InLine(config, services);
      var first := inputs[0];
      ghost var order := SupervisorStartAll(first.now, first.ready, first.spawns);
      ticks := [first.(order := order)];
      PumpsOne(config, Order(), a, ticks[0]);
      assert inputs[..1] == [first];
      for k := 1 to |inputs|
        invariant Linked() && SameTicks(inputs[..k], ticks) && PumpedBy(config, Order(), a, ticks, services)
      {
        order := PumpOnce(inputs[k]);
        PumpsNext(config, Order(), a, ticks, inputs[k].(order := order));
        NextTick(inputs, k, ticks, order);
        ticks := ticks + [inputs[k].(order := order)];
      }
      assert inputs[..|inputs|] == inputs;
    }

    method PumpOnce(input: Tick) returns (ghost order: seq<nat>)
      requires Linked() && input.now >= 0 && InputsOk(config, input) && PidsPositive(input.spawns)
      modifies this`services, this`log
      ensures Linked() && TickOk(Order(), |config|, input.(order := order))
      ensures services == Pump(config, old(services), input.(order := order))
    {
      order := SupervisorPump(input.now, input.ready, input.spawns);
    }
  }

  // --------------------------------------------------------------- lemmas

  ghost predicate InputOk(config: seq<Config>, ev: Event) {
    ev.Pumped? || ev.StartAsked? ==> InputsOk(config, ev.t) && PidsPositive(ev.t.spawns)
  }

  /** The same event but for the start order. */
  ghost predicate SameInput(a: Event, b: Event) {
    match a
    case Pumped(t) => b.Pumped? && b.t.(order := t.order) == t
    case StartAsked(name, t) => b.StartAsked? && b.name == name && b.t.(order := t.order) == t
    case StopAsked(_) => a == b
    case Reaped(_, _, _, _, _) => a == b
  }

  lemma Regroup(a: seq<Step>, b: seq<Step>, c: seq<Step>)
    ensures a + b + c == a + (b + c) && [] + c == c
  {
  }

  ghost predicate SameInputs(a: seq<Event>, b: seq<Event>) {
    |a| == |b| && forall j :: 0 <= j < |a| ==> SameInput(a[j], b[j])
  }

  /** The events lead from table `a` to table `b` and their trace is `steps`. */
  ghost predicate Followed(config: seq<Config>, a: seq<Service>, events: seq<Event>, b: seq<Service>,
                           steps: seq<Step>)
  {
    && |config| == |a| && EventsOk(config, events)
    && b == After(config, a, events) && steps == Trace(config, a, events)
  }

  lemma NextEvent(config: seq<Config>, a: seq<Service>, events: seq<Event>, m: seq<Service>, steps: seq<Step>,
                  ev: Event)
    requires Followed(config, a, events, m, steps) && (ev.Pumped? || ev.StartAsked? ==> InputsOk(config, ev.t))
    ensures Followed(config, a, events + [ev], Handle(config, m, ev), steps + StepsOf(config, m, ev))
  {
    assert (events + [ev])[..|events|] == events;
  }

  lemma NextInput(first: Tick, inputs: seq<Event>, j: nat, events: seq<Event>, ev: Event)
    requires j < |inputs| && SameInputs([Pumped(first)] + inputs[..j], events) && SameInput(inputs[j], ev)
    ensures SameInputs([Pumped(first)] + inputs[..j + 1], events + [ev])
  {
    assert [Pumped(first)] + inputs[..j + 1] == [Pumped(first)] + inputs[..j] + [inputs[j]];
  }

  lemma OneEvent(config: seq<Config>, a: seq<Service>, ev: Event)
    requires |config| == |a| && (ev.Pumped? || ev.StartAsked? ==> InputsOk(config, ev.t))
    ensures Followed(config, a, [ev], Handle(config, a, ev), StepsOf(config, a, ev))
  {
    assert [ev][..0] == [];
  }

  function LineUp(c: Config, s: Service): Service {
    if c.name == COMPOSITOR then s.(scheduled := 0, state := Stopped)
    else if s.state.Degraded? then s.(scheduled := 0)
    else s.(scheduled := 0, state := Pending)
  }

  /** The table when start_all has put the services in line. */
  function InLine(config: seq<Config>, services: seq<Service>): (r: seq<Service>)
    requires |config| == |services|
    ensures |r| == |services|
  {
    seq(|services|, i requires 0 <= i < |services| => LineUp(config[i], services[i]))
  }

  /** A table as service_load_all leaves it. */
  ghost predicate Loaded(services: seq<Service>) {
    forall i :: 0 <= i < |services| ==>
      services[i].state.Pending? && services[i].pid == 0 && services[i].restarts == 0
  }

  lemma LoadedLinesUp(config: seq<Config>, services: seq<Service>)
    requires |config| == |services| && Loaded(services)
    ensures Booted(config, InLine(config, services))
  {
  }

  ghost predicate BootInputs(config: seq<Config>, inputs: seq<Tick>) {
    forall k :: 0 <= k < |inputs| ==>
      inputs[k].now >= 0 && InputsOk(config, inputs[k]) && PidsPositive(inputs[k].spawns)
  }

  ghost predicate PidsPositive(spawns: seq<Spawn>) {
    forall i :: 0 <= i < |spawns| && spawns[i].Child? ==> spawns[i].pid > 0
  }

  lemma PumpsOne(config: seq<Config>, e: Edges, a: seq<Service>, t: Tick)
    requires |config| == |a| && TickOk(e, |config|, t)
    ensures PumpedBy(config, e, a, [t], Pump(config, a, t))
  {
    assert [t][..0] == [];
  }

  lemma PumpsNext(config: seq<Config>, e: Edges, a: seq<Service>, ticks: seq<Tick>, t: Tick)
    requires |config| == |a| && TicksOk(e, |config|, ticks) && TickOk(e, |config|, t)
    ensures PumpedBy(config, e, a, ticks + [t], Pump(config, Pumps(config, e, a, ticks), t))
  {
    assert (ticks + [t])[..|ticks|] == ticks;
  }

  ghost predicate PumpedBy(config: seq<Config>, e: Edges, a: seq<Service>, ticks: seq<Tick>, b: seq<Service>) {
    |config| == |a| && TicksOk(e, |config|, ticks) && b == Pumps(config, e, a, ticks)
  }

  lemma NextTick(inputs: seq<Tick>, k: nat, ticks: seq<Tick>, order: seq<nat>)
    requires k < |inputs| && SameTicks(inputs[..k], ticks)
    ensures SameTicks(inputs[..k + 1], ticks + [inputs[k].(order := order)])
  {
  }

  /** The same pumps but for the start orders. */
  ghost predicate SameTicks(inputs: seq<Tick>, ticks: seq<Tick>) {
    |ticks| == |inputs| && forall j :: 0 <= j < |ticks| ==> ticks[j] == inputs[j].(order := ticks[j].order)
  }

  lemma SpacedSame(config: seq<Config>, inputs: seq<Tick>, ticks: seq<Tick>)
    requires Spaced(config, inputs) && SameTicks(inputs, ticks)
    ensures Spaced(config, ticks)
  {
    forall k | 0 <= k < |ticks| - 1 ensures LongAfter(config, ticks[k], ticks[k + 1].now) {
      assert LongAfter(config, inputs[k], inputs[k + 1].now);
    }
  }

  lemma DepsAreEdges(defs: seq<Deps.Def>, config: seq<Config>)
    requires |config| == |defs| && Deps.AllKnown(defs)
    requires forall i :: 0 <= i < |config| ==> config[i].deps == Deps.DepsOf(defs, i)
    ensures DepEdges(config) <= Deps.EdgesOf(defs) && Inside(DepEdges(config), |config|)
  {
    forall d, i | (d, i) in DepEdges(config) ensures i < |config| && d < |config| && (d, i) in Deps.EdgesOf(defs) {
      var a :| 0 <= a < |config[i].deps| && config[i].deps[a] == d;
      assert Deps.Known(defs, defs[i].after);
      assert Deps.Before(defs, d, i);
    }
  }

  /** Every service has come to rest: stopped, still waiting for a stopped one, or up. */
  ghost predicate SettledAs(config: seq<Config>, a: seq<Service>, b: seq<Service>) {
    && |a| == |b| == |config|
    && forall i: nat :: i < |config| ==>
         if config[i].name == COMPOSITOR then b[i].state.Stopped?
         else if Blocked(config, a, i) then b[i].state.Pending? else Up(b[i])
  }

  lemma Settled(defs: seq<Deps.Def>, config: seq<Config>, a: seq<Service>, ticks: seq<Tick>, picks: seq<nat>)
    requires |config| == |defs| && Deps.AllKnown(defs) && Booted(config, a)
    requires forall i :: 0 <= i < |config| ==> config[i].deps == Deps.DepsOf(defs, i)
    requires TicksOk(Deps.EdgesOf(defs), |config|, ticks)
    requires Chosen(config, Deps.EdgesOf(defs), a, ticks, picks) && |picks| > |config|
    ensures var b := Pumps(config, Deps.EdgesOf(defs), a, ticks);
            (BlockedDirectly(config, a) ==> BootComplete(config, b)) && SettledAs(config, a, b)
  {
    DepsAreEdges(defs, config);
    BootCompletes(config, Deps.EdgesOf(defs), a, ticks, picks);
    var b := Pumps(config, Deps.EdgesOf(defs), a, ticks);
    forall i: nat | i < |config| ensures
      if config[i].name == COMPOSITOR then b[i].state.Stopped?
      else if Blocked(config, a, i) then b[i].state.Pending? else Up(b[i])
    {
      BootSettles(config, Deps.EdgesOf(defs), a, ticks, picks, i);
      assert FreshService(config[i], a[i]);
    }
  }

  lemma BootEnds(defs: seq<Deps.Def>, config: seq<Config>, a: seq<Service>, inputs: seq<Tick>, ticks: seq<Tick>)
    requires |config| == |defs| && Deps.AllKnown(defs) && Booted(config, a)
    requires forall i :: 0 <= i < |config| ==> config[i].deps == Deps.DepsOf(defs, i)
    requires TicksOk(Deps.EdgesOf(defs), |config|, ticks) && SameTicks(inputs, ticks)
    ensures var e := Deps.EdgesOf(defs);
            var b := Pumps(config, e, a, ticks);
            && (BootComplete(config, b) ==> BlockedDirectly(config, a))
            && (forall picks :: Chosen(config, e, a, ticks, picks) && |picks| > |config| ==>
                  (BlockedDirectly(config, a) ==> BootComplete(config, b)) && SettledAs(config, a, b))
            && (Spaced(config, inputs) && |inputs| > |config| ==>
                  (BlockedDirectly(config, a) ==> BootComplete(config, b)) && SettledAs(config, a, b))
  {
    var e := Deps.EdgesOf(defs);
    DepsAreEdges(defs, config);
    BootCompletes(config, e, a, ticks, []);
    forall picks | Chosen(config, e, a, ticks, picks) && |picks| > |config|
      ensures BlockedDirectly(config, a) ==> BootComplete(config, Pumps(config, e, a, ticks))
      ensures SettledAs(config, a, Pumps(config, e, a, ticks))
    {
      Settled(defs, config, a, ticks, picks);
    }
    if Spaced(config, inputs) && |inputs| > |config| {
      var all := seq(|ticks|, k => k);
      SpacedSame(config, inputs, ticks);
      SpacedAllChosen(config, e, a, ticks, all);
      Settled(defs, config, a, ticks, all);
    }
  }

  lemma {:induction false} FindNameIsFirst(config: seq<Config>, name: string, i: nat)
    requires i <= |config| && (i < |config| ==> config[i].name == name)
    requires forall k :: 0 <= k < i ==> config[k].name != name
    ensures i == FindName(config, name)
  {
    var f := FindName(config, name);
    assert !(f < i) && !(i < f);
  }

  lemma {:induction false} FindPidIsFirst(services: seq<Service>, pid: int, i: nat)
    requires i <= |services| && (i < |services| ==> services[i].pid == pid)
    requires forall k :: 0 <= k < i ==> services[k].pid != pid
    ensures i == FindPid(services, pid)
  {
    var f := FindPid(services, pid);
    assert !(f < i) && !(i < f);
  }
}
