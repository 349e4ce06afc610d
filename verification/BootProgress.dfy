/** Booting: what repeated pumps make of the services that start_all left waiting. */
module BootProgress {
  import opened Graph
  import opened ServiceRuns

  /** The inputs of one pump: the clock, the readiness probes, the results of forking, and the start order. */
  datatype Tick = Tick(now: int, ready: seq<bool>, spawns: seq<Spawn>, order: seq<nat>)

  ghost predicate TickOk(e: Edges, n: nat, t: Tick) {
    t.now >= 0 && |t.ready| == n && |t.spawns| == n && Topological(e, n, t.order)
  }

  function CheckAll(config: seq<Config>, services: seq<Service>, t: Tick): (r: seq<Service>)
    requires |config| == |services| == |t.ready|
    ensures |r| == |services|
  {
    seq(|services|, i requires 0 <= i < |services| => Checked(config[i], services[i], t.ready[i], t.now))
  }

  predicate CanStart(config: seq<Config>, services: seq<Service>, now: int, i: nat)
    requires i < |config| == |services|
  {
    services[i].state.Pending? && now >= services[i].scheduled && DepsUp(config, services, i)
  }

  function TryStart(config: seq<Config>, services: seq<Service>, t: Tick, i: nat): (r: seq<Service>)
    requires |config| == |services| == |t.spawns|
    ensures |r| == |services|
  {
    if i < |services| && CanStart(config, services, t.now, i)
    then services[i := Spawned(services[i], t.spawns[i])] else services
  }

  /** The services after the first `k` of the start order had their turn. */
  function StartFirst(config: seq<Config>, services: seq<Service>, t: Tick, k: nat): (r: seq<Service>)
    requires |config| == |services| == |t.spawns| && k <= |t.order|
    ensures |r| == |services|
  {
    if k == 0 then services else TryStart(config, StartFirst(config, services, t, k - 1), t, t.order[k - 1])
  }

  function Pump(config: seq<Config>, services: seq<Service>, t: Tick): (r: seq<Service>)
    requires |config| == |services| == |t.ready| == |t.spawns|
    ensures |r| == |services|
  {
    StartFirst(config, CheckAll(config, services, t), t, |t.order|)
  }

  ghost predicate TicksOk(e: Edges, n: nat, ticks: seq<Tick>) {
    forall k :: 0 <= k < |ticks| ==> TickOk(e, n, ticks[k])
  }

  /** The services after a number of pumps in which no process exits and no command arrives. */
  ghost function Pumps(config: seq<Config>, e: Edges, services: seq<Service>, ticks: seq<Tick>): (r: seq<Service>)
    requires |config| == |services| && TicksOk(e, |config|, ticks)
    ensures |r| == |services|
    decreases |ticks|
  {
    if ticks == [] then services
    else
      var last := |ticks| - 1;
      assert TickOk(e, |config|, ticks[last]);
      Pump(config, Pumps(config, e, services, ticks[..last]), ticks[last])
  }

  /** A pump comes when the readiness timeouts of all processes forked by the previous pump are over. */
  ghost predicate Spaced(config: seq<Config>, ticks: seq<Tick>) {
    forall k :: 0 <= k < |ticks| - 1 ==> LongAfter(config, ticks[k], ticks[k + 1].now)
  }

  ghost predicate LongAfter(config: seq<Config>, t: Tick, now: int) {
    forall i :: 0 <= i < |config| && i < |t.spawns| && t.spawns[i].Child? ==> now >= t.spawns[i].at + config[i].timeout
  }

  // -------------------------------------------------------- the start loop

  /** In the start loop a service stays as it is, or it waited and its process was forked. */
  lemma {:induction false} StartKeeps(config: seq<Config>, c: seq<Service>, t: Tick, k: nat, i: nat)
    requires i < |config| == |c| == |t.spawns| && k <= |t.order|
    ensures var r := StartFirst(config, c, t, k)[i];
            r == c[i] || (c[i].state.Pending? && r == Spawned(c[i], t.spawns[i]))
    decreases k
  {
    if k > 0 { StartKeeps(config, c, t, k - 1, i); }
  }

  /** If all its dependencies are up, a waiting service is started when its turn comes. */
  lemma {:induction false} StartReady(config: seq<Config>, c: seq<Service>, t: Tick, p: nat, k: nat)
    requires |config| == |c| == |t.spawns| && p < k <= |t.order| && t.order[p] < |c|
    requires CanStart(config, c, t.now, t.order[p])
    ensures StartFirst(config, c, t, k)[t.order[p]] == Spawned(c[t.order[p]], t.spawns[t.order[p]])
    decreases k
  {
    var i := t.order[p];
    if p < k - 1 {
      StartReady(config, c, t, p, k - 1);
    } else {
      StartKeeps(config, c, t, p, i);
      var m := StartFirst(config, c, t, p);
      forall d | d in config[i].deps && d < |m| ensures Up(m[d]) { StartKeeps(config, c, t, p, d); }
    }
  }

  // ---------------------------------------------------- blocked services

  ghost function DepEdges(config: seq<Config>): Edges {
    set i, d | 0 <= i < |config| && d in config[i].deps :: (d, i)
  }

  /** A stopped service, or one that waits for a stopped one, directly or through others. */
  ghost predicate Blocked(config: seq<Config>, services: seq<Service>, i: nat) {
    exists s: nat, p :: s < |services| && services[s].state.Stopped? && WalkBetween(DepEdges(config), p, s, i)
  }

  lemma StoppedBlocks(config: seq<Config>, services: seq<Service>, i: nat)
    requires i < |services| && services[i].state.Stopped?
    ensures Blocked(config, services, i)
  {
    assert WalkBetween(DepEdges(config), [i], i, i);
  }

  lemma BlockedPassesOn(config: seq<Config>, services: seq<Service>, d: nat, i: nat)
    requires i < |config| && d in config[i].deps && Blocked(config, services, d)
    ensures Blocked(config, services, i)
  {
    var s: nat, p :| s < |services| && services[s].state.Stopped? && WalkBetween(DepEdges(config), p, s, d);
    Extend(DepEdges(config), p, i);
    assert WalkBetween(DepEdges(config), p + [i], s, i);
  }

  lemma BlockedBy(config: seq<Config>, services: seq<Service>, i: nat) returns (d: nat)
    requires i < |services| && Blocked(config, services, i) && !services[i].state.Stopped?
    ensures i < |config| && d in config[i].deps && Blocked(config, services, d)
  {
    var s: nat, p :| s < |services| && services[s].state.Stopped? && WalkBetween(DepEdges(config), p, s, i);
    var m := |p| - 2;
    assert Graph.Step(DepEdges(config), p, m);
    d := p[m];
    Slice(DepEdges(config), p, 0, m + 1);
    assert WalkBetween(DepEdges(config), p[0..m + 1], s, d);
  }

  /** The start loop never starts a blocked service. */
  lemma {:induction false} StartBlocked(config: seq<Config>, a: seq<Service>, c: seq<Service>, t: Tick, k: nat)
    requires |config| == |a| == |c| == |t.spawns| && k <= |t.order|
    requires Booted(config, a) && Inside(DepEdges(config), |config|)
    requires forall i: nat :: i < |a| && Blocked(config, a, i) ==> c[i] == a[i]
    ensures forall i: nat :: i < |a| && Blocked(config, a, i) ==> StartFirst(config, c, t, k)[i] == a[i]
    decreases k
  {
    if k > 0 {
      StartBlocked(config, a, c, t, k - 1);
      var m, i := StartFirst(config, c, t, k - 1), t.order[k - 1];
      if i < |a| && Blocked(config, a, i) {
        CannotStart(config, a, m, i);
      }
    }
  }

  /** As long as the blocked services keep their records, none of them can start. */
  lemma CannotStart(config: seq<Config>, a: seq<Service>, m: seq<Service>, i: nat)
    requires Booted(config, a) && Inside(DepEdges(config), |config|) && |m| == |a|
    requires forall j: nat :: j < |a| && Blocked(config, a, j) ==> m[j] == a[j]
    requires i < |a| && Blocked(config, a, i)
    ensures !(m[i].state.Pending? && DepsUp(config, m, i)) && m[i].pid == 0
  {
    assert FreshService(config[i], a[i]);
    if !a[i].state.Stopped? {
      var d := BlockedBy(config, a, i);
      assert (d, i) in DepEdges(config);
      assert FreshService(config[d], a[d]) && m[d] == a[d];
    }
  }

  /** Blocked services keep their record, however often and however fast the pumps come. */
  lemma {:induction false} BlockedStays(config: seq<Config>, e: Edges, a: seq<Service>, ticks: seq<Tick>)
    requires Booted(config, a) && Inside(DepEdges(config), |config|) && TicksOk(e, |config|, ticks)
    ensures forall i: nat :: i < |a| && Blocked(config, a, i) ==> Pumps(config, e, a, ticks)[i] == a[i]
    decreases |ticks|
  {
    if ticks != [] {
      var last := |ticks| - 1;
      BlockedStays(config, e, a, ticks[..last]);
      assert TickOk(e, |config|, ticks[last]);
      var c := CheckAll(config, Pumps(config, e, a, ticks[..last]), ticks[last]);
      forall i: nat | i < |a| && Blocked(config, a, i) ensures c[i] == a[i] {
        assert FreshService(config[i], a[i]);
      }
      StartBlocked(config, a, c, ticks[last], |ticks[last].order|);
    }
  }

  // ------------------------------------------------------------ progress

  /** What pumps can make of a service: it moves on from waiting to starting to being up, and nothing else. */
  ghost predicate MovesOn(x: Service, y: Service) {
    || y == x
    || ((x.state.Pending? || x.state.Starting? || Up(x)) && Up(y))
    || (x.state.Pending? && y.state.Starting?)
  }

  lemma PumpMovesOn(config: seq<Config>, b: seq<Service>, t: Tick, i: nat)
    requires i < |config| == |b| == |t.ready| == |t.spawns|
    ensures MovesOn(b[i], Pump(config, b, t)[i])
  {
    StartKeeps(config, CheckAll(config, b, t), t, |t.order|, i);
  }

  lemma {:induction false} PumpsMoveOn(config: seq<Config>, e: Edges, a: seq<Service>, ticks: seq<Tick>, n: nat, i: nat)
    requires |config| == |a| && TicksOk(e, |config|, ticks) && n <= |ticks| && i < |config|
    ensures MovesOn(Pumps(config, e, a, ticks[..n])[i], Pumps(config, e, a, ticks)[i])
    decreases |ticks|
  {
    if n == |ticks| {
      assert ticks[..n] == ticks;
    } else {
      var last := |ticks| - 1;
      PumpsMoveOn(config, e, a, ticks[..last], n, i);
      assert ticks[..last][..n] == ticks[..n];
      assert TickOk(e, |config|, ticks[last]);
      PumpMovesOn(config, Pumps(config, e, a, ticks[..last]), ticks[last], i);
    }
  }

  lemma MovesOnBetween(config: seq<Config>, e: Edges, a: seq<Service>, ticks: seq<Tick>, m: nat, n: nat, i: nat)
    requires |config| == |a| && TicksOk(e, |config|, ticks) && m <= n <= |ticks| && i < |config|
    ensures MovesOn(Pumps(config, e, a, ticks[..m])[i], Pumps(config, e, a, ticks[..n])[i])
  {
    PumpsMoveOn(config, e, a, ticks[..n], m, i);
    assert ticks[..n][..m] == ticks[..m];
  }

  /** The readiness timeouts of all starting services are over. */
  ghost predicate TimeoutsOver(config: seq<Config>, services: seq<Service>, now: int) {
    forall i :: 0 <= i < |config| && i < |services| && services[i].state.Starting? ==>
      now >= services[i].started + config[i].timeout
  }

  /** Of the pumps, those at `picks` come one after the other, each when the timeouts of everything that was
      starting after the one before it are over. Any number of other pumps may come in between. */
  ghost predicate Chosen(config: seq<Config>, e: Edges, a: seq<Service>, ticks: seq<Tick>, picks: seq<nat>)
    requires |config| == |a| && TicksOk(e, |config|, ticks)
  {
    && (forall k :: 0 <= k < |picks| ==> picks[k] < |ticks|)
    && (forall k :: 0 < k < |picks| ==> InTime(config, e, a, ticks, picks, k))
  }

  ghost predicate InTime(config: seq<Config>, e: Edges, a: seq<Service>, ticks: seq<Tick>, picks: seq<nat>, k: nat)
    requires |config| == |a| && TicksOk(e, |config|, ticks) && 0 < k < |picks|
  {
    && picks[k - 1] < picks[k] < |ticks|
    && TimeoutsOver(config, Pumps(config, e, a, ticks[..picks[k - 1] + 1]), ticks[picks[k]].now)
  }

  /** What is starting after one chosen pump is up in the next one. */
  lemma UpByNext(config: seq<Config>, e: Edges, a: seq<Service>, ticks: seq<Tick>, picks: seq<nat>, k: nat, i: nat)
    requires |config| == |a| && TicksOk(e, |config|, ticks) && Chosen(config, e, a, ticks, picks)
    requires 0 < k < |picks| && i < |config|
    requires Started(config, e, a, ticks, picks[k - 1] + 1, i)
    requires TickOk(e, |config|, ticks[picks[k]])
    ensures Up(CheckAll(config, Pumps(config, e, a, ticks[..picks[k]]), ticks[picks[k]])[i])
  {
    assert InTime(config, e, a, ticks, picks, k);
    MovesOnBetween(config, e, a, ticks, picks[k - 1] + 1, picks[k], i);
  }

  /** Every service has its turn in a start order. */
  lemma PlaceOf(e: Edges, n: nat, order: seq<nat>, i: nat) returns (p: nat)
    requires Topological(e, n, order) && i < n
    ensures p < n && order[p] == i
  {
    DistinctBound(order, n);
    assert i in order;
    p :| 0 <= p < n && order[p] == i;
  }

  ghost predicate Setting(config: seq<Config>, e: Edges, a: seq<Service>, order: seq<nat>) {
    Booted(config, a) && DepEdges(config) <= e && Inside(DepEdges(config), |config|) && Topological(e, |config|, order)
  }

  /** After the first `n` pumps service `i` waits no longer. */
  ghost predicate Started(config: seq<Config>, e: Edges, a: seq<Service>, ticks: seq<Tick>, n: nat, i: nat)
    requires i < |config| == |a| && TicksOk(e, |config|, ticks) && n <= |ticks|
  {
    var s := Pumps(config, e, a, ticks[..n])[i];
    s.state.Starting? || Up(s)
  }

  /** After chosen pump `k`, the first `k + 1` services of a start order wait no longer, unless they are blocked. */
  lemma {:induction false} Progress(config: seq<Config>, e: Edges, a: seq<Service>, ticks: seq<Tick>,
                                    picks: seq<nat>, order: seq<nat>, k: nat)
    requires Setting(config, e, a, order) && TicksOk(e, |config|, ticks) && Chosen(config, e, a, ticks, picks)
    requires k < |picks|
    ensures forall p: nat :: p <= k && p < |order| && !Blocked(config, a, order[p]) ==>
              Started(config, e, a, ticks, picks[k] + 1, order[p])
    decreases k
  {
    if k > 0 { Progress(config, e, a, ticks, picks, order, k - 1); }
    forall p: nat | p <= k && p < |order| && !Blocked(config, a, order[p])
      ensures Started(config, e, a, ticks, picks[k] + 1, order[p])
    {
      if p < k {
        assert InTime(config, e, a, ticks, picks, k);
        MovesOnBetween(config, e, a, ticks, picks[k - 1] + 1, picks[k] + 1, order[p]);
      } else {
        NextStarts(config, e, a, ticks, picks, order, k);
      }
    }
  }

  lemma NextStarts(config: seq<Config>, e: Edges, a: seq<Service>, ticks: seq<Tick>,
                   picks: seq<nat>, order: seq<nat>, k: nat)
    requires Setting(config, e, a, order) && TicksOk(e, |config|, ticks) && Chosen(config, e, a, ticks, picks)
    requires k < |picks| && k < |order| && !Blocked(config, a, order[k])
    requires forall q: nat :: q < k && !Blocked(config, a, order[q]) ==>
               Started(config, e, a, ticks, picks[k - 1] + 1, order[q])
    ensures Started(config, e, a, ticks, picks[k] + 1, order[k])
  {
    var i, m := order[k], picks[k];
    NextPump(config, e, a, ticks, m);
    FreeWaits(config, e, a, ticks[..m], i);
    var c := CheckAll(config, Pumps(config, e, a, ticks[..m]), ticks[m]);
    forall d | d in config[i].deps && d < |config| ensures Up(c[d]) {
      var q := DependencyPlace(config, e, a, order, k, d);
      assert Started(config, e, a, ticks, picks[k - 1] + 1, order[q]);
      UpByNext(config, e, a, ticks, picks, k, d);
    }
    TurnComes(config, e, Pumps(config, e, a, ticks[..m]), ticks[m], i);
  }

  lemma NextPump(config: seq<Config>, e: Edges, a: seq<Service>, ticks: seq<Tick>, m: nat)
    requires |config| == |a| && TicksOk(e, |config|, ticks) && m < |ticks|
    ensures TickOk(e, |config|, ticks[m])
    ensures Pumps(config, e, a, ticks[..m + 1]) == Pump(config, Pumps(config, e, a, ticks[..m]), ticks[m])
  {
    assert ticks[..m + 1][..m] == ticks[..m] && ticks[..m + 1][m] == ticks[m];
  }

  /** A service that is not blocked waits as at the start, is starting, or is up. */
  lemma FreeWaits(config: seq<Config>, e: Edges, a: seq<Service>, ticks: seq<Tick>, i: nat)
    requires Booted(config, a) && TicksOk(e, |config|, ticks) && i < |config| && !Blocked(config, a, i)
    ensures var s := Pumps(config, e, a, ticks)[i];
            (s.state.Pending? && s.scheduled == 0) || s.state.Starting? || Up(s)
  {
    assert FreshService(config[i], a[i]);
    if a[i].state.Stopped? { StoppedBlocks(config, a, i); }
    PumpsMoveOn(config, e, a, ticks, 0, i);
    assert ticks[..0] == [];
  }

  /** A dependency of a service that is not blocked is not blocked either and comes before it. */
  lemma DependencyPlace(config: seq<Config>, e: Edges, a: seq<Service>, order: seq<nat>, p: nat, d: nat)
    returns (q: nat)
    requires Setting(config, e, a, order) && p < |order| && !Blocked(config, a, order[p])
    requires d in config[order[p]].deps && d < |config|
    ensures q < p && order[q] == d && !Blocked(config, a, d)
  {
    if Blocked(config, a, d) { BlockedPassesOn(config, a, d, order[p]); }
    q := PlaceOf(e, |config|, order, d);
    assert (order[q], order[p]) in DepEdges(config);
  }

  /** A pump starts a waiting service whose dependencies are up after the readiness check. */
  lemma TurnComes(config: seq<Config>, e: Edges, b: seq<Service>, t: Tick, i: nat)
    requires |config| == |b| && TickOk(e, |config|, t) && i < |config|
    requires (b[i].state.Pending? && b[i].scheduled == 0) || b[i].state.Starting? || Up(b[i])
    requires forall d :: d in config[i].deps && d < |config| ==> Up(CheckAll(config, b, t)[d])
    ensures var s := Pump(config, b, t)[i]; s.state.Starting? || Up(s)
  {
    var c := CheckAll(config, b, t);
    if b[i].state.Pending? {
      var turn := PlaceOf(e, |config|, t.order, i);
      StartReady(config, c, t, turn, |t.order|);
    } else {
      PumpMovesOn(config, b, t, i);
    }
  }

  /** If more pumps than there are services can be chosen, each service that is not stopped is up after them,
      unless it waits for a stopped one; those still wait. */
  lemma BootSettles(config: seq<Config>, e: Edges, a: seq<Service>, ticks: seq<Tick>, picks: seq<nat>, i: nat)
    requires Booted(config, a) && DepEdges(config) <= e && Inside(DepEdges(config), |config|) && i < |config|
    requires TicksOk(e, |config|, ticks) && Chosen(config, e, a, ticks, picks) && |picks| > |config|
    ensures var s := Pumps(config, e, a, ticks)[i];
            if a[i].state.Stopped? then s.state.Stopped?
            else if Blocked(config, a, i) then s.state.Pending? else Up(s)
  {
    assert FreshService(config[i], a[i]);
    if a[i].state.Stopped? { StoppedBlocks(config, a, i); }
    if Blocked(config, a, i) {
      BlockedStays(config, e, a, ticks);
    } else {
      FreeComesUp(config, e, a, ticks, picks, i);
    }
  }

  lemma FreeComesUp(config: seq<Config>, e: Edges, a: seq<Service>, ticks: seq<Tick>, picks: seq<nat>, i: nat)
    requires Booted(config, a) && DepEdges(config) <= e && Inside(DepEdges(config), |config|) && i < |config|
    requires TicksOk(e, |config|, ticks) && Chosen(config, e, a, ticks, picks) && |picks| > |config|
    requires !Blocked(config, a, i)
    ensures Up(Pumps(config, e, a, ticks)[i])
  {
    var k := |config|;
    AllStarted(config, e, a, ticks, picks, i);
    assert InTime(config, e, a, ticks, picks, k);
    UpAfterNext(config, e, a, ticks, picks, k, i);
    UpStaysUp(config, e, a, ticks, picks[k] + 1, i);
  }

  lemma UpStaysUp(config: seq<Config>, e: Edges, a: seq<Service>, ticks: seq<Tick>, n: nat, i: nat)
    requires |config| == |a| && TicksOk(e, |config|, ticks) && n <= |ticks| && i < |config|
    requires Up(Pumps(config, e, a, ticks[..n])[i])
    ensures Up(Pumps(config, e, a, ticks)[i])
  {
    PumpsMoveOn(config, e, a, ticks, n, i);
  }

  lemma AllStarted(config: seq<Config>, e: Edges, a: seq<Service>, ticks: seq<Tick>, picks: seq<nat>, i: nat)
    requires Booted(config, a) && DepEdges(config) <= e && Inside(DepEdges(config), |config|) && i < |config|
    requires TicksOk(e, |config|, ticks) && Chosen(config, e, a, ticks, picks) && |picks| > |config|
    requires !Blocked(config, a, i)
    ensures Started(config, e, a, ticks, picks[|config| - 1] + 1, i)
  {
    var order := ticks[picks[0]].order;
    assert TickOk(e, |config|, ticks[picks[0]]);
    var p := PlaceOf(e, |config|, order, i);
    Progress(config, e, a, ticks, picks, order, |config| - 1);
    assert Started(config, e, a, ticks, picks[|config| - 1] + 1, order[p]);
  }

  lemma UpAfterNext(config: seq<Config>, e: Edges, a: seq<Service>, ticks: seq<Tick>, picks: seq<nat>, k: nat, i: nat)
    requires |config| == |a| && TicksOk(e, |config|, ticks) && Chosen(config, e, a, ticks, picks)
    requires 0 < k < |picks| && i < |config| && Started(config, e, a, ticks, picks[k - 1] + 1, i)
    ensures Up(Pumps(config, e, a, ticks[..picks[k] + 1])[i])
  {
    NextPump(config, e, a, ticks, picks[k]);
    UpByNext(config, e, a, ticks, picks, k, i);
    StaysUp(config, Pumps(config, e, a, ticks[..picks[k]]), ticks[picks[k]], i);
  }

  lemma StaysUp(config: seq<Config>, b: seq<Service>, t: Tick, i: nat)
    requires i < |config| == |b| == |t.ready| == |t.spawns| && Up(CheckAll(config, b, t)[i])
    ensures Up(Pump(config, b, t)[i])
  {
    StartKeeps(config, CheckAll(config, b, t), t, |t.order|, i);
  }

  // ----------------------------------------------------- pumps far apart

  lemma SpacedPrefix(config: seq<Config>, ticks: seq<Tick>, n: nat)
    requires Spaced(config, ticks) && n <= |ticks|
    ensures Spaced(config, ticks[..n])
  {
    forall k | 0 <= k < n - 1 ensures LongAfter(config, ticks[..n][k], ticks[..n][k + 1].now) {
      assert LongAfter(config, ticks[k], ticks[k + 1].now);
    }
  }

  /** What is starting was forked by the last pump, if every pump waits for the timeouts of the one before. */
  lemma {:induction false} StartingIsNew(config: seq<Config>, e: Edges, a: seq<Service>, ticks: seq<Tick>, i: nat)
    requires Booted(config, a) && TicksOk(e, |config|, ticks) && Spaced(config, ticks) && i < |config|
    ensures var s := Pumps(config, e, a, ticks)[i];
            s.state.Starting? ==> |ticks| > 0 && ForkedBy(ticks[|ticks| - 1], s, i)
    decreases |ticks|
  {
    assert FreshService(config[i], a[i]);
    if ticks != [] {
      var last := |ticks| - 1;
      var rest := ticks[..last];
      SpacedPrefix(config, ticks, last);
      StartingIsNew(config, e, a, rest, i);
      assert TickOk(e, |config|, ticks[last]);
      assert last > 0 ==> LongAfter(config, ticks[last - 1], ticks[last].now) && rest[last - 1] == ticks[last - 1];
      StartKeeps(config, CheckAll(config, Pumps(config, e, a, rest), ticks[last]), ticks[last], |ticks[last].order|, i);
    }
  }

  ghost predicate ForkedBy(t: Tick, s: Service, i: nat) {
    i < |t.spawns| && t.spawns[i].Child? && s.started == t.spawns[i].at
  }

  /** Then all pumps can be chosen. */
  lemma SpacedAllChosen(config: seq<Config>, e: Edges, a: seq<Service>, ticks: seq<Tick>, picks: seq<nat>)
    requires Booted(config, a) && TicksOk(e, |config|, ticks) && Spaced(config, ticks)
    requires picks == seq(|ticks|, k => k)
    ensures Chosen(config, e, a, ticks, picks)
  {
    forall k | 0 < k < |picks| ensures InTime(config, e, a, ticks, picks, k) {
      var rest := ticks[..k];
      SpacedPrefix(config, ticks, k);
      assert LongAfter(config, ticks[k - 1], ticks[k].now);
      forall i | 0 <= i < |config| && Pumps(config, e, a, rest)[i].state.Starting?
        ensures ticks[k].now >= Pumps(config, e, a, rest)[i].started + config[i].timeout
      {
        StartingIsNew(config, e, a, rest, i);
      }
    }
  }

  // ------------------------------------------------------ boot completion

  predicate WaitsOrStarts(s: Service) { s.state.Pending? || s.state.Starting? }

  predicate HasStopped(config: seq<Config>, services: seq<Service>, i: nat)
    requires i < |config|
  {
    exists d :: d in config[i].deps && d < |services| && services[d].state.Stopped?
  }

  /** What supervisor_is_boot_complete answers. */
  predicate BootComplete(config: seq<Config>, services: seq<Service>)
    requires |config| == |services|
  {
    forall i :: 0 <= i < |services| && WaitsOrStarts(services[i]) ==> HasStopped(config, services, i)
  }

  /** Whether every service that waits for a stopped one names a stopped one itself. */
  ghost predicate BlockedDirectly(config: seq<Config>, a: seq<Service>)
    requires |config| == |a|
  {
    forall i :: 0 <= i < |a| && Blocked(config, a, i) && !a[i].state.Stopped? ==> HasStopped(config, a, i)
  }

  /** If some service is blocked only through others, no number of pumps at whatever times completes the boot. */
  lemma NeverCompletes(config: seq<Config>, e: Edges, a: seq<Service>, ticks: seq<Tick>)
    requires Booted(config, a) && Inside(DepEdges(config), |config|) && TicksOk(e, |config|, ticks)
    requires !BlockedDirectly(config, a)
    ensures !BootComplete(config, Pumps(config, e, a, ticks))
  {
    var b := Pumps(config, e, a, ticks);
    var i :| 0 <= i < |a| && Blocked(config, a, i) && !a[i].state.Stopped? && !HasStopped(config, a, i);
    assert FreshService(config[i], a[i]);
    BlockedStays(config, e, a, ticks);
    forall d | d in config[i].deps && d < |b| ensures !b[d].state.Stopped? {
      assert FreshService(config[d], a[d]);
      PumpsMoveOn(config, e, a, ticks, 0, d);
      assert ticks[..0] == [];
    }
    assert WaitsOrStarts(b[i]) && !HasStopped(config, b, i);
  }

  /** The boot is reported complete in the end exactly when no service is blocked only through others: it is
      after enough pumps if there is none, and otherwise it never is. */
  lemma BootCompletes(config: seq<Config>, e: Edges, a: seq<Service>, ticks: seq<Tick>, picks: seq<nat>)
    requires Booted(config, a) && DepEdges(config) <= e && Inside(DepEdges(config), |config|)
    requires TicksOk(e, |config|, ticks)
    ensures BootComplete(config, Pumps(config, e, a, ticks)) ==> BlockedDirectly(config, a)
    ensures Chosen(config, e, a, ticks, picks) && |picks| > |config| && BlockedDirectly(config, a)
            ==> BootComplete(config, Pumps(config, e, a, ticks))
  {
    if !BlockedDirectly(config, a) {
      NeverCompletes(config, e, a, ticks);
    } else if Chosen(config, e, a, ticks, picks) && |picks| > |config| {
      var b := Pumps(config, e, a, ticks);
      forall i: nat | i < |a| && WaitsOrStarts(b[i]) ensures HasStopped(config, b, i) {
        BootSettles(config, e, a, ticks, picks, i);
        var d :| d in config[i].deps && d < |a| && a[d].state.Stopped?;
        BootSettles(config, e, a, ticks, picks, d);
      }
    }
  }

  // ------------------------------------------ whatever else may happen

  /** No run without a start command changes a blocked service: it has no process that could exit or be stopped. */
  lemma {:induction false} BlockedInRun(config: seq<Config>, a: seq<Service>, steps: seq<ServiceRuns.Step>,
                                        b: seq<Service>)
    requires Booted(config, a) && Inside(DepEdges(config), |config|) && Leads(config, a, steps, b)
    requires forall k :: 0 <= k < |steps| ==> !steps[k].Reset?
    ensures |b| == |a| && forall i: nat :: i < |a| && Blocked(config, a, i) ==> b[i] == a[i]
    decreases |steps|
  {
    if steps != [] {
      var last := |steps| - 1;
      var m :| Leads(config, a, steps[..last], m) && Follows(config, m, steps[last], b);
      BlockedInRun(config, a, steps[..last], m);
      var i := steps[last].i;
      if Blocked(config, a, i) {
        assert FreshService(config[i], a[i]);
        CannotStart(config, a, m, i);
      }
    }
  }

  /** A service that waits for blocked ones only, none of them stopped, keeps the boot incomplete in every run
      without a start command, whatever exits or is stopped. */
  lemma NeverInRun(config: seq<Config>, a: seq<Service>, steps: seq<ServiceRuns.Step>, b: seq<Service>, i: nat)
    requires Booted(config, a) && Inside(DepEdges(config), |config|) && Leads(config, a, steps, b)
    requires forall k :: 0 <= k < |steps| ==> !steps[k].Reset?
    requires i < |config| && Blocked(config, a, i) && !a[i].state.Stopped?
    requires forall d :: d in config[i].deps && d < |a| ==> Blocked(config, a, d) && !a[d].state.Stopped?
    ensures |b| == |config| && !BootComplete(config, b)
  {
    BlockedInRun(config, a, steps, b);
    assert FreshService(config[i], a[i]);
    assert WaitsOrStarts(b[i]) && !HasStopped(config, b, i);
  }

  /** Three services in a row behind the compositor. */
  ghost predicate ThreeInARow(config: seq<Config>) {
    && |config| == 3 && config[0].name == COMPOSITOR && config[1].name != COMPOSITOR && config[2].name != COMPOSITOR
    && config[0].deps == [] && config[1].deps == [0] && config[2].deps == [1]
  }

  lemma LastWaitsForEver(config: seq<Config>, a: seq<Service>)
    requires ThreeInARow(config) && Booted(config, a)
    ensures Inside(DepEdges(config), |config|) && Blocked(config, a, 1) && Blocked(config, a, 2)
    ensures a[1].state.Pending? && a[2].state.Pending? && !BlockedDirectly(config, a)
    ensures forall d :: d in config[2].deps && d < |a| ==> Blocked(config, a, d) && !a[d].state.Stopped?
  {
    assert FreshService(config[0], a[0]) && FreshService(config[1], a[1]) && FreshService(config[2], a[2]);
    StoppedBlocks(config, a, 0);
    BlockedPassesOn(config, a, 0, 1);
    BlockedPassesOn(config, a, 1, 2);
    assert !HasStopped(config, a, 2);
  }

  /** The last of them keeps the boot incomplete for ever: through all pumps, and through all exits and stop
      commands besides. */
  lemma BootNeverCompletes(config: seq<Config>, a: seq<Service>, e: Edges, ticks: seq<Tick>,
                           steps: seq<ServiceRuns.Step>, b: seq<Service>)
    requires ThreeInARow(config) && Booted(config, a) && TicksOk(e, |config|, ticks)
    requires Leads(config, a, steps, b) && forall k :: 0 <= k < |steps| ==> !steps[k].Reset?
    ensures !BootComplete(config, Pumps(config, e, a, ticks))
    ensures |b| == |config| && !BootComplete(config, b)
  {
    LastWaitsForEver(config, a);
    NeverCompletes(config, e, a, ticks);
    NeverInRun(config, a, steps, b, 2);
  }
}
