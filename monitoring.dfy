/** `update_machines_status` and `monitor_loop`: one monitoring cycle probes
    every machine, writes its status and a history row, checks its alerts,
    prunes history older than the retention window and commits. The ping
    results, the metrics replies and the clock readings of a cycle are
    inputs. */
module Monitoring {
  import opened Basics
  import opened Fleet
  import opened Metrics
  import opened Alerts

  /** The outcome of pinging a host: answered within the timeout, with the
      measured round trip, or not. */
  datatype Probe = Reachable(latency: nat) | Silent

  /** What the cycle concludes about one machine. */
  datatype Observation = Observation(online: bool, latency: int, rx: int, tx: int)

  /** The observation of machine `m`: online exactly when the probe was
      answered; the rates come from the metrics only for an online machine
      that has metrics enabled, and are 0 otherwise. */
  function Observe(m: Machine, p: Probe, metrics: map<string, Rates>): (o: Observation)
    ensures o.online <==> p.Reachable?
    ensures o.online ==> o.latency == p.latency
    ensures !o.online ==> o.latency == 0 && o.rx == 0 && o.tx == 0
    ensures !m.useSnmp ==> o.rx == 0 && o.tx == 0
    ensures o.online && m.useSnmp ==>
      o.rx == Value(metrics, m.host, Receive) && o.tx == Value(metrics, m.host, Transmit)
  {
    match p
    case Silent => Observation(false, 0, 0, 0)
    case Reachable(latency) =>
      if m.useSnmp then Observation(true, latency, Value(metrics, m.host, Receive), Value(metrics, m.host, Transmit))
      else Observation(true, latency, 0, 0)
  }

  /** The status columns written for an observation at `now`. */
  function StatusAfter(o: Observation, now: int): LiveStatus {
    LiveStatus(o.online, o.latency, o.rx, o.tx, Some(now))
  }

  /** The history row written for an observation at `now`. */
  function RowFor(id: string, o: Observation, now: int): HistoryRow {
    HistoryRow(id, if o.online then Online else Offline, now, o.latency, o.rx, o.tx)
  }

  function ObserveAll(ms: seq<Machine>, probes: seq<Probe>, metrics: map<string, Rates>): (obs: seq<Observation>)
    requires |probes| == |ms|
    ensures |obs| == |ms|
    ensures forall i :: 0 <= i < |ms| ==> obs[i] == Observe(ms[i], probes[i], metrics)
  {
    seq(|ms|, i requires 0 <= i < |ms| => Observe(ms[i], probes[i], metrics))
  }

  /** The machines table after a committed cycle: every machine keeps its
      identity and settings and carries the status it was observed in, with
      `now` as its last-seen time, online or not. */
  function Refreshed(ms: seq<Machine>, obs: seq<Observation>, now: int): (r: seq<Machine>)
    requires |obs| == |ms|
    ensures |r| == |ms|
    ensures forall i :: 0 <= i < |ms| ==> r[i].(status := ms[i].status) == ms[i]
    ensures forall i :: 0 <= i < |ms| ==>
      r[i].status.online == obs[i].online && r[i].status.lastSeen == Some(now)
      && r[i].status.latency == obs[i].latency && r[i].status.rx == obs[i].rx && r[i].status.tx == obs[i].tx
  {
    seq(|ms|, i requires 0 <= i < |ms| => ms[i].(status := StatusAfter(obs[i], now)))
  }

  /** The history rows a cycle writes: one per machine, in table order, all
      stamped `now`, "ONLINE" exactly for the machines observed online. */
  function CycleRows(ms: seq<Machine>, obs: seq<Observation>, now: int): (rows: seq<HistoryRow>)
    requires |obs| == |ms|
    ensures |rows| == |ms|
    ensures forall i :: 0 <= i < |ms| ==>
      rows[i].machineId == ms[i].id && rows[i].time == now && (rows[i].status == Online <==> obs[i].online)
      && rows[i].latency == obs[i].latency && rows[i].rx == obs[i].rx && rows[i].tx == obs[i].tx
  {
    seq(|ms|, i requires 0 <= i < |ms| => RowFor(ms[i].id, obs[i], now))
  }

  /** The rows of one more machine extend the rows of the machines before it. */
  lemma CycleRowsStep(ms: seq<Machine>, obs: seq<Observation>, now: int, i: nat)
    requires |obs| == |ms| && i < |ms|
    ensures CycleRows(ms[..i + 1], obs[..i + 1], now) == CycleRows(ms[..i], obs[..i], now) + [RowFor(ms[i].id, obs[i], now)]
  {
    var a := CycleRows(ms[..i + 1], obs[..i + 1], now);
    var b := CycleRows(ms[..i], obs[..i], now) + [RowFor(ms[i].id, obs[i], now)];
    assert |a| == |b|;
    forall j | 0 <= j < |a| ensures a[j] == b[j] {
    }
  }

  /** The alert state after the alert checks of the first `k` machines, the
      i-th at clock reading `clocks[i]`. */
  function AlertsAfter(s: AlertState, ms: seq<Machine>, obs: seq<Observation>, clocks: seq<int>, k: nat, cfg: Settings): AlertState
    requires |obs| == |ms| && |clocks| == |ms| && k <= |ms|
  {
    if k == 0 then s
    else
      var o := obs[k - 1];
      CheckAlertsSpec(AlertsAfter(s, ms, obs, clocks, k - 1, cfg), ms[k - 1], o.online, o.rx, o.tx, clocks[k - 1], cfg)
  }

  /** One more machine's alert check. */
  lemma AlertsAfterStep(s: AlertState, ms: seq<Machine>, obs: seq<Observation>, clocks: seq<int>, k: nat, cfg: Settings)
    requires |obs| == |ms| && |clocks| == |ms| && k < |ms|
    ensures AlertsAfter(s, ms, obs, clocks, k + 1, cfg)
      == CheckAlertsSpec(AlertsAfter(s, ms, obs, clocks, k, cfg), ms[k], obs[k].online, obs[k].rx, obs[k].tx, clocks[k], cfg)
  {
  }

  /** However many machines are checked, the alert state keeps its
      invariant: same-kind alerts of one machine more than a cooldown apart,
      and every e-mail matched by an alert row. */
  lemma {:induction false} AlertsAfterGood(s: AlertState, ms: seq<Machine>, obs: seq<Observation>, clocks: seq<int>, k: nat, cfg: Settings)
    requires |obs| == |ms| && |clocks| == |ms| && k <= |ms|
    ensures Good(s, cfg.alertCooldown) ==> Good(AlertsAfter(s, ms, obs, clocks, k, cfg), cfg.alertCooldown)
  {
    if k > 0 && Good(s, cfg.alertCooldown) {
      AlertsAfterGood(s, ms, obs, clocks, k - 1, cfg);
      var o := obs[k - 1];
      CheckAlertsKeepsGood(AlertsAfter(s, ms, obs, clocks, k - 1, cfg), ms[k - 1], o.online, o.rx, o.tx, clocks[k - 1], cfg);
    }
  }

  /** The oldest history time a prune keeps. */
  function Cutoff(clock: int, retentionDays: int): int {
    clock - retentionDays * SecondsPerDay
  }

  /** `DELETE FROM history WHERE time < cutoff`: the rows at or after the
      cutoff stay, in their order, and no other row does. */
  function Prune(history: seq<HistoryRow>, cutoff: int): (r: seq<HistoryRow>)
    ensures forall row :: row in r ==> row.time >= cutoff
    ensures forall row :: multiset(r)[row] == if row.time >= cutoff then multiset(history)[row] else 0
  {
    Keep(history, (row: HistoryRow) => row.time >= cutoff)
  }

  /** A cycle's own history rows survive its prune as long as the prune
      clock reads no more than the retention window after the cycle's
      timestamp; the prune then removes only older rows. */
  lemma FreshRowsSurvivePrune(history: seq<HistoryRow>, rows: seq<HistoryRow>, now: int, clock: int, retentionDays: int)
    requires forall i :: 0 <= i < |rows| ==> rows[i].time == now
    requires clock - now <= retentionDays * SecondsPerDay
    ensures Prune(history + rows, Cutoff(clock, retentionDays))
      == Prune(history, Cutoff(clock, retentionDays)) + rows
  {
    var keep := (row: HistoryRow) => row.time >= Cutoff(clock, retentionDays);
    KeepAppend(history, rows, keep);
    forall row | row in rows ensures keep(row) {
      var i :| 0 <= i < |rows| && rows[i] == row;
      assert row.time == now;
    }
    KeepAll(rows, keep);
  }

  /** Pruning twice with the same cutoff is pruning once. */
  lemma PruneIdempotent(history: seq<HistoryRow>, cutoff: int)
    ensures Prune(Prune(history, cutoff), cutoff) == Prune(history, cutoff)
  {
    var r := Prune(history, cutoff);
    assert forall i :: 0 <= i < |r| ==> r[i] in r;
    KeepAll(r, (row: HistoryRow) => row.time >= cutoff);
  }

  /** The machines table part way through a sweep: the first `k` machines
      carry their observed status, the others are as they were. */
  function Swept(ms: seq<Machine>, obs: seq<Observation>, now: int, k: nat): (r: seq<Machine>)
    requires |obs| == |ms|
    ensures |r| == |ms|
    ensures forall j :: 0 <= j < |ms| ==> r[j].id == ms[j].id
    ensures k == 0 ==> r == ms
    ensures k >= |ms| ==> r == Refreshed(ms, obs, now)
  {
    seq(|ms|, j requires 0 <= j < |ms| => if j < k then ms[j].(status := StatusAfter(obs[j], now)) else ms[j])
  }

  /** Refreshing machine `k` takes the sweep from `k` machines to `k + 1`. */
  lemma SweptStep(ms: seq<Machine>, obs: seq<Observation>, now: int, k: nat)
    requires |obs| == |ms| && k < |ms|
    ensures Swept(ms, obs, now, k + 1) == Swept(ms, obs, now, k)[k := ms[k].(status := StatusAfter(obs[k], now))]
  {
  }

  /** The inputs of one cycle: the two metrics replies, the cycle timestamp,
      one probe and one alert-clock reading per machine, the clock reading
      the prune cutoff is taken from, and the first database write that
      fails, if any (`k` < the number of machines: the status update of
      machine `k`; otherwise the prune or the commit). */
  datatype CycleInput = CycleInput(
    rx: Reply,
    tx: Reply,
    now: int,
    probes: seq<Probe>,
    alertClocks: seq<int>,
    pruneClock: int,
    storeFault: Option<nat>)

  predicate Fits(input: CycleInput, n: nat) {
    |input.probes| == n && |input.alertClocks| == n
  }

  /** How many machines a cycle gets through before a failing write ends it. */
  function Reached(input: CycleInput, n: nat): (k: nat)
    ensures k <= n
    ensures input.storeFault.None? ==> k == n
  {
    match input.storeFault
    case None => n
    case Some(f) => if f < n then f else n
  }

  /** The monitor's tables and its alert state. */
  datatype MonitorState = MonitorState(machines: seq<Machine>, history: seq<HistoryRow>, alerts: AlertState)

  /** One turn of `monitor_loop`: the state after `update_machines_status`
      with the inputs of that turn, a failing write caught. Every machine
      keeps its place and identity; a failing write leaves both tables as
      they were; the alert invariant holds throughout. */
  function Cycle(s: MonitorState, input: CycleInput, cfg: Settings): (r: MonitorState)
    requires Fits(input, |s.machines|)
    ensures |r.machines| == |s.machines|
    ensures forall i :: 0 <= i < |s.machines| ==> r.machines[i].id == s.machines[i].id
    ensures input.storeFault.Some? ==> r.machines == s.machines && r.history == s.history
    ensures input.storeFault.None? ==> forall i :: 0 <= i < |r.machines| ==> r.machines[i].status.lastSeen == Some(input.now)
    ensures Good(s.alerts, cfg.alertCooldown) ==> Good(r.alerts, cfg.alertCooldown)
  {
    var obs := ObserveAll(s.machines, input.probes, Collect(cfg.metricsUrl != "", input.rx, input.tx));
    var n := |s.machines|;
    var alerts := AlertsAfter(s.alerts, s.machines, obs, input.alertClocks, Reached(input, n), cfg);
    AlertsAfterGood(s.alerts, s.machines, obs, input.alertClocks, Reached(input, n), cfg);
    if input.storeFault.Some? then MonitorState(s.machines, s.history, alerts)
    else
      var rows := CycleRows(s.machines, obs, input.now);
      MonitorState(Refreshed(s.machines, obs, input.now), Prune(s.history + rows, Cutoff(input.pruneClock, cfg.retentionDays)), alerts)
  }

  /** A committed cycle's own history rows survive its prune when the prune
      clock is within the retention window of the cycle's timestamp, and
      only older rows are removed. */
  lemma CycleKeepsOwnRows(s: MonitorState, input: CycleInput, cfg: Settings)
    requires Fits(input, |s.machines|) && input.storeFault.None?
    requires input.pruneClock - input.now <= cfg.retentionDays * SecondsPerDay
    ensures var obs := ObserveAll(s.machines, input.probes, Collect(cfg.metricsUrl != "", input.rx, input.tx));
      Cycle(s, input, cfg).history
        == Prune(s.history, Cutoff(input.pruneClock, cfg.retentionDays)) + CycleRows(s.machines, obs, input.now)
  {
    var obs := ObserveAll(s.machines, input.probes, Collect(cfg.metricsUrl != "", input.rx, input.tx));
    FreshRowsSurvivePrune(s.history, CycleRows(s.machines, obs, input.now), input.now, input.pruneClock, cfg.retentionDays);
  }

  /** A run of turns of `monitor_loop`, in order. */
  function Cycles(s: MonitorState, ticks: seq<CycleInput>, cfg: Settings): (r: MonitorState)
    requires forall i :: 0 <= i < |ticks| ==> Fits(ticks[i], |s.machines|)
    ensures |r.machines| == |s.machines|
    ensures forall i :: 0 <= i < |s.machines| ==> r.machines[i].id == s.machines[i].id
    ensures Good(s.alerts, cfg.alertCooldown) ==> Good(r.alerts, cfg.alertCooldown)
  {
    if ticks == [] then s
    else Cycle(Cycles(s, ticks[..|ticks| - 1], cfg), ticks[|ticks| - 1], cfg)
  }

  /** One more turn extends the run. */
  lemma CyclesStep(s: MonitorState, ticks: seq<CycleInput>, k: nat, cfg: Settings)
    requires k < |ticks| && forall i :: 0 <= i < |ticks| ==> Fits(ticks[i], |s.machines|)
    ensures Cycles(s, ticks[..k + 1], cfg) == Cycle(Cycles(s, ticks[..k], cfg), ticks[k], cfg)
  {
    assert ticks[..k + 1][..k] == ticks[..k];
  }

  /** Recording one more turn's outcome keeps the outcomes matched to the
      turns: a turn succeeds exactly when none of its writes fails. */
  lemma OutcomesStep(outcomes: seq<bool>, ok: bool, ticks: seq<CycleInput>, k: nat)
    requires k < |ticks| && |outcomes| == k
    requires forall i :: 0 <= i < k ==> (outcomes[i] <==> ticks[i].storeFault.None?)
    requires ok <==> ticks[k].storeFault.None?
    ensures forall i :: 0 <= i < k + 1 ==> ((outcomes + [ok])[i] <==> ticks[i].storeFault.None?)
  {
  }

  /** One more sleep of `interval` seconds. */
  lemma SleepStep(k: nat, interval: int)
    ensures (k + 1) * interval == k * interval + interval
  {
  }

  /** The tables the monitor writes and the alert engine it drives. */
  class Monitor {
    var machines: seq<Machine>
    var history: seq<HistoryRow>
    const alerts: AlertEngine
    const settings: Settings

    ghost predicate Valid()
      reads this, alerts
    {
      && alerts.Valid()
      && alerts.settings == settings
    }

    /** The two tables and the alert state, as one value. */
    function State(): MonitorState
      reads this, alerts
    {
      MonitorState(machines, history, alerts.State())
    }

    constructor(machines: seq<Machine>, history: seq<HistoryRow>, settings: Settings)
      ensures this.machines == machines && this.history == history && this.settings == settings
      ensures fresh(alerts) && alerts.State() == AlertState(map[], [], [])
      ensures Valid()
    {
      this.machines := machines;
      this.history := history;
      this.settings := settings;
      alerts := new AlertEngine(settings);
    }

    /** `update_machines_status`. A committed cycle leaves every machine with
        its observed status and the history with one new row per machine,
        pruned to the retention window. A failing write ends the cycle and
        the uncommitted table changes are lost, while the alerts of the
        machines checked before it stand. */
    method UpdateMachinesStatus(input: CycleInput) returns (ok: bool)
      requires Valid() && Fits(input, |machines|)
      modifies this, alerts
      ensures Valid()
      ensures ok <==> input.storeFault.None?
      ensures |machines| == |old(machines)|
      ensures forall i :: 0 <= i < |machines| ==> machines[i].id == old(machines)[i].id
      ensures var obs := ObserveAll(old(machines), input.probes, Collect(settings.metricsUrl != "", input.rx, input.tx));
        && (ok ==> machines == Refreshed(old(machines), obs, input.now))
        && (ok ==> history == Prune(old(history) + CycleRows(old(machines), obs, input.now),
                                    Cutoff(input.pruneClock, settings.retentionDays)))
        && (!ok ==> machines == old(machines) && history == old(history))
        && alerts.State() == AlertsAfter(old(alerts.State()), old(machines), obs, input.alertClocks,
                                         Reached(input, |old(machines)|), settings)
      ensures State() == Cycle(old(State()), input, settings)
    {
      var ms, h0 := machines, history;
      var metrics := GetNetworkMetrics(settings.metricsUrl, input.rx, input.tx);
      ghost var obs := ObserveAll(ms, input.probes, metrics);
      var reached := Sweep(input, metrics, obs);
      if input.storeFault.Some? {
        machines, history := ms, h0;
        return false;
      }
      assert ms[..|ms|] == ms && obs[..|ms|] == obs;
      history := Prune(history, Cutoff(input.pruneClock, settings.retentionDays));
      ok := true;
    }

    /** The loop of `update_machines_status` over the machines, up to the
        first failing write: each machine's status update, history row and
        alert check. */
    method Sweep(input: CycleInput, metrics: map<string, Rates>, ghost obs: seq<Observation>) returns (reached: nat)
      requires alerts.Valid() && alerts.settings == settings && Fits(input, |machines|)
      requires obs == ObserveAll(machines, input.probes, metrics)
      modifies this, alerts
      ensures alerts.Valid() && alerts.settings == settings
      ensures reached == Reached(input, |old(machines)|)
      ensures machines == Swept(old(machines), obs, input.now, reached)
      ensures history == old(history) + CycleRows(old(machines)[..reached], obs[..reached], input.now)
      ensures alerts.State() == AlertsAfter(old(alerts.State()), old(machines), obs, input.alertClocks, reached, settings)
    {
      var ms, h0 := machines, history;
      ghost var s0 := alerts.State();
      var i := 0;
      while i < |ms|
        invariant 0 <= i <= Reached(input, |ms|)
        invariant machines == Swept(ms, obs, input.now, i)
        invariant history == h0 + CycleRows(ms[..i], obs[..i], input.now)
        invariant alerts.Valid() && alerts.settings == settings
        invariant alerts.State() == AlertsAfter(s0, ms, obs, input.alertClocks, i, settings)
      {
        if input.storeFault == Some(i) {
          break;
        }
        var o := Observe(ms[i], input.probes[i], metrics);
        Visit(i, o, input.now, input.alertClocks[i], ms, obs, input.alertClocks, h0, s0);
        i := i + 1;
      }
      reached := i;
    }

    /** One machine's turn in the loop of `update_machines_status`: the
        status columns of machine `i`, its history row and its alert check,
        taking the loop from `i` machines done to `i + 1`. */
    method Visit(i: nat, o: Observation, now: int, clock: int, ghost ms: seq<Machine>, ghost obs: seq<Observation>,
                 ghost clocks: seq<int>, ghost h0: seq<HistoryRow>, ghost s0: AlertState)
      requires alerts.Valid() && alerts.settings == settings
      requires |obs| == |ms| && |clocks| == |ms| && i < |ms| && o == obs[i] && clock == clocks[i]
      requires machines == Swept(ms, obs, now, i)
      requires history == h0 + CycleRows(ms[..i], obs[..i], now)
      requires alerts.State() == AlertsAfter(s0, ms, obs, clocks, i, settings)
      modifies this, alerts
      ensures alerts.Valid() && alerts.settings == settings
      ensures machines == Swept(ms, obs, now, i + 1)
      ensures history == h0 + CycleRows(ms[..i + 1], obs[..i + 1], now)
      ensures alerts.State() == AlertsAfter(s0, ms, obs, clocks, i + 1, settings)
    {
      var m := machines[i];
      SweptStep(ms, obs, now, i);
      CycleRowsStep(ms, obs, now, i);
      AlertsAfterStep(s0, ms, obs, clocks, i, settings);
      machines := machines[i := m.(status := StatusAfter(o, now))];
      history := history + [RowFor(m.id, o, now)];
      alerts.CheckAlerts(m, o.online, o.rx, o.tx, clock);
    }

    /** One turn of `monitor_loop`: the cycle runs and a failure inside it
        is caught, leaving the monitor ready for the next cycle. */
    method GuardedCycle(input: CycleInput) returns (ok: bool)
      requires Valid() && Fits(input, |machines|)
      modifies this, alerts
      ensures Valid()
      ensures ok <==> input.storeFault.None?
      ensures |machines| == |old(machines)|
      ensures forall i :: 0 <= i < |machines| ==> machines[i].id == old(machines)[i].id
      ensures State() == Cycle(old(State()), input, settings)
    {
      ok := UpdateMachinesStatus(input);
    }

    /** `monitor_loop`, over a finite run of cycles: each cycle runs, a
        failing one is caught, and the loop sleeps the configured interval
        after every cycle. */
    method MonitorLoop(ticks: seq<CycleInput>) returns (outcomes: seq<bool>, slept: int)
      requires Valid()
      requires forall i :: 0 <= i < |ticks| ==> Fits(ticks[i], |machines|)
      modifies this, alerts
      ensures Valid()
      ensures State() == Cycles(old(State()), ticks, settings)
      ensures |machines| == |old(machines)|
      ensures forall i :: 0 <= i < |machines| ==> machines[i].id == old(machines)[i].id
      ensures |outcomes| == |ticks|
      ensures forall i :: 0 <= i < |ticks| ==> (outcomes[i] <==> ticks[i].storeFault.None?)
      ensures slept == |ticks| * settings.pingInterval
    {
      outcomes, slept := [], 0;
      ghost var ms := machines;
      ghost var s0 := State();
      var k := 0;
      while k < |ticks|
        invariant 0 <= k <= |ticks| && Valid()
        invariant State() == Cycles(s0, ticks[..k], settings)
        invariant |machines| == |ms| && forall i :: 0 <= i < |ms| ==> machines[i].id == ms[i].id
        invariant |outcomes| == k
        invariant forall i :: 0 <= i < k ==> (outcomes[i] <==> ticks[i].storeFault.None?)
        invariant slept == k * settings.pingInterval
      {
        CyclesStep(s0, ticks, k, settings);
        var ok := GuardedCycle(ticks[k]);
        OutcomesStep(outcomes, ok, ticks, k);
        SleepStep(k, settings.pingInterval);
        outcomes := outcomes + [ok];
        slept := slept + settings.pingInterval;
        k := k + 1;
      }
      assert ticks[..|ticks|] == ticks;
    }
  }
}
