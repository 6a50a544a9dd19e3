/** The alert rules of the monitor: which conditions raise an alert, the
    per-machine, per-kind cooldown gate, and where an accepted alert goes
    (the dashboard's alert table always, e-mail when the machine asks for it
    and SMTP is configured). */
module Alerts {
  import opened Basics
  import opened Fleet

  /** The cooldown record of one machine: when each kind of alert last
      passed the gate. */
  datatype Cooldown = Cooldown(down: int, traffic: int)

  type Cooldowns = map<string, Cooldown>

  /** When an alert of `kind` last passed the gate for machine `id`; 0 when
      it never did. */
  function LastSent(c: Cooldowns, id: string, kind: Kind): int {
    if id !in c then 0 else if kind == Down then c[id].down else c[id].traffic
  }

  /** Gives a machine without a cooldown record the record {0, 0}. */
  function Touch(c: Cooldowns, id: string): (r: Cooldowns)
    ensures r.Keys == c.Keys + {id}
    ensures forall k :: k in c ==> r[k] == c[k]
    ensures forall k, kind :: LastSent(r, k, kind) == LastSent(c, k, kind)
  {
    if id in c then c else c[id := Cooldown(0, 0)]
  }

  /** Records that an alert of `kind` for `id` passed the gate at `now`. */
  function Stamp(c: Cooldowns, id: string, kind: Kind, now: int): (r: Cooldowns)
    requires id in c
    ensures r.Keys == c.Keys
    ensures LastSent(r, id, kind) == now
    ensures forall k, e :: k != id || e != kind ==> LastSent(r, k, e) == LastSent(c, k, e)
  {
    c[id := if kind == Down then c[id].(down := now) else c[id].(traffic := now)]
  }

  /** The gate: strictly more than `window` seconds since the last accepted
      alert of the same machine and kind. */
  predicate GateOpen(c: Cooldowns, id: string, kind: Kind, now: int, window: nat) {
    now - LastSent(c, id, kind) > window
  }

  /** The text of an alert of `kind` about `m`. */
  function MessageFor(m: Machine, kind: Kind, value: int): (msg: Message)
    ensures msg.machineId == m.id && msg.host == m.host
    ensures msg.DownMessage? <==> kind == Down
  {
    if kind == Down then DownMessage(m.id, m.host) else TrafficMessage(m.id, m.host, value)
  }

  predicate EmailConfigured(cfg: Settings) {
    cfg.smtpServer != "" && cfg.alertRecipient != ""
  }

  /** An alert `check_alerts` hands to the gate: its kind and the value it
      reports. */
  datatype Attempt = Attempt(kind: Kind, value: int)

  function Max(a: int, b: int): int {
    if a >= b then a else b
  }

  /** The alert `check_alerts` hands to the gate for one machine in one
      cycle, if any. The down and traffic conditions exclude each other, so
      there is at most one. */
  function Decide(m: Machine, online: bool, rx: int, tx: int, limit: int): (r: Option<Attempt>)
    ensures r == Some(Attempt(Down, 0)) <==> !online && m.notifyDown
    ensures (r.Some? && r.value.kind == Down) <==> !online && m.notifyDown
    ensures r.None? <==>
      && !(!online && m.notifyDown)
      && !(online && m.useSnmp && m.notifyTraffic && (rx > limit || tx > limit))
    ensures (r.Some? && r.value.kind == Traffic) <==>
      online && m.useSnmp && m.notifyTraffic && (rx > limit || tx > limit)
    ensures r.Some? && r.value.kind == Traffic ==>
      r.value.value > limit && (r.value.value == rx || r.value.value == tx)
      && r.value.value >= rx && r.value.value >= tx
  {
    if !online && m.notifyDown then Some(Attempt(Down, 0))
    else if online && m.useSnmp && m.notifyTraffic && (rx > limit || tx > limit) then Some(Attempt(Traffic, Max(rx, tx)))
    else None
  }

  /** The alert state: the cooldown records (kept in memory), the rows of
      the alert table, and the e-mails sent. */
  datatype AlertState = AlertState(cooldowns: Cooldowns, appAlerts: seq<AppAlert>, outbox: seq<Email>)

  /** `process_alert`: the state after an alert of `kind` about `m` reaches
      the gate at `now`. */
  function Dispatch(s: AlertState, m: Machine, kind: Kind, value: int, now: int, cfg: Settings): (r: AlertState)
    ensures r.cooldowns.Keys == s.cooldowns.Keys + {m.id}
    ensures forall k, e :: k != m.id || e != kind ==> LastSent(r.cooldowns, k, e) == LastSent(s.cooldowns, k, e)
    ensures GateOpen(s.cooldowns, m.id, kind, now, cfg.alertCooldown) ==>
      && LastSent(r.cooldowns, m.id, kind) == now
      && r.appAlerts == s.appAlerts + [AppAlert(m.id, kind, MessageFor(m, kind, value), now)]
      && r.outbox == s.outbox + (if m.notifyEmail && EmailConfigured(cfg) then [Email(kind, m.id, MessageFor(m, kind, value))] else [])
    ensures !GateOpen(s.cooldowns, m.id, kind, now, cfg.alertCooldown) ==>
      && LastSent(r.cooldowns, m.id, kind) == LastSent(s.cooldowns, m.id, kind)
      && r.appAlerts == s.appAlerts && r.outbox == s.outbox
  {
    var c := Touch(s.cooldowns, m.id);
    if now - LastSent(c, m.id, kind) > cfg.alertCooldown then
      var msg := MessageFor(m, kind, value);
      AlertState(
        Stamp(c, m.id, kind, now),
        s.appAlerts + [AppAlert(m.id, kind, msg, now)],
        if m.notifyEmail && EmailConfigured(cfg) then s.outbox + [Email(kind, m.id, msg)] else s.outbox)
    else
      s.(cooldowns := c)
  }

  /** `check_alerts`: the state after checking one machine's observation. */
  function CheckAlertsSpec(s: AlertState, m: Machine, online: bool, rx: int, tx: int, now: int, cfg: Settings): AlertState
  {
    match Decide(m, online, rx, tx, cfg.bandwidthThreshold)
    case None => s
    case Some(a) => Dispatch(s, m, a.kind, a.value, now, cfg)
  }

  /** The invariant the gate keeps: no alert is newer than its machine's
      cooldown record for its kind, and two alerts of the same machine and
      kind are more than `window` seconds apart. */
  predicate Spaced(s: AlertState, window: nat) {
    && (forall i :: 0 <= i < |s.appAlerts| ==> NotAhead(s.cooldowns, s.appAlerts[i]))
    && (forall i, j :: 0 <= i < j < |s.appAlerts| ==> Apart(s.appAlerts[i], s.appAlerts[j], window))
  }

  /** An alert is no newer than its machine's cooldown record for its kind. */
  predicate NotAhead(c: Cooldowns, a: AppAlert) {
    a.time <= LastSent(c, a.machineId, a.kind)
  }

  /** Two alerts of the same machine and kind, the later more than `window`
      seconds after the earlier. */
  predicate Apart(a: AppAlert, b: AppAlert, window: nat) {
    a.machineId == b.machineId && a.kind == b.kind ==> b.time - a.time > window
  }

  /** An e-mail and an alert row about the same thing. */
  predicate Pairs(e: Email, a: AppAlert) {
    a.kind == e.kind && a.machineId == e.machineId && a.message == e.body
  }

  /** Every e-mail sent goes with an alert row of the same kind, machine and
      text. */
  predicate Mailed(s: AlertState) {
    forall i :: 0 <= i < |s.outbox| ==> Recorded(s.appAlerts, s.outbox[i])
  }

  /** Some alert row goes with the e-mail `e`. */
  predicate Recorded(rows: seq<AppAlert>, e: Email) {
    exists a :: a in rows && Pairs(e, a)
  }

  predicate Good(s: AlertState, window: nat) {
    Spaced(s, window) && Mailed(s)
  }

  /** `process_alert` keeps the spacing of alerts and the pairing of e-mails
      with alert rows, whatever the clock says. */
  lemma DispatchKeepsGood(s: AlertState, m: Machine, kind: Kind, value: int, now: int, cfg: Settings)
    requires Good(s, cfg.alertCooldown)
    ensures Good(Dispatch(s, m, kind, value, now, cfg), cfg.alertCooldown)
  {
    var r := Dispatch(s, m, kind, value, now, cfg);
    var w := cfg.alertCooldown;
    if GateOpen(s.cooldowns, m.id, kind, now, w) {
      var n := |s.appAlerts|;
      assert forall i :: 0 <= i < n ==> r.appAlerts[i] == s.appAlerts[i];
      forall i | 0 <= i < n && s.appAlerts[i].machineId == m.id && s.appAlerts[i].kind == kind
        ensures now - s.appAlerts[i].time > w
      {
      }
      forall i | 0 <= i < |r.outbox|
        ensures Recorded(r.appAlerts, r.outbox[i])
      {
        if i < |s.outbox| {
          assert Recorded(s.appAlerts, s.outbox[i]);
          var a :| a in s.appAlerts && Pairs(s.outbox[i], a);
          assert r.outbox[i] == s.outbox[i] && a in r.appAlerts;
        } else {
          var msg := MessageFor(m, kind, value);
          assert r.outbox == s.outbox + [Email(kind, m.id, msg)];
          assert r.appAlerts[n] == AppAlert(m.id, kind, msg, now);
          assert Pairs(r.outbox[i], r.appAlerts[n]);
        }
      }
    }
  }

  /** `check_alerts` keeps the spacing of alerts and the pairing of e-mails
      with alert rows. */
  lemma CheckAlertsKeepsGood(s: AlertState, m: Machine, online: bool, rx: int, tx: int, now: int, cfg: Settings)
    requires Good(s, cfg.alertCooldown)
    ensures Good(CheckAlertsSpec(s, m, online, rx, tx, now, cfg), cfg.alertCooldown)
  {
    var a := Decide(m, online, rx, tx, cfg.bandwidthThreshold);
    if a.Some? {
      DispatchKeepsGood(s, m, a.value.kind, a.value.value, now, cfg);
    }
  }

  /** The down alert is level-triggered: every check of an unreachable
      machine that wants down alerts writes a down alert once the cooldown
      has run out, whatever the machine's stored status says. */
  lemma DownRepeatsWhileOffline(s: AlertState, m: Machine, now: int, cfg: Settings)
    requires m.notifyDown && GateOpen(s.cooldowns, m.id, Down, now, cfg.alertCooldown)
    ensures CheckAlertsSpec(s, m, false, 0, 0, now, cfg).appAlerts
      == s.appAlerts + [AppAlert(m.id, Down, DownMessage(m.id, m.host), now)]
  {
  }

  /** Two checks of the same over-limit machine no more than a cooldown
      apart write at most one traffic alert between them. */
  lemma TrafficOncePerCooldown(s: AlertState, m: Machine, rx: int, tx: int, t: int, d: nat, cfg: Settings)
    requires d <= cfg.alertCooldown
    ensures var s1 := CheckAlertsSpec(s, m, true, rx, tx, t, cfg);
      var s2 := CheckAlertsSpec(s1, m, true, rx, tx, t + d, cfg);
      |s2.appAlerts| <= |s.appAlerts| + 1
  {
    var s1 := CheckAlertsSpec(s, m, true, rx, tx, t, cfg);
    if GateOpen(s.cooldowns, m.id, Traffic, t, cfg.alertCooldown) {
      assert LastSent(s1.cooldowns, m.id, Traffic) == t || s1 == s;
    }
  }

  /** The in-memory cooldown records, the alert table and the mail sent. */
  class AlertEngine {
    var cooldowns: Cooldowns
    var appAlerts: seq<AppAlert>
    var outbox: seq<Email>
    const settings: Settings

    function State(): AlertState
      reads this
    {
      AlertState(cooldowns, appAlerts, outbox)
    }

    ghost predicate Valid()
      reads this
    {
      Good(State(), settings.alertCooldown)
    }

    constructor(settings: Settings)
      ensures this.settings == settings
      ensures State() == AlertState(map[], [], [])
      ensures Valid()
    {
      this.settings := settings;
      cooldowns, appAlerts, outbox := map[], [], [];
    }

    /** `create_app_alert`: one row in the alert table. */
    method CreateAppAlert(id: string, kind: Kind, message: Message, now: int)
      modifies this`appAlerts
      ensures appAlerts == old(appAlerts) + [AppAlert(id, kind, message, now)]
    {
      appAlerts := appAlerts + [AppAlert(id, kind, message, now)];
    }

    /** `send_email`: nothing is sent unless an SMTP server and a recipient
        are configured. */
    method SendEmail(kind: Kind, id: string, body: Message)
      modifies this`outbox
      ensures outbox == old(outbox) + if EmailConfigured(settings) then [Email(kind, id, body)] else []
    {
      if settings.smtpServer == "" || settings.alertRecipient == "" {
        return;
      }
      outbox := outbox + [Email(kind, id, body)];
    }

    /** `process_alert`. */
    method ProcessAlert(m: Machine, kind: Kind, value: int, now: int)
      requires Valid()
      modifies this
      ensures State() == Dispatch(old(State()), m, kind, value, now, settings)
      ensures Valid()
    {
      ghost var s0 := State();
      if m.id !in cooldowns {
        cooldowns := cooldowns[m.id := Cooldown(0, 0)];
      }
      var lastSent := if kind == Down then cooldowns[m.id].down else cooldowns[m.id].traffic;
      if now - lastSent > settings.alertCooldown {
        cooldowns := cooldowns[m.id := if kind == Down then cooldowns[m.id].(down := now) else cooldowns[m.id].(traffic := now)];
        var message := MessageFor(m, kind, value);
        CreateAppAlert(m.id, kind, message, now);
        if m.notifyEmail {
          SendEmail(kind, m.id, message);
        }
      }
      DispatchKeepsGood(s0, m, kind, value, now, settings);
    }

    /** `check_alerts`: a down alert for an unreachable machine that wants
        one; a traffic alert, carrying the larger rate, for a reachable
        machine with metrics and traffic alerts whose rate exceeds the
        threshold. */
    method CheckAlerts(m: Machine, online: bool, rx: int, tx: int, now: int)
      requires Valid()
      modifies this
      ensures State() == CheckAlertsSpec(old(State()), m, online, rx, tx, now, settings)
      ensures Valid()
    {
      ghost var s0 := State();
      if !online && m.notifyDown {
        ProcessAlert(m, Down, 0, now);
      }
      if online && m.useSnmp && m.notifyTraffic {
        var limit := settings.bandwidthThreshold;
        if rx > limit || tx > limit {
          var value := Max(rx, tx);
          ProcessAlert(m, Traffic, value, now);
        }
      }
    }
  }
}
