/** The monitor's data model: rows of the `machines`, `history` and
    `app_alerts` tables, outgoing e-mail, and the configuration the monitor
    reads. Timestamps are seconds on one clock (the source's
    `%Y-%m-%d %H:%M:%S` strings compare in the same order). */
module Fleet {
  import opened Basics

  /** The status columns the monitor writes on a machine row. `lastSeen` is
      None while the row still holds its initial 'Never'. */
  datatype LiveStatus = LiveStatus(online: bool, latency: int, rx: int, tx: int, lastSeen: Option<int>)

  /** A row of the `machines` table, as far as the monitor reads or writes it. */
  datatype Machine = Machine(
    id: string,
    host: string,
    useSnmp: bool,
    notifyDown: bool,
    notifyTraffic: bool,
    notifyEmail: bool,
    status: LiveStatus)

  /** The `status` column of a history row: "ONLINE" or "OFFLINE". */
  datatype HostState = Online | Offline

  /** A row of the `history` table. */
  datatype HistoryRow = HistoryRow(machineId: string, status: HostState, time: int, latency: int, rx: int, tx: int)

  /** The two alert conditions, `'down'` and `'traffic'`. */
  datatype Kind = Down | Traffic

  /** An alert text, kept as the values it is formatted from. */
  datatype Message =
    | DownMessage(machineId: string, host: string)
    | TrafficMessage(machineId: string, host: string, value: int)

  /** A row of the `app_alerts` table (the dashboard's notification bell). */
  datatype AppAlert = AppAlert(machineId: string, kind: Kind, message: Message, time: int)

  /** A message handed to the SMTP server; its subject is determined by the
      kind and the machine. */
  datatype Email = Email(kind: Kind, machineId: string, body: Message)

  /** The configuration values the monitor and the alert rules read. An
      unset text setting is the empty string. */
  datatype Settings = Settings(
    metricsUrl: string,
    pingInterval: int,
    retentionDays: int,
    bandwidthThreshold: int,
    alertCooldown: nat,
    smtpServer: string,
    alertRecipient: string)

  const SecondsPerDay := 86400
}
