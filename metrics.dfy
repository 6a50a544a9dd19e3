/** `get_network_metrics`: per-host receive and transmit rates gathered
    from two queries to the metrics source. The HTTP calls are inputs: each
    query's answer is a `Reply`. */
module Metrics {
  import opened Basics

  datatype Rates = Rates(rx: int, tx: int)

  datatype Direction = Receive | Transmit

  /** One series of a query result: its `instance` label ("" when the label
      is missing) and its sample, None when the sample does not read as a
      number. */
  datatype Series = Series(instance: string, sample: Option<int>)

  /** What one query comes back with: the request failed outright, or a
      status code and, for a well-formed body, the result list. */
  datatype Reply = Unreachable | Reply(status: int, result: Option<seq<Series>>)

  /** `instance.split(':')[0]`: the label up to its first colon. */
  function HostKey(instance: string): (r: string)
    ensures ':' !in r
    ensures |r| <= |instance| && r == instance[..|r|]
    ensures |r| < |instance| ==> instance[|r|] == ':'
  {
    if instance == [] || instance[0] == ':' then [] else [instance[0]] + HostKey(instance[1..])
  }

  function Field(r: Rates, d: Direction): int {
    if d == Receive then r.rx else r.tx
  }

  /** `metrics.get(key, {}).get(d, 0)`. */
  function Value(m: map<string, Rates>, key: string, d: Direction): int {
    if key in m then Field(m[key], d) else 0
  }

  /** `if key not in metrics: metrics[key] = {'rx': 0, 'tx': 0}` followed by
      `metrics[key][d] += v`. */
  function Add(m: map<string, Rates>, key: string, d: Direction, v: int): (r: map<string, Rates>)
    ensures r.Keys == m.Keys + {key}
    ensures Value(r, key, d) == Value(m, key, d) + v
    ensures forall k, e :: k != key || e != d ==> Value(r, k, e) == Value(m, k, e)
  {
    var cur := if key in m then m[key] else Rates(0, 0);
    m[key := if d == Receive then cur.(rx := cur.rx + v) else cur.(tx := cur.tx + v)]
  }

  predicate AllRead(items: seq<Series>) {
    forall i :: 0 <= i < |items| ==> items[i].sample.Some?
  }

  /** The map after adding every sample of `items`, first to last. */
  function Accumulate(m: map<string, Rates>, items: seq<Series>, d: Direction): map<string, Rates>
    requires AllRead(items)
  {
    if items == [] then m
    else
      var last := items[|items| - 1];
      Add(Accumulate(m, items[..|items| - 1], d), HostKey(last.instance), d, last.sample.value)
  }

  /** The sum of the samples of `items` whose host is `key`. */
  function Total(items: seq<Series>, key: string): int
    requires AllRead(items)
  {
    if items == [] then 0
    else
      var last := items[|items| - 1];
      Total(items[..|items| - 1], key) + (if HostKey(last.instance) == key then last.sample.value else 0)
  }

  /** The hosts that `items` name. */
  function Hosts(items: seq<Series>): set<string> {
    set i | 0 <= i < |items| :: HostKey(items[i].instance)
  }

  /** One step of `Accumulate`: the last sample is added to the map the
      samples before it produced. */
  lemma AccumulateLast(m: map<string, Rates>, items: seq<Series>, i: nat, d: Direction)
    requires i < |items| && AllRead(items[..i + 1])
    ensures AllRead(items[..i])
    ensures Accumulate(m, items[..i + 1], d)
      == Add(Accumulate(m, items[..i], d), HostKey(items[i].instance), d, items[i].sample.value)
  {
    assert items[..i + 1][..i] == items[..i];
    assert items[..i + 1][i] == items[i];
  }

  /** The hosts of a result are those of all but its last series, plus the
      last one's. */
  lemma HostsLast(items: seq<Series>)
    requires items != []
    ensures Hosts(items) == Hosts(items[..|items| - 1]) + {HostKey(items[|items| - 1].instance)}
  {
    var front := items[..|items| - 1];
    forall x | x in Hosts(items) ensures x in Hosts(front) + {HostKey(items[|items| - 1].instance)} {
      var i :| 0 <= i < |items| && HostKey(items[i].instance) == x;
      if i < |items| - 1 {
        assert front[i] == items[i];
      }
    }
    forall x | x in Hosts(front) ensures x in Hosts(items) {
      var i :| 0 <= i < |front| && HostKey(front[i].instance) == x;
      assert items[i] == front[i];
    }
  }

  /** Accumulating a query's samples creates an entry for exactly the hosts
      they name, besides those the map had. */
  lemma {:induction false} AccumulateKeys(m: map<string, Rates>, items: seq<Series>, d: Direction)
    requires AllRead(items)
    ensures Accumulate(m, items, d).Keys == m.Keys + Hosts(items)
  {
    if items != [] {
      AccumulateKeys(m, items[..|items| - 1], d);
      HostsLast(items);
    }
  }

  /** Accumulating a query's samples adds to each host's rate in the queried
      direction exactly the sum of that host's samples (starting from what
      the map held, or 0), and leaves the other direction alone. */
  lemma {:induction false} AccumulateSums(m: map<string, Rates>, items: seq<Series>, d: Direction, k: string)
    requires AllRead(items)
    ensures Value(Accumulate(m, items, d), k, d) == Value(m, k, d) + Total(items, k)
    ensures forall e :: e != d ==> Value(Accumulate(m, items, d), k, e) == Value(m, k, e)
  {
    if items != [] {
      AccumulateSums(m, items[..|items| - 1], d, k);
    }
  }

  /** The number of leading series whose sample reads as a number: the
      loop over a result raises at the first one that does not. */
  function ReadPrefix(items: seq<Series>): (n: nat)
    ensures n <= |items| && AllRead(items[..n])
    ensures n < |items| ==> items[n].sample.None?
  {
    if items == [] || items[0].sample.None? then 0
    else
      var n := 1 + ReadPrefix(items[1..]);
      assert forall i :: 1 <= i < n ==> items[..n][i] == items[1..][..n - 1][i - 1];
      n
  }

  /** What one query adds to the map, and whether it raised. A status other
      than 200 adds nothing and does not raise; a failed request or a
      malformed body raises before anything is added; an unreadable sample
      raises after the samples before it were added. */
  function Contribute(m: map<string, Rates>, reply: Reply, d: Direction): (map<string, Rates>, bool)
  {
    match reply
    case Unreachable => (m, true)
    case Reply(status, result) =>
      if status != 200 then (m, false)
      else
        match result
        case None => (m, true)
        case Some(items) =>
          var n := ReadPrefix(items);
          (Accumulate(m, items[..n], d), n < |items|)
  }

  /** The map `get_network_metrics` returns: empty when no metrics source is
      configured; otherwise what the receive query adds and, unless it
      raised, what the transmit query adds after it. */
  function Collect(configured: bool, rx: Reply, tx: Reply): (r: map<string, Rates>)
    ensures !configured ==> r == map[]
  {
    if !configured then map[]
    else
      var (m, raised) := Contribute(map[], rx, Receive);
      if raised then m else Contribute(m, tx, Transmit).0
  }

  /** One query: a failed request or a malformed body raises, a status
      other than 200 adds nothing, and a result has its samples added. */
  method Query(m: map<string, Rates>, reply: Reply, d: Direction) returns (r: map<string, Rates>, raised: bool)
    ensures (r, raised) == Contribute(m, reply, d)
  {
    r, raised := m, false;
    if reply.Unreachable? {
      raised := true;
      return;
    }
    if reply.status != 200 {
      return;
    }
    if reply.result.None? {
      raised := true;
      return;
    }
    r, raised := AddSamples(m, reply.result.value, d);
  }

  /** Within the readable prefix, a sample is unreadable exactly where the
      prefix ends. */
  lemma ReadPrefixEnds(items: seq<Series>, i: nat)
    requires i <= ReadPrefix(items) && i < |items|
    ensures items[i].sample.None? <==> i == ReadPrefix(items)
  {
    if i < ReadPrefix(items) {
      assert items[..ReadPrefix(items)][i] == items[i];
    }
  }

  /** Every sample before the end of the readable prefix reads. */
  lemma ReadPrefixReads(items: seq<Series>, i: nat)
    requires i <= ReadPrefix(items)
    ensures AllRead(items[..i])
  {
    assert forall j :: 0 <= j < i ==> items[..i][j] == items[..ReadPrefix(items)][j];
  }

  /** The loop over a result: adds each readable sample to its host's entry
      and raises at the first sample that does not read. */
  method AddSamples(m: map<string, Rates>, items: seq<Series>, d: Direction) returns (r: map<string, Rates>, raised: bool)
    ensures AllRead(items[..ReadPrefix(items)])
    ensures r == Accumulate(m, items[..ReadPrefix(items)], d)
    ensures raised <==> ReadPrefix(items) < |items|
  {
    r, raised := m, false;
    var i := 0;
    while i < |items|
      invariant 0 <= i <= ReadPrefix(items)
      invariant r == Accumulate(m, items[..i], d)
    {
      ReadPrefixEnds(items, i);
      if items[i].sample.None? {
        return r, true;
      }
      ReadPrefixReads(items, i + 1);
      AccumulateLast(m, items, i, d);
      r := Add(r, HostKey(items[i].instance), d, items[i].sample.value);
      i := i + 1;
    }
  }

  /** `get_network_metrics`: the receive query, then the transmit query,
      which is not issued once the receive query raised. */
  method GetNetworkMetrics(metricsUrl: string, rx: Reply, tx: Reply) returns (metrics: map<string, Rates>)
    ensures metrics == Collect(metricsUrl != "", rx, tx)
  {
    if metricsUrl == "" {
      return map[];
    }
    var raised;
    metrics, raised := Query(map[], rx, Receive);
    if !raised {
      metrics, raised := Query(metrics, tx, Transmit);
    }
  }

  /** When both queries succeed, the map has an entry for exactly the hosts
      either query names, and each entry holds the sum of that host's
      receive samples and the sum of its transmit samples. */
  lemma CollectSums(rxItems: seq<Series>, txItems: seq<Series>)
    requires AllRead(rxItems) && AllRead(txItems)
    ensures var r := Collect(true, Reply(200, Some(rxItems)), Reply(200, Some(txItems)));
      && r.Keys == Hosts(rxItems) + Hosts(txItems)
      && forall k :: Value(r, k, Receive) == Total(rxItems, k) && Value(r, k, Transmit) == Total(txItems, k)
  {
    assert ReadPrefix(rxItems) == |rxItems| && rxItems[..|rxItems|] == rxItems;
    assert ReadPrefix(txItems) == |txItems| && txItems[..|txItems|] == txItems;
    var m := Accumulate(map[], rxItems, Receive);
    AccumulateKeys(map[], rxItems, Receive);
    AccumulateKeys(m, txItems, Transmit);
    forall k ensures Value(Accumulate(m, txItems, Transmit), k, Receive) == Total(rxItems, k)
      && Value(Accumulate(m, txItems, Transmit), k, Transmit) == Total(txItems, k)
    {
      AccumulateSums(map[], rxItems, Receive, k);
      AccumulateSums(m, txItems, Transmit, k);
    }
  }

  /** The rates the receive query gathered survive a transmit query that
      fails or is refused. */
  lemma ReceiveSurvivesTransmitFailure(rxItems: seq<Series>, tx: Reply)
    requires AllRead(rxItems)
    requires tx.Unreachable? || tx.status != 200 || tx.result.None?
    ensures Collect(true, Reply(200, Some(rxItems)), tx) == Accumulate(map[], rxItems, Receive)
  {
    assert ReadPrefix(rxItems) == |rxItems| && rxItems[..|rxItems|] == rxItems;
  }

  /** An unreadable receive sample ends the collection: the map holds what
      the samples before it added and nothing from the transmit query. */
  lemma UnreadableSampleEndsCollection(rxItems: seq<Series>, tx: Reply)
    requires ReadPrefix(rxItems) < |rxItems|
    ensures Collect(true, Reply(200, Some(rxItems)), tx)
      == Accumulate(map[], rxItems[..ReadPrefix(rxItems)], Receive)
  {
  }
}
