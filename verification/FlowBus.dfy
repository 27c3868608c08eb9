/** The broker in memory and the producer in front of it: one log per partition, one partition per source. */
module FlowBus {
  import opened Wrappers

  datatype LogRecord = LogRecord(offset: nat, value: string, headers: map<string, string>)

  type Logs = map<(string, nat), seq<LogRecord>>

  function LogOf(logs: Logs, topic: string, partition: nat): seq<LogRecord> {
    if (topic, partition) in logs then logs[(topic, partition)] else []
  }

  function Append(logs: Logs, topic: string, partition: nat, value: string, headers: map<string, string>): Logs {
    var log := LogOf(logs, topic, partition);
    logs[(topic, partition) := log + [LogRecord(|log|, value, headers)]]
  }

  /** Every record's offset is its place in its log. */
  ghost predicate Numbered(logs: Logs) {
    forall k :: k in logs ==> forall i :: 0 <= i < |logs[k]| ==> logs[k][i].offset == i
  }

  /** What a read from an offset on must give: the records of the log from there up to the limit or the log's end. */
  ghost predicate ReadsFrom(log: seq<LogRecord>, from: nat, limit: nat, records: seq<LogRecord>) {
    var upTo := if from + limit < |log| then from + limit else |log|;
    && |records| == (if from < upTo then upTo - from else 0)
    && forall k :: 0 <= k < |records| ==> records[k] == log[from + k] && records[k].offset == from + k
  }

  /** Reading on from where a read ended gives what one longer read gives: nothing is skipped or repeated. */
  lemma ReadsJoin(log: seq<LogRecord>, from: nat, a: nat, b: nat, r: seq<LogRecord>, s: seq<LogRecord>)
    requires ReadsFrom(log, from, a, r) && |r| == a && ReadsFrom(log, from + a, b, s)
    ensures ReadsFrom(log, from, a + b, r + s)
  {
  }

  /** A record on its way: its source address, its payload, and the headers of its batch. */
  datatype Flow = Flow(src: string, payload: string, headers: map<string, string>)

  /** A topic and its partition function; the function itself is the broker library's. */
  datatype Topic = Topic(name: string, partitions: nat, assign: string -> nat) {
    ghost predicate Valid() {
      forall src: string :: assign(src) < partitions
    }
  }

  function Send(t: Topic, logs: Logs, f: Flow): Logs {
    Append(logs, t.name, t.assign(f.src), f.payload, f.headers)
  }

  function SendAll(t: Topic, logs: Logs, fs: seq<Flow>): Logs {
    if fs == [] then logs else Send(t, SendAll(t, logs, fs[..|fs| - 1]), fs[|fs| - 1])
  }

  /** The flows of one partition, in send order. */
  function Routed(t: Topic, fs: seq<Flow>, partition: nat): seq<Flow> {
    if fs == [] then []
    else Routed(t, fs[..|fs| - 1], partition)
         + if t.assign(fs[|fs| - 1].src) == partition then [fs[|fs| - 1]] else []
  }

  /** Batches sent one after the other are one stream of flows. */
  lemma {:induction false} BatchesConcatenate(t: Topic, logs: Logs, a: seq<Flow>, b: seq<Flow>)
    ensures SendAll(t, SendAll(t, logs, a), b) == SendAll(t, logs, a + b)
  {
    hide Send;
    if b == [] {
      assert a + b == a;
    } else {
      BatchesConcatenate(t, logs, a, b[..|b| - 1]);
      assert (a + b)[..|a + b| - 1] == a + b[..|b| - 1];
    }
  }

  /** Each partition's log is exactly its own flows in send order, numbered from zero without a gap. */
  lemma {:induction false} LogIsWhatWasRouted(t: Topic, fs: seq<Flow>, partition: nat)
    ensures var log, mine := LogOf(SendAll(t, map[], fs), t.name, partition), Routed(t, fs, partition);
            && |log| == |mine|
            && forall k :: 0 <= k < |log| ==> log[k] == LogRecord(k, mine[k].payload, mine[k].headers)
  {
    if fs != [] {
      LogIsWhatWasRouted(t, fs[..|fs| - 1], partition);
    }
  }

  /** Sending to a topic touches no other topic's logs, and no partition that no flow is assigned to. */
  lemma {:induction false} OtherLogsStay(t: Topic, logs: Logs, fs: seq<Flow>, topic: string, partition: nat)
    requires topic != t.name || forall i :: 0 <= i < |fs| ==> t.assign(fs[i].src) != partition
    ensures LogOf(SendAll(t, logs, fs), topic, partition) == LogOf(logs, topic, partition)
  {
    if fs != [] {
      OtherLogsStay(t, logs, fs[..|fs| - 1], topic, partition);
    }
  }

  lemma {:induction false} RoutedPosition(t: Topic, fs: seq<Flow>, i: nat)
    requires i < |fs|
    ensures var p := t.assign(fs[i].src);
            var at := |Routed(t, fs[..i], p)|;
            at < |Routed(t, fs, p)| && Routed(t, fs, p)[at] == fs[i]
    decreases |fs|
  {
    var n := |fs| - 1;
    if i < n {
      RoutedPosition(t, fs[..n], i);
      assert fs[..n][..i] == fs[..i];
    }
  }

  lemma {:induction false} RoutedGrows(t: Topic, fs: seq<Flow>, i: nat, j: nat, partition: nat)
    requires i <= j <= |fs|
    ensures |Routed(t, fs[..i], partition)| <= |Routed(t, fs[..j], partition)|
    decreases j
  {
    if i < j {
      RoutedGrows(t, fs, i, j - 1, partition);
      assert fs[..j][..j - 1] == fs[..j - 1];
    }
  }

  /** Two flows of one source sit in one partition's log, the earlier one at the smaller offset. */
  lemma SourceKeepsItsOrder(t: Topic, fs: seq<Flow>, i: nat, j: nat)
    requires i < j < |fs| && fs[i].src == fs[j].src
    ensures var p := t.assign(fs[i].src);
            var log := LogOf(SendAll(t, map[], fs), t.name, p);
            var a, b := |Routed(t, fs[..i], p)|, |Routed(t, fs[..j], p)|;
            && a < b < |log|
            && log[a] == LogRecord(a, fs[i].payload, fs[i].headers)
            && log[b] == LogRecord(b, fs[j].payload, fs[j].headers)
  {
    hide SendAll, LogOf;
    var p := t.assign(fs[i].src);
    LogIsWhatWasRouted(t, fs, p);
    RoutedPosition(t, fs, i);
    RoutedPosition(t, fs, j);
    RoutedGrows(t, fs, i + 1, j, p);
    assert fs[..i + 1][..i] == fs[..i];
  }

  // ----- As it runs ---------------------------------------------------------

  class InProcessBus {
    const partitions: nat
    var logs: Logs

    constructor (partitions: nat)
      requires partitions > 0
      ensures this.partitions == partitions && logs == map[]
    {
      this.partitions, logs := partitions, map[];
    }

    /** Append one record; a partition outside the range is refused. */
    method Accept(topic: string, value: string, partition: int, headers: map<string, string>) returns (r: Result<(), string>)
      requires Numbered(logs)
      modifies this
      ensures Numbered(logs)
      ensures r.Ok? <==> 0 <= partition < partitions
      ensures logs == if 0 <= partition < partitions then Append(old(logs), topic, partition, value, headers) else old(logs)
    {
      if !(0 <= partition < partitions) {
        return Err("partition is out of range");
      }
      var log := if (topic, partition) in logs then logs[(topic, partition)] else [];
      log := log + [LogRecord(|log|, value, headers)];
      logs := logs[(topic, partition) := log];
      r := Ok(());
    }

    /** The records at or after an offset, up to a limit. */
    method Read(topic: string, partition: nat, from: nat, limit: nat) returns (records: seq<LogRecord>)
      requires Numbered(logs)
      ensures ReadsFrom(LogOf(logs, topic, partition), from, limit, records)
    {
      var log := LogOf(logs, topic, partition);
      records := [];
      while |records| < limit && from + |records| < |log|
        invariant |records| <= limit
        invariant records == [] || from + |records| <= |log|
        invariant forall k :: 0 <= k < |records| ==> records[k] == log[from + k]
      {
        records := records + [log[from + |records|]];
      }
      assert forall k :: 0 <= k < |log| ==> log[k].offset == k;
    }
  }

  class FlowProducer {
    const bus: InProcessBus
    const topic: Topic

    constructor (bus: InProcessBus, topic: Topic)
      requires topic.partitions == bus.partitions
      ensures this.bus == bus && this.topic == topic
    {
      this.bus, this.topic := bus, topic;
    }

    /** Send a batch record by record, with one header set, keeping the order of the batch. */
    method SendBatch(records: seq<(string, string)>, headers: map<string, string>)
      requires topic.Valid() && topic.partitions == bus.partitions && Numbered(bus.logs)
      modifies bus
      ensures Numbered(bus.logs)
      ensures bus.logs == SendAll(topic, old(bus.logs), Flows(records, headers))
    {
      for i := 0 to |records|
        invariant Numbered(bus.logs)
        invariant bus.logs == SendAll(topic, old(bus.logs), Flows(records, headers)[..i])
      {
        var fs := Flows(records, headers);
        assert fs[..i + 1][..i] == fs[..i];
        var (src, payload) := records[i];
        var _ := bus.Accept(topic.name, payload, topic.assign(src), headers);
      }
      assert Flows(records, headers)[..|records|] == Flows(records, headers);
    }
  }

  function Flows(records: seq<(string, string)>, headers: map<string, string>): (fs: seq<Flow>)
    ensures |fs| == |records|
    ensures forall i :: 0 <= i < |fs| ==> fs[i] == Flow(records[i].0, records[i].1, headers)
  {
    seq(|records|, i requires 0 <= i < |records| => Flow(records[i].0, records[i].1, headers))
  }
}
