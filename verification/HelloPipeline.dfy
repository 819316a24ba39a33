/** The greeting pipeline of lagom/hello: an event-sourced entity journals greeting changes,
    a sharded producer republishes the journal to a keyed topic, and a subscriber with
    at-least-once delivery upserts every event into a read table.

    Lagom and Kafka enter only through their contract: journal order per shard, record order
    per partition, and replay from the last committed offset after a crash. */
module HelloPipeline {
  import opened Common

  type Name = string

  datatype Event = GreetingMessageChanged(name: Name, message: string)
  datatype HelloState = HelloState(message: string)
  datatype Command = UseGreetingMessage(text: string) | Hello(name: Name)
  datatype Effect = Persist(event: Event) | Reply(text: string)

  // ---------------------------------------------------------------- the entity

  function InitialState(snapshot: Option<HelloState>): HelloState {
    if snapshot.Some? then snapshot.value else HelloState("Hello")
  }

  function HandleCommand(entityId: Name, state: HelloState, command: Command): Effect {
    match command
    case UseGreetingMessage(text) => Persist(GreetingMessageChanged(entityId, text))
    case Hello(name) => Reply(state.message + ", " + name + "!")
  }

  function HandleEvent(state: HelloState, event: Event): HelloState {
    HelloState(event.message)
  }

  function Replay(state: HelloState, events: seq<Event>): HelloState {
    if events == [] then state else HandleEvent(Replay(state, events[..|events| - 1]), events[|events| - 1])
  }

  /** The events of one entity, in journal order. */
  function EventsOf(log: seq<Event>, name: Name): seq<Event> {
    if log == [] then []
    else
      var before := EventsOf(log[..|log| - 1], name);
      if log[|log| - 1].name == name then before + [log[|log| - 1]] else before
  }

  // ---------------------------------------------------------------- the read side

  /** The row a consumed event leaves in the read table. */
  function Upsert(table: map<Name, string>, event: Event): map<Name, string> {
    table[event.name := event.message]
  }

  function UpsertAll(table: map<Name, string>, events: seq<Event>): map<Name, string> {
    if events == [] then table else Upsert(UpsertAll(table, events[..|events| - 1]), events[|events| - 1])
  }

  // ---------------------------------------------------------------- the whole system

  /** Journal shard of an entity and topic partition of a key; both are hashes of the name. */
  datatype Topology = Topology(shards: nat, partitions: nat, shardOf: Name -> nat, partitionOf: Name -> nat)

  ghost predicate WellFormed(t: Topology) {
    forall n: Name :: t.shardOf(n) < t.shards && t.partitionOf(n) < t.partitions
  }

  /** A topic record keeps the journal offset it was published with. */
  datatype Record = Record(event: Event, offset: nat)
  datatype Snapshot = Snapshot(count: nat, state: HelloState)

  datatype System = System(
    journal: seq<seq<Event>>, snapshots: map<Name, Snapshot>,
    published: seq<nat>, publishCommit: seq<nat>,
    topic: seq<seq<Record>>,
    consumed: seq<nat>, consumeCommit: seq<nat>,
    table: map<Name, string>)

  datatype Step =
    | UseGreeting(name: Name, text: string)
    | TakeSnapshot(name: Name)
    | Publish(shard: nat)
    | CommitPublished(shard: nat, upTo: nat)
    | CrashProducer(shard: nat)
    | Deliver(partition: nat)
    | CommitConsumed(partition: nat, upTo: nat)
    | CrashConsumer(partition: nat)

  function Init(t: Topology): System {
    System(seq(t.shards, _ => []), map[], seq(t.shards, _ => 0), seq(t.shards, _ => 0),
           seq(t.partitions, _ => []), seq(t.partitions, _ => 0), seq(t.partitions, _ => 0), map[])
  }

  ghost predicate Shaped(t: Topology, s: System) {
    && WellFormed(t)
    && |s.journal| == |s.published| == |s.publishCommit| == t.shards
    && |s.topic| == |s.consumed| == |s.consumeCommit| == t.partitions
    && (forall i :: 0 <= i < t.shards ==> s.publishCommit[i] <= s.published[i] <= |s.journal[i]|)
    && (forall p :: 0 <= p < t.partitions ==> s.consumeCommit[p] <= s.consumed[p] <= |s.topic[p]|)
  }

  /** The events of an entity in its shard of the journal. */
  ghost function Journaled(t: Topology, s: System, name: Name): seq<Event>
    requires Shaped(t, s)
  {
    EventsOf(s.journal[t.shardOf(name)], name)
  }

  /** `helloEvents`: the next journal entry of a shard becomes a record in the partition of its key. */
  ghost function PublishNext(t: Topology, s: System, i: nat): System
    requires Shaped(t, s) && i < t.shards && s.published[i] < |s.journal[i]|
  {
    var offset := s.published[i];
    var event := s.journal[i][offset];
    var p := t.partitionOf(event.name);
    s.(topic := s.topic[p := s.topic[p] + [Record(event, offset)]], published := s.published[i := offset + 1])
  }

  /** The subscriber's flow takes the next record of a partition and writes its row. */
  ghost function DeliverNext(t: Topology, s: System, p: nat): System
    requires Shaped(t, s) && p < t.partitions && s.consumed[p] < |s.topic[p]|
  {
    var offset := s.consumed[p];
    s.(table := Upsert(s.table, s.topic[p][offset].event), consumed := s.consumed[p := offset + 1])
  }

  /** One step; a step that is not enabled leaves the system as it is. */
  ghost function Next(t: Topology, s: System, step: Step): System
    requires Shaped(t, s)
  {
    match step
    case UseGreeting(name, text) =>
      var i := t.shardOf(name);
      var effect := HandleCommand(name, Recover(t, s, name), UseGreetingMessage(text));
      s.(journal := s.journal[i := s.journal[i] + [effect.event]])
    case TakeSnapshot(name) =>
      s.(snapshots := s.snapshots[name := Snapshot(|Journaled(t, s, name)|, Recover(t, s, name))])
    case Publish(i) =>
      if i < t.shards && s.published[i] < |s.journal[i]| then PublishNext(t, s, i) else s
    case CommitPublished(i, upTo) =>
      if i < t.shards && s.publishCommit[i] <= upTo <= s.published[i]
      then s.(publishCommit := s.publishCommit[i := upTo]) else s
    case CrashProducer(i) =>
      if i < t.shards then s.(published := s.published[i := s.publishCommit[i]]) else s
    case Deliver(p) =>
      if p < t.partitions && s.consumed[p] < |s.topic[p]| then DeliverNext(t, s, p) else s
    case CommitConsumed(p, upTo) =>
      if p < t.partitions && s.consumeCommit[p] <= upTo <= s.consumed[p]
      then s.(consumeCommit := s.consumeCommit[p := upTo]) else s
    case CrashConsumer(p) =>
      if p < t.partitions then s.(consumed := s.consumed[p := s.consumeCommit[p]]) else s
  }

  /** The entity's state when it is loaded: its snapshot if it has one, then the later events. */
  ghost function Recover(t: Topology, s: System, name: Name): HelloState
    requires Shaped(t, s)
  {
    var events := Journaled(t, s, name);
    if name in s.snapshots && s.snapshots[name].count <= |events|
    then Replay(InitialState(Some(s.snapshots[name].state)), events[s.snapshots[name].count..])
    else Replay(InitialState(None), events)
  }

  /** `directStream`: ask the entity. */
  ghost function DirectReply(t: Topology, s: System, name: Name): string
    requires Shaped(t, s)
  {
    HandleCommand(name, Recover(t, s, name), Hello(name)).text
  }

  /** `autonomousStream`: read the table, with "Hello" for a missing row. */
  function AutonomousReply(s: System, name: Name): string {
    (if name in s.table then s.table[name] else "Hello") + ", " + name + "!"
  }

  // ---------------------------------------------------------------- last event of a name

  /** The last position below k that holds an event of the name, or -1. */
  function LastIndex(log: seq<Event>, name: Name, k: nat): (i: int)
    requires k <= |log|
    ensures -1 <= i < k
    ensures i >= 0 ==> log[i].name == name
    ensures forall j :: i < j < k ==> log[j].name != name
  {
    if k == 0 then -1 else if log[k - 1].name == name then k - 1 else LastIndex(log, name, k - 1)
  }

  lemma {:induction false} LastIndexExtends(log: seq<Event>, more: seq<Event>, name: Name, k: nat)
    requires k <= |log|
    ensures LastIndex(log + more, name, k) == LastIndex(log, name, k)
  {
    if k > 0 { LastIndexExtends(log, more, name, k - 1); }
  }

  /** Replaying a name's events ends in the message of its last event. */
  lemma {:induction false} ReplayIsLast(log: seq<Event>, name: Name)
    ensures var last := LastIndex(log, name, |log|);
            Replay(InitialState(None), EventsOf(log, name)).message == if last < 0 then "Hello" else log[last].message
  {
    if log != [] {
      var front := log[..|log| - 1];
      ReplayIsLast(front, name);
      assert front + [log[|log| - 1]] == log;
      LastIndexExtends(front, [log[|log| - 1]], name, |front|);
      if log[|log| - 1].name == name {
        var events := EventsOf(log, name);
        assert events[..|events| - 1] == EventsOf(front, name);
      }
    }
  }

  lemma {:induction false} ReplayConcat(state: HelloState, a: seq<Event>, b: seq<Event>)
    ensures Replay(Replay(state, a), b) == Replay(state, a + b)
  {
    if b == [] {
      assert a + b == a;
    } else {
      ReplayConcat(state, a, b[..|b| - 1]);
      assert (a + b)[..|a + b| - 1] == a + b[..|b| - 1];
    }
  }

  /** Consuming a whole log leaves each name the message of its last event, and no other rows change. */
  lemma {:induction false} UpsertAllKeepsLast(table: map<Name, string>, log: seq<Event>, name: Name)
    ensures var last := LastIndex(log, name, |log|);
            if last < 0 then (name in UpsertAll(table, log) <==> name in table) &&
                             (name in table ==> UpsertAll(table, log)[name] == table[name])
            else name in UpsertAll(table, log) && UpsertAll(table, log)[name] == log[last].message
  {
    if log != [] {
      var front, event := log[..|log| - 1], log[|log| - 1];
      UpsertAllKeepsLast(table, front, name);
      assert front + [event] == log;
      LastIndexExtends(front, [event], name, |front|);
    }
  }

  class StreamRepository {
    var greetingMessage: map<Name, string>
    ghost var written: seq<Event>   // every write, in order

    /** Each row holds what was last written for its name. */
    ghost predicate Valid()
      reads this
    {
      greetingMessage == UpsertAll(map[], written)
    }

    constructor ()
      ensures Valid() && written == []
    {
      greetingMessage, written := map[], [];
    }

    /** The new row, and every other row as it was. */
    method UpdateMessage(name: Name, message: string)
      requires Valid()
      modifies this
      ensures Valid() && written == old(written) + [GreetingMessageChanged(name, message)]
      ensures name in greetingMessage && greetingMessage[name] == message
      ensures forall n :: n != name ==>
                (n in greetingMessage <==> n in old(greetingMessage)) &&
                (n in greetingMessage ==> greetingMessage[n] == old(greetingMessage)[n])
    {
      assert (written + [GreetingMessageChanged(name, message)])[..|written|] == written;
      greetingMessage := greetingMessage[name := message];
      written := written + [GreetingMessageChanged(name, message)];
    }

    /** The message last written for the name, if any was. */
    method GetMessage(name: Name) returns (message: Option<string>)
      requires Valid()
      ensures var last := LastIndex(written, name, |written|);
              message == if last < 0 then None else Some(written[last].message)
    {
      UpsertAllKeepsLast(map[], written, name);
      message := if name in greetingMessage then Some(greetingMessage[name]) else None;
    }

    /** The subscriber's flow: one event at a time, each written before the next is taken. */
    method Consume(events: seq<Event>)
      requires Valid()
      modifies this
      ensures Valid() && written == old(written) + events
    {
      for i := 0 to |events|
        invariant Valid() && written == old(written) + events[..i]
      {
        UpdateMessage(events[i].name, events[i].message);
        assert events[..i + 1] == events[..i] + [events[i]];
      }
      assert events[..|events|] == events;
    }
  }

  // ---------------------------------------------------------------- the invariant

  function Events(records: seq<Record>): (events: seq<Event>)
    ensures |events| == |records|
    ensures forall i :: 0 <= i < |records| ==> events[i] == records[i].event
  {
    seq(|records|, i requires 0 <= i < |records| => records[i].event)
  }

  /** Every journal entry is in the shard of its entity. */
  ghost predicate ShardHolds(t: Topology, i: nat, log: seq<Event>) {
    forall k :: 0 <= k < |log| ==> t.shardOf(log[k].name) == i
  }

  /** A record is a journal entry, in the partition of its key. */
  ghost predicate RecordHolds(t: Topology, journal: seq<seq<Event>>, p: nat, r: Record) {
    && t.partitionOf(r.event.name) == p
    && t.shardOf(r.event.name) < |journal|
    && r.offset < |journal[t.shardOf(r.event.name)]|
    && journal[t.shardOf(r.event.name)][r.offset] == r.event
  }

  ghost predicate PartitionHolds(t: Topology, journal: seq<seq<Event>>, p: nat, records: seq<Record>) {
    forall k :: 0 <= k < |records| ==> RecordHolds(t, journal, p, records[k])
  }

  /** The newest record of a name is at least as new as what its producer has passed. */
  ghost predicate NewestCovers(log: seq<Event>, pos: nat, records: seq<Record>, name: Name)
    requires pos <= |log|
  {
    var passed := LastIndex(log, name, pos);
    var newest := LastIndex(Events(records), name, |records|);
    passed >= 0 ==> newest >= 0 && records[newest].offset >= passed
  }

  /** The row comes from a record of the name at least as late as any the consumer has passed. */
  ghost predicate RowFrom(records: seq<Record>, name: Name, message: string, passed: int) {
    exists k :: passed <= k < |records| && 0 <= k && records[k].event == GreetingMessageChanged(name, message)
  }

  ghost predicate RowCovers(records: seq<Record>, pos: nat, table: map<Name, string>, name: Name)
    requires pos <= |records|
  {
    var passed := LastIndex(Events(records), name, pos);
    if name in table then RowFrom(records, name, table[name], passed) else passed < 0
  }

  ghost predicate SnapshotSound(events: seq<Event>, snapshots: map<Name, Snapshot>, name: Name) {
    name in snapshots ==>
      && snapshots[name].count <= |events|
      && snapshots[name].state == Replay(InitialState(None), events[..snapshots[name].count])
  }

  ghost predicate NameHolds(t: Topology, s: System, n: Name)
    requires Shaped(t, s)
  {
    var i, p := t.shardOf(n), t.partitionOf(n);
    && NewestCovers(s.journal[i], s.published[i], s.topic[p], n)
    && RowCovers(s.topic[p], s.consumed[p], s.table, n)
    && SnapshotSound(EventsOf(s.journal[i], n), s.snapshots, n)
  }

  ghost predicate Inv(t: Topology, s: System) {
    && Shaped(t, s)
    && (forall i :: 0 <= i < t.shards ==> ShardHolds(t, i, s.journal[i]))
    && (forall p :: 0 <= p < t.partitions ==> PartitionHolds(t, s.journal, p, s.topic[p]))
    && (forall n: Name :: NameHolds(t, s, n))
  }

  lemma RecoverIsReplay(t: Topology, s: System, name: Name)
    requires Shaped(t, s) && NameHolds(t, s, name)
    ensures Recover(t, s, name) == Replay(InitialState(None), Journaled(t, s, name))
  {
    if name in s.snapshots {
      var events := Journaled(t, s, name);
      var k := s.snapshots[name].count;
      ReplayConcat(InitialState(None), events[..k], events[k..]);
      assert events[..k] + events[k..] == events;
    }
  }

  lemma InitInv(t: Topology)
    requires WellFormed(t)
    ensures Inv(t, Init(t))
  {
  }

  // ---------------------------------------------------------------- each step keeps the invariant

  lemma EventsOfAppend(log: seq<Event>, event: Event, name: Name)
    ensures EventsOf(log + [event], name) == EventsOf(log, name) + (if event.name == name then [event] else [])
  {
    assert (log + [event])[..|log|] == log;
  }

  lemma GreetingKeepsInv(t: Topology, s: System, name: Name, text: string)
    requires Inv(t, s)
    ensures Inv(t, Next(t, s, UseGreeting(name, text)))
  {
    var s' := Next(t, s, UseGreeting(name, text));
    var i := t.shardOf(name);
    var event := GreetingMessageChanged(name, text);
    assert s'.journal[i] == s.journal[i] + [event];
    forall p | 0 <= p < t.partitions ensures PartitionHolds(t, s'.journal, p, s'.topic[p]) {
      assert PartitionHolds(t, s.journal, p, s.topic[p]);
    }
    forall n: Name ensures NameHolds(t, s', n) {
      assert NameHolds(t, s, n);
      if t.shardOf(n) == i {
        LastIndexExtends(s.journal[i], [event], n, s.published[i]);
        EventsOfAppend(s.journal[i], event, n);
        SnapshotExtends(Journaled(t, s, n), Journaled(t, s', n), s.snapshots, n);
      }
    }
  }

  lemma SnapshotExtends(events: seq<Event>, more: seq<Event>, snapshots: map<Name, Snapshot>, name: Name)
    requires events <= more && SnapshotSound(events, snapshots, name)
    ensures SnapshotSound(more, snapshots, name)
  {
    if name in snapshots {
      assert more[..snapshots[name].count] == events[..snapshots[name].count];
    }
  }

  lemma SnapshotKeepsInv(t: Topology, s: System, name: Name)
    requires Inv(t, s)
    ensures Inv(t, Next(t, s, TakeSnapshot(name)))
  {
    var s' := Next(t, s, TakeSnapshot(name));
    forall n: Name ensures NameHolds(t, s', n) {
      assert NameHolds(t, s, n);
      if n == name {
        RecoverIsReplay(t, s, n);
        assert Journaled(t, s, n)[..|Journaled(t, s, n)|] == Journaled(t, s, n);
      }
    }
  }

  lemma NewestAfterPublish(log: seq<Event>, pos: nat, records: seq<Record>, name: Name, event: Event, offset: nat)
    requires pos <= |log| && NewestCovers(log, pos, records, name)
    ensures event.name != name ==> NewestCovers(log, pos, records + [Record(event, offset)], name)
    ensures event.name == name && offset == pos < |log| && log[pos] == event ==>
              NewestCovers(log, pos + 1, records + [Record(event, offset)], name)
  {
    var more := records + [Record(event, offset)];
    assert Events(more) == Events(records) + [event];
    LastIndexExtends(Events(records), [event], name, |records|);
    if event.name == name { assert LastIndex(Events(more), name, |more|) == |records|; }
  }

  lemma RowAfterPublish(records: seq<Record>, pos: nat, table: map<Name, string>, name: Name, record: Record)
    requires pos <= |records| && RowCovers(records, pos, table, name)
    ensures RowCovers(records + [record], pos, table, name)
  {
    var more := records + [record];
    assert Events(more) == Events(records) + [record.event];
    LastIndexExtends(Events(records), [record.event], name, pos);
    var passed := LastIndex(Events(records), name, pos);
    if name in table {
      var k :| passed <= k < |records| && 0 <= k && records[k].event == GreetingMessageChanged(name, table[name]);
      assert more[k] == records[k];
    }
  }

  lemma PublishKeepsNewest(t: Topology, s: System, i: nat, n: Name)
    requires Shaped(t, s) && NameHolds(t, s, n)
    requires i < t.shards && s.published[i] < |s.journal[i]|
    requires t.shardOf(s.journal[i][s.published[i]].name) == i
    ensures var s', j, q := PublishNext(t, s, i), t.shardOf(n), t.partitionOf(n);
            && s'.published[j] <= |s.journal[j]|
            && NewestCovers(s.journal[j], s'.published[j], s'.topic[q], n)
  {
    var offset := s.published[i];
    var event := s.journal[i][offset];
    var j, q := t.shardOf(n), t.partitionOf(n);
    if n == event.name || q == t.partitionOf(event.name) {
      NewestAfterPublish(s.journal[j], s.published[j], s.topic[q], n, event, offset);
    }
    if i == j && n != event.name {
      assert LastIndex(s.journal[j], n, offset + 1) == LastIndex(s.journal[j], n, offset);
    }
  }

  lemma PublishKeepsShape(t: Topology, s: System, i: nat)
    requires Shaped(t, s) && i < t.shards && s.published[i] < |s.journal[i]|
    ensures Shaped(t, PublishNext(t, s, i))
  {
  }

  lemma PublishKeepsPartition(t: Topology, s: System, i: nat, p: nat)
    requires Shaped(t, s) && i < t.shards && s.published[i] < |s.journal[i]| && p < t.partitions
    requires t.shardOf(s.journal[i][s.published[i]].name) == i
    requires PartitionHolds(t, s.journal, p, s.topic[p])
    ensures PartitionHolds(t, s.journal, p, PublishNext(t, s, i).topic[p])
  {
    var event := s.journal[i][s.published[i]];
    assert RecordHolds(t, s.journal, t.partitionOf(event.name), Record(event, s.published[i]));
  }

  lemma PublishKeepsInv(t: Topology, s: System, i: nat)
    requires Inv(t, s) && i < t.shards && s.published[i] < |s.journal[i]|
    ensures Inv(t, PublishNext(t, s, i))
  {
    var s' := PublishNext(t, s, i);
    var event := s.journal[i][s.published[i]];
    assert t.shardOf(event.name) == i by { assert ShardHolds(t, i, s.journal[i]); }
    PublishKeepsShape(t, s, i);
    forall n: Name ensures NameHolds(t, s', n) {
      assert NameHolds(t, s, n);
      var q := t.partitionOf(n);
      PublishKeepsNewest(t, s, i, n);
      RowAfterPublish(s.topic[q], s.consumed[q], s.table, n, Record(event, s.published[i]));
    }
    forall p | 0 <= p < t.partitions ensures PartitionHolds(t, s'.journal, p, s'.topic[p]) {
      PublishKeepsPartition(t, s, i, p);
    }
  }

  /** Rolling back can only lower what has been passed. */
  lemma {:induction false} LastIndexMonotone(log: seq<Event>, name: Name, j: nat, k: nat)
    requires j <= k <= |log|
    ensures LastIndex(log, name, j) <= LastIndex(log, name, k)
  {
    if j < k { LastIndexMonotone(log, name, j, k - 1); }
  }

  lemma ProducerCrashKeepsInv(t: Topology, s: System, i: nat)
    requires Inv(t, s) && i < t.shards
    ensures Inv(t, Next(t, s, CrashProducer(i)))
  {
    hide EventsOf, LastIndex, Replay, SnapshotSound, RowCovers, PartitionHolds, ShardHolds;
    var s' := Next(t, s, CrashProducer(i));
    forall n: Name ensures NameHolds(t, s', n) {
      assert NameHolds(t, s, n);
      LastIndexMonotone(s.journal[i], n, s.publishCommit[i], s.published[i]);
    }
  }

  lemma RowAfterDeliver(records: seq<Record>, pos: nat, table: map<Name, string>, name: Name)
    requires pos < |records| && RowCovers(records, pos, table, name)
    ensures RowCovers(records, pos + 1, Upsert(table, records[pos].event), name)
  {
    assert Events(records)[pos] == records[pos].event;
    if records[pos].event.name == name {
      assert LastIndex(Events(records), name, pos + 1) == pos;
      assert records[pos].event == GreetingMessageChanged(name, Upsert(table, records[pos].event)[name]);
    }
  }

  lemma DeliverKeepsInv(t: Topology, s: System, p: nat)
    requires Inv(t, s) && p < t.partitions && s.consumed[p] < |s.topic[p]|
    ensures Inv(t, DeliverNext(t, s, p))
  {
    hide EventsOf, LastIndex, Replay, SnapshotSound, NewestCovers, RowFrom, ShardHolds;
    var s' := DeliverNext(t, s, p);
    assert Shaped(t, s');
    var event := s.topic[p][s.consumed[p]].event;
    assert PartitionHolds(t, s.journal, p, s.topic[p]);
    assert RecordHolds(t, s.journal, p, s.topic[p][s.consumed[p]]);
    forall n: Name ensures NameHolds(t, s', n) {
      assert NameHolds(t, s, n);
      if t.partitionOf(n) == p {
        RowAfterDeliver(s.topic[p], s.consumed[p], s.table, n);
      } else {
        assert n != event.name;
      }
    }
  }

  lemma ConsumerCrashKeepsInv(t: Topology, s: System, p: nat)
    requires Inv(t, s) && p < t.partitions
    ensures Inv(t, Next(t, s, CrashConsumer(p)))
  {
    hide EventsOf, LastIndex, Replay, SnapshotSound, NewestCovers, RowFrom, PartitionHolds, ShardHolds;
    var s' := Next(t, s, CrashConsumer(p));
    forall n: Name ensures NameHolds(t, s', n) {
      assert NameHolds(t, s, n);
      if t.partitionOf(n) == p {
        RowAfterRollback(s.topic[p], s.consumed[p], s.consumeCommit[p], s.table, n);
      }
    }
  }

  lemma RowAfterRollback(records: seq<Record>, pos: nat, back: nat, table: map<Name, string>, name: Name)
    requires back <= pos <= |records| && RowCovers(records, pos, table, name)
    ensures RowCovers(records, back, table, name)
  {
    LastIndexMonotone(Events(records), name, back, pos);
  }

  lemma CommitKeepsInv(t: Topology, s: System, step: Step)
    requires Inv(t, s) && (step.CommitPublished? || step.CommitConsumed?)
    ensures Inv(t, Next(t, s, step))
  {
    hide EventsOf, LastIndex, Replay, SnapshotSound, NewestCovers, RowCovers, PartitionHolds, ShardHolds;
    forall n: Name ensures NameHolds(t, Next(t, s, step), n) {
      assert NameHolds(t, s, n);
    }
  }

  lemma StepKeepsInv(t: Topology, s: System, step: Step)
    requires Inv(t, s)
    ensures Inv(t, Next(t, s, step))
  {
    match step
    case UseGreeting(name, text) => GreetingKeepsInv(t, s, name, text);
    case TakeSnapshot(name) => SnapshotKeepsInv(t, s, name);
    case Publish(i) => if i < t.shards && s.published[i] < |s.journal[i]| { PublishKeepsInv(t, s, i); }
    case CrashProducer(i) => if i < t.shards { ProducerCrashKeepsInv(t, s, i); }
    case Deliver(p) => if p < t.partitions && s.consumed[p] < |s.topic[p]| { DeliverKeepsInv(t, s, p); }
    case CrashConsumer(p) => if p < t.partitions { ConsumerCrashKeepsInv(t, s, p); }
    case _ => CommitKeepsInv(t, s, step);
  }

  // ---------------------------------------------------------------- runs

  /** The system after a run of steps from s. */
  ghost function Run(t: Topology, s: System, steps: seq<Step>): (s': System)
    requires Inv(t, s)
    ensures Inv(t, s')
    decreases |steps|
  {
    if steps == [] then s
    else
      StepKeepsInv(t, s, steps[0]);
      Run(t, Next(t, s, steps[0]), steps[1..])
  }

  ghost predicate CaughtUpFor(t: Topology, s: System, name: Name)
    requires Shaped(t, s)
  {
    && s.published[t.shardOf(name)] == |s.journal[t.shardOf(name)]|
    && s.consumed[t.partitionOf(name)] == |s.topic[t.partitionOf(name)]|
  }

  ghost predicate CaughtUp(s: System)
    requires |s.published| == |s.journal| && |s.consumed| == |s.topic|
  {
    && (forall i :: 0 <= i < |s.journal| ==> s.published[i] == |s.journal[i]|)
    && (forall p :: 0 <= p < |s.topic| ==> s.consumed[p] == |s.topic[p]|)
  }

  /** Safety: in every run, a row holds a message that was journaled for its name. */
  lemma RowsAreJournaled(t: Topology, steps: seq<Step>, name: Name)
    requires WellFormed(t)
    ensures var s := (InitInv(t); Run(t, Init(t), steps));
            name in s.table ==> GreetingMessageChanged(name, s.table[name]) in s.journal[t.shardOf(name)]
  {
    InitInv(t);
    var s := Run(t, Init(t), steps);
    if name in s.table {
      var p := t.partitionOf(name);
      assert NameHolds(t, s, name) && PartitionHolds(t, s.journal, p, s.topic[p]);
      var k :| 0 <= k < |s.topic[p]| && s.topic[p][k].event == GreetingMessageChanged(name, s.table[name]);
      assert RecordHolds(t, s.journal, p, s.topic[p][k]);
    }
  }

  /** Convergence: in every run, once a name's shard is published and its partition consumed,
      the two endpoints give the same reply for it. */
  lemma StreamsAgreeWhenCaughtUp(t: Topology, steps: seq<Step>, name: Name)
    requires WellFormed(t)
    ensures var s := (InitInv(t); Run(t, Init(t), steps));
            CaughtUpFor(t, s, name) ==> AutonomousReply(s, name) == DirectReply(t, s, name)
  {
    InitInv(t);
    var s := Run(t, Init(t), steps);
    if CaughtUpFor(t, s, name) {
      var i, p := t.shardOf(name), t.partitionOf(name);
      assert NameHolds(t, s, name) && PartitionHolds(t, s.journal, p, s.topic[p]);
      RowIsLast(t, s.journal, p, s.topic[p], s.table, name);
      RecoverIsReplay(t, s, name);
      ReplayIsLast(s.journal[i], name);
    }
  }

  lemma RowIsLast(t: Topology, journal: seq<seq<Event>>, p: nat, records: seq<Record>,
                  table: map<Name, string>, name: Name)
    requires t.shardOf(name) < |journal| && PartitionHolds(t, journal, p, records)
    requires NewestCovers(journal[t.shardOf(name)], |journal[t.shardOf(name)]|, records, name)
    requires RowCovers(records, |records|, table, name)
    ensures var log := journal[t.shardOf(name)];
            var last := LastIndex(log, name, |log|);
            if last < 0 then name !in table else name in table && table[name] == log[last].message
  {
    var newest := LastIndex(Events(records), name, |records|);
    if newest >= 0 {
      assert Events(records)[newest] == records[newest].event;
      assert RecordHolds(t, journal, p, records[newest]);
    }
    if name in table {
      var k :| newest <= k < |records| && 0 <= k && records[k].event == GreetingMessageChanged(name, table[name]);
      assert Events(records)[k].name == name;
      assert k == newest;
    }
  }

  // ---------------------------------------------------------------- what the callers asked for

  /** The texts asked for a name, in order. */
  function Asked(steps: seq<Step>, name: Name): seq<string> {
    if steps == [] then []
    else (if steps[0].UseGreeting? && steps[0].name == name then [steps[0].text] else []) + Asked(steps[1..], name)
  }

  /** The text last asked for a name, or "Hello". */
  function LastAsked(steps: seq<Step>, name: Name): string {
    var texts := Asked(steps, name);
    if texts == [] then "Hello" else texts[|texts| - 1]
  }

  function Messages(events: seq<Event>): (texts: seq<string>)
    ensures |texts| == |events| && forall i :: 0 <= i < |events| ==> texts[i] == events[i].message
  {
    seq(|events|, i requires 0 <= i < |events| => events[i].message)
  }

  /** One step journals what it asks for a name, and nothing else. */
  lemma StepJournals(t: Topology, s: System, step: Step, name: Name)
    requires Shaped(t, s) && Shaped(t, Next(t, s, step))
    ensures Journaled(t, Next(t, s, step), name) ==
            Journaled(t, s, name) + if step.UseGreeting? && step.name == name
                                    then [GreetingMessageChanged(name, step.text)] else []
  {
    hide EventsOf;
    if step.UseGreeting? && t.shardOf(step.name) == t.shardOf(name) {
      EventsOfAppend(s.journal[t.shardOf(name)], GreetingMessageChanged(step.name, step.text), name);
    }
  }

  /** In every run the journal of a name grows by the texts asked for it, in order. */
  lemma {:induction false} RunJournals(t: Topology, s: System, steps: seq<Step>, name: Name)
    requires Inv(t, s)
    ensures Messages(Journaled(t, Run(t, s, steps), name)) == Messages(Journaled(t, s, name)) + Asked(steps, name)
    decreases |steps|
  {
    hide Next, Journaled, NameHolds, PartitionHolds, ShardHolds;
    if steps != [] {
      StepKeepsInv(t, s, steps[0]);
      StepJournals(t, s, steps[0], name);
      RunJournals(t, Next(t, s, steps[0]), steps[1..], name);
    }
  }

  lemma {:induction false} EventsOfHolds(log: seq<Event>, name: Name)
    ensures forall e :: e in EventsOf(log, name) <==> e in log && e.name == name
  {
    if log != [] {
      EventsOfHolds(log[..|log| - 1], name);
      assert log == log[..|log| - 1] + [log[|log| - 1]];
    }
  }

  lemma {:induction false} AskedHolds(steps: seq<Step>, name: Name, text: string)
    ensures text in Asked(steps, name) <==> UseGreeting(name, text) in steps
  {
    if steps != [] {
      AskedHolds(steps[1..], name, text);
      assert steps == [steps[0]] + steps[1..];
    }
  }

  lemma JournalStarts(t: Topology, name: Name)
    requires WellFormed(t)
    ensures Inv(t, Init(t)) && Journaled(t, Init(t), name) == []
  {
    InitInv(t);
  }

  /** In every run a name has been journaled exactly the texts asked for it, in the order in which they
      were asked for; and a text has been journaled for a name exactly if a caller asked for it. */
  lemma JournalIsWhatWasAsked(t: Topology, steps: seq<Step>, name: Name)
    requires WellFormed(t)
    ensures var s := (InitInv(t); Run(t, Init(t), steps));
            && Messages(EventsOf(s.journal[t.shardOf(name)], name)) == Asked(steps, name)
            && forall text :: GreetingMessageChanged(name, text) in s.journal[t.shardOf(name)] <==>
                              UseGreeting(name, text) in steps
  {
    hide NameHolds, EventsOf, Asked, Next, Run;
    JournalStarts(t, name);
    var s := Run(t, Init(t), steps);
    RunJournals(t, Init(t), steps, name);
    var log := s.journal[t.shardOf(name)];
    EventsOfHolds(log, name);
    forall text ensures GreetingMessageChanged(name, text) in log <==> UseGreeting(name, text) in steps {
      AskedHolds(steps, name, text);
      MessagesHold(EventsOf(log, name), name, text);
    }
  }

  lemma MessagesHold(events: seq<Event>, name: Name, text: string)
    requires forall e :: e in events ==> e.name == name
    ensures text in Messages(events) <==> GreetingMessageChanged(name, text) in events
  {
    if text in Messages(events) {
      var i :| 0 <= i < |events| && Messages(events)[i] == text;
      assert events[i] == GreetingMessageChanged(name, text);
    }
    if GreetingMessageChanged(name, text) in events {
      var i :| 0 <= i < |events| && events[i] == GreetingMessageChanged(name, text);
      assert Messages(events)[i] == text;
    }
  }

  lemma {:induction false} ReplayEnds(events: seq<Event>)
    ensures Replay(InitialState(None), events).message ==
            if events == [] then "Hello" else Messages(events)[|events| - 1]
  {
  }

  /** In every run the entity greets a name with the text last asked for it. */
  lemma DirectReplyIsLastAsked(t: Topology, steps: seq<Step>, name: Name)
    requires WellFormed(t)
    ensures var s := (InitInv(t); Run(t, Init(t), steps));
            DirectReply(t, s, name) == LastAsked(steps, name) + ", " + name + "!"
  {
    hide EventsOf, Asked, Next, Run;
    JournalStarts(t, name);
    var s := Run(t, Init(t), steps);
    RunJournals(t, Init(t), steps, name);
    RecoverIsReplay(t, s, name);
    ReplayEnds(Journaled(t, s, name));
  }

  /** Once caught up, so does the read table; and a row always holds a text that was asked for. */
  lemma AutonomousReplyIsLastAsked(t: Topology, steps: seq<Step>, name: Name)
    requires WellFormed(t)
    ensures var s := (InitInv(t); Run(t, Init(t), steps));
            && (CaughtUpFor(t, s, name) ==> AutonomousReply(s, name) == LastAsked(steps, name) + ", " + name + "!")
            && (name in s.table ==> UseGreeting(name, s.table[name]) in steps)
  {
    hide EventsOf, Asked, Next, Run, DirectReply;
    StreamsAgreeWhenCaughtUp(t, steps, name);
    DirectReplyIsLastAsked(t, steps, name);
    RowsAreJournaled(t, steps, name);
    JournalIsWhatWasAsked(t, steps, name);
  }

  // ---------------------------------------------------------------- snapshots, commits and crashes

  /** A snapshot is the state that a full replay would give, and says how many events it stands for. */
  lemma SnapshotIsReplay(t: Topology, s: System, name: Name)
    requires Inv(t, s)
    ensures var s', events := Next(t, s, TakeSnapshot(name)), Journaled(t, s, name);
            s' == s.(snapshots := s.snapshots[name := Snapshot(|events|, Replay(HelloState("Hello"), events))])
  {
    RecoverIsReplay(t, s, name);
  }

  /** A producer that crashes goes on from the last offset it has committed, and so does a consumer;
      nothing else changes. */
  lemma CrashResumes(t: Topology, s: System, i: nat, upTo: nat)
    requires Shaped(t, s)
    ensures i < t.shards && s.publishCommit[i] <= upTo <= s.published[i] ==>
              var s' := Next(t, s, CommitPublished(i, upTo));
              && Shaped(t, s')
              && Next(t, s', CrashProducer(i)) ==
                 s.(publishCommit := s.publishCommit[i := upTo], published := s.published[i := upTo])
    ensures i < t.partitions && s.consumeCommit[i] <= upTo <= s.consumed[i] ==>
              var s' := Next(t, s, CommitConsumed(i, upTo));
              && Shaped(t, s')
              && Next(t, s', CrashConsumer(i)) ==
                 s.(consumeCommit := s.consumeCommit[i := upTo], consumed := s.consumed[i := upTo])
  {
  }

  // ---------------------------------------------------------------- catching up is always possible

  function Backlog(positions: seq<nat>, lengths: seq<nat>): (n: nat)
    requires |positions| == |lengths| && forall i :: 0 <= i < |lengths| ==> positions[i] <= lengths[i]
  {
    if positions == [] then 0 else lengths[0] - positions[0] + Backlog(positions[1..], lengths[1..])
  }

  lemma {:induction false} BacklogDrops(positions: seq<nat>, lengths: seq<nat>, i: nat)
    requires |positions| == |lengths| && forall j :: 0 <= j < |lengths| ==> positions[j] <= lengths[j]
    requires i < |positions| && positions[i] < lengths[i]
    ensures Backlog(positions[i := positions[i] + 1], lengths) == Backlog(positions, lengths) - 1
  {
    var moved := positions[i := positions[i] + 1];
    if i == 0 {
      assert moved[1..] == positions[1..];
    } else {
      BacklogDrops(positions[1..], lengths[1..], i - 1);
      assert moved[1..] == positions[1..][i - 1 := positions[i] + 1];
    }
  }

  function Lengths<T>(logs: seq<seq<T>>): (lengths: seq<nat>)
    ensures |lengths| == |logs| && forall i :: 0 <= i < |logs| ==> lengths[i] == |logs[i]|
  {
    seq(|logs|, i requires 0 <= i < |logs| => |logs[i]|)
  }

  lemma RunCons(t: Topology, s: System, step: Step, rest: seq<Step>)
    requires Inv(t, s)
    ensures Inv(t, Next(t, s, step)) && Run(t, s, [step] + rest) == Run(t, Next(t, s, step), rest)
  {
    StepKeepsInv(t, s, step);
    assert ([step] + rest)[1..] == rest;
  }

  ghost predicate OnlyCatchesUp(steps: seq<Step>) {
    forall k :: 0 <= k < |steps| ==> steps[k].Publish? || steps[k].Deliver?
  }

  lemma {:induction false} DeliverAll(t: Topology, s: System) returns (steps: seq<Step>)
    requires Inv(t, s) && forall i :: 0 <= i < t.shards ==> s.published[i] == |s.journal[i]|
    ensures OnlyCatchesUp(steps)
    ensures CaughtUp(Run(t, s, steps)) && Run(t, s, steps).journal == s.journal
    decreases Backlog(s.consumed, Lengths(s.topic))
  {
    if p :| 0 <= p < t.partitions && s.consumed[p] < |s.topic[p]| {
      DeliverKeepsInv(t, s, p);
      BacklogDrops(s.consumed, Lengths(s.topic), p);
      var rest := DeliverAll(t, DeliverNext(t, s, p));
      RunCons(t, s, Deliver(p), rest);
      steps := [Deliver(p)] + rest;
    } else {
      steps := [];
    }
  }

  /** From every reachable state, publishing and delivering alone reaches a caught-up state
      with the same journal. */
  lemma {:induction false} CatchUpExists(t: Topology, s: System) returns (steps: seq<Step>)
    requires Inv(t, s)
    ensures OnlyCatchesUp(steps)
    ensures CaughtUp(Run(t, s, steps)) && Run(t, s, steps).journal == s.journal
    decreases Backlog(s.published, Lengths(s.journal))
  {
    if i :| 0 <= i < t.shards && s.published[i] < |s.journal[i]| {
      PublishKeepsInv(t, s, i);
      BacklogDrops(s.published, Lengths(s.journal), i);
      var rest := CatchUpExists(t, PublishNext(t, s, i));
      RunCons(t, s, Publish(i), rest);
      steps := [Publish(i)] + rest;
    } else {
      steps := DeliverAll(t, s);
    }
  }
}
