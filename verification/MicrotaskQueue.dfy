/** The microtask queue of zone.js (module `pDpN`, functions `g` and `_` and `ZoneTask.invokeTask`):
    a queue drained when the outermost task invocation ends or a native microtask fires, behind a
    re-entrancy flag.

    A callback is the finite list of what it does; a microtask is a callback with the number of
    its enqueuing. */
module MicrotaskQueue {
  datatype Act =
    | Enqueue(body: seq<Act>, throws: bool)
    | Poke                                              // `g` without a task
    | Invoke(body: seq<Act>, throws: bool, caught: bool)

  datatype Micro = Micro(id: nat, body: seq<Act>, throws: bool)

  /** The microtasks a callback enqueues, and whether it ends by an exception of a nested invocation. */
  function Spawns(body: seq<Act>): (r: (seq<Act>, bool))
    ensures forall i :: 0 <= i < |r.0| ==> r.0[i].Enqueue?
    decreases body
  {
    if body == [] then ([], false)
    else
      match body[0]
      case Enqueue(_, _) => var (rest, threw) := Spawns(body[1..]); ([body[0]] + rest, threw)
      case Poke => Spawns(body[1..])
      case Invoke(inner, throws, caught) =>
        var (spawned, threw) := Spawns(inner);
        if (threw || throws) && !caught then (spawned, true)
        else
          var (rest, threw') := Spawns(body[1..]);
          (spawned + rest, threw')
  }

  // ---------------------------------------------------------------- exceptions, one instruction at a time

  /** The same callback without nesting: its acts, and where an invocation ends. */
  datatype Instruction = Do(act: Act) | Leave(throws: bool, caught: bool)

  function Dos(body: seq<Act>): seq<Instruction> {
    if body == [] then [] else [Do(body[0])] + Dos(body[1..])
  }

  function Left(code: seq<Instruction>): nat {
    if code == [] then 0
    else
      Left(code[1..]) +
      match code[0] case Do(a) => 2 + 2 * (if a.Invoke? then Size(a.body) else 0) case Leave(_, _) => 1
  }

  lemma {:induction false} LeftDos(body: seq<Act>, rest: seq<Instruction>)
    ensures Left(Dos(body) + rest) <= 2 * Size(body) + Left(rest)
  {
    if body == [] {
      assert Dos(body) + rest == rest;
    } else {
      LeftDos(body[1..], rest);
      assert Dos(body) + rest == [Do(body[0])] + (Dos(body[1..]) + rest);
      assert ([Do(body[0])] + (Dos(body[1..]) + rest))[1..] == Dos(body[1..]) + rest;
    }
  }

  lemma LeftInvoke(inner: seq<Act>, throws: bool, caught: bool, rest: seq<Instruction>)
    ensures Left(Dos(inner) + ([Leave(throws, caught)] + rest)) < 2 + 2 * Size(inner) + Left(rest)
  {
    LeftDos(inner, [Leave(throws, caught)] + rest);
    assert ([Leave(throws, caught)] + rest)[1..] == rest;
  }

  /** What is enqueued, and whether an exception gets out. While one is on its way acts are passed
      over; only the end of a caught invocation stops it. */
  function Execute(code: seq<Instruction>, raised: bool): (r: (seq<Act>, bool))
    ensures forall i :: 0 <= i < |r.0| ==> r.0[i].Enqueue?
    decreases Left(code)
  {
    if code == [] then ([], raised)
    else
      var rest := code[1..];
      match code[0]
      case Leave(throws, caught) => Execute(rest, (raised || throws) && !caught)
      case Do(a) =>
        if raised then Execute(rest, raised)
        else
          match a
          case Enqueue(_, _) => var (more, threw) := Execute(rest, false); ([a] + more, threw)
          case Poke => Execute(rest, false)
          case Invoke(inner, throws, caught) =>
            LeftInvoke(inner, throws, caught, rest);
            Execute(Dos(inner) + ([Leave(throws, caught)] + rest), false)
  }

  lemma ExecuteOne(instruction: Instruction, rest: seq<Instruction>, raised: bool)
    ensures Execute([instruction] + rest, raised) ==
            match instruction
            case Leave(throws, caught) => Execute(rest, (raised || throws) && !caught)
            case Do(a) =>
              if raised || a.Poke? then Execute(rest, raised)
              else if a.Enqueue? then ([a] + Execute(rest, false).0, Execute(rest, false).1)
              else Execute(Dos(a.body) + ([Leave(a.throws, a.caught)] + rest), false)
  {
    assert ([instruction] + rest)[1..] == rest;
  }

  lemma {:induction false} PassedOver(body: seq<Act>, rest: seq<Instruction>)
    ensures Execute(Dos(body) + rest, true) == Execute(rest, true)
  {
    hide Execute;
    if body == [] {
      assert Dos(body) + rest == rest;
    } else {
      assert Dos(body) + rest == [Do(body[0])] + (Dos(body[1..]) + rest);
      ExecuteOne(Do(body[0]), Dos(body[1..]) + rest, true);
      PassedOver(body[1..], rest);
    }
  }

  function Then(a: (seq<Act>, bool), b: (seq<Act>, bool)): (seq<Act>, bool) {
    (a.0 + b.0, b.1)
  }

  lemma ThenRegroup(a: seq<Act>, b: seq<Act>, c: seq<Act>)
    ensures (a + b) + c == a + (b + c) && [] + c == c
  {
  }

  /** The nested account of a callback agrees with its instructions. */
  lemma {:induction false} SpawnsIsExecution(body: seq<Act>, rest: seq<Instruction>)
    ensures Execute(Dos(body) + rest, false) == Then(Spawns(body), Execute(rest, Spawns(body).1))
    decreases body
  {
    hide Execute;
    if body == [] {
      assert Dos(body) + rest == rest;
      ThenRegroup([], [], Execute(rest, false).0);
    } else {
      var more := Dos(body[1..]) + rest;
      assert Dos(body) + rest == [Do(body[0])] + more;
      ExecuteOne(Do(body[0]), more, false);
      SpawnsIsExecution(body[1..], rest);
      match body[0]
      case Enqueue(_, _) => ThenRegroup([body[0]], Spawns(body[1..]).0, Execute(rest, Spawns(body[1..]).1).0);
      case Poke =>
      case Invoke(inner, throws, caught) =>
        SpawnsIsExecution(inner, [Leave(throws, caught)] + more);
        var (spawned, threw) := Spawns(inner);
        ExecuteOne(Leave(throws, caught), more, threw);
        PassedOver(body[1..], rest);
        ThenRegroup(spawned, Spawns(body[1..]).0, Execute(rest, Spawns(body[1..]).1).0);
    }
  }

  /** What a callback enqueues, and whether it ends by an exception of a nested invocation. */
  function Executed(body: seq<Act>): (r: (seq<Act>, bool))
    ensures forall i :: 0 <= i < |r.0| ==> r.0[i].Enqueue?
  {
    Execute(Dos(body), false)
  }

  lemma SpawnsIsExecuted(body: seq<Act>)
    ensures Spawns(body) == Executed(body)
  {
    SpawnsIsExecution(body, []);
    assert Dos(body) + [] == Dos(body);
    assert Spawns(body).0 + [] == Spawns(body).0;
  }

  /** An invocation enqueues what its callback does, up to the exception, and lets an exception out
      exactly when the callback or an invocation in it throws and it is not caught. */
  lemma WhoThrows(body: seq<Act>, throws: bool, caught: bool)
    ensures Executed([Invoke(body, throws, caught)]) == (Executed(body).0, (Executed(body).1 || throws) && !caught)
    ensures Executed([Enqueue(body, throws)]) == ([Enqueue(body, throws)], false) && Executed([Poke]) == ([], false)
  {
    hide Execute, Executed;
    SpawnsIsExecuted(body);
    SpawnsIsExecuted([Invoke(body, throws, caught)]);
    SpawnsIsExecuted([Enqueue(body, throws)]);
    SpawnsIsExecuted([Poke]);
    assert Spawns([]) == ([], false);
    assert [Poke][1..] == [] && [Enqueue(body, throws)][1..] == [] && [Invoke(body, throws, caught)][1..] == [];
    assert Spawns(body).0 + [] == Spawns(body).0 && [Enqueue(body, throws)] + [] == [Enqueue(body, throws)];
  }

  /** Acts follow one another, and none after the first that throws has any effect. */
  lemma {:induction false} NothingAfterException(a: seq<Act>, b: seq<Act>)
    ensures Executed(a + b) == if Executed(a).1 then Executed(a) else Then(Executed(a), Executed(b))
    decreases |a|
  {
    hide Execute;
    assert Dos(a + b) == Dos(a) + Dos(b) by { DosConcat(a, b); }
    SpawnsIsExecution(a, Dos(b));
    SpawnsIsExecuted(a);
    PassedOver(b, []);
    assert Dos(b) + [] == Dos(b);
    assert Execute([], true) == ([], true) by { NothingLeft(); }
    assert Executed(a).0 + [] == Executed(a).0;
  }

  lemma NothingLeft()
    ensures Execute([], true) == ([], true)
  {
  }

  lemma DosNone()
    ensures Dos([]) == []
  {
  }

  lemma DosFirst(body: seq<Act>)
    requires body != []
    ensures Dos(body) == [Do(body[0])] + Dos(body[1..])
  {
  }

  lemma DosRegroup(first: Instruction, a: seq<Instruction>, b: seq<Instruction>)
    ensures ([first] + a) + b == [first] + (a + b)
  {
  }

  lemma {:induction false} DosConcat(a: seq<Act>, b: seq<Act>)
    ensures Dos(a + b) == Dos(a) + Dos(b)
  {
    hide Dos;
    DosNone();
    if a == [] {
      assert a + b == b && [] + Dos(b) == Dos(b);
    } else {
      DosConcat(a[1..], b);
      DosFirst(a);
      DosFirst(a + b);
      assert (a + b)[1..] == a[1..] + b;
      DosRegroup(Do(a[0]), Dos(a[1..]), Dos(b));
    }
  }

  /** Number a list of enqueued callbacks from id on. */
  function Number(spawned: seq<Act>, id: nat): (ms: seq<Micro>)
    requires forall i :: 0 <= i < |spawned| ==> spawned[i].Enqueue?
    ensures |ms| == |spawned|
  {
    seq(|spawned|, i requires 0 <= i < |spawned| => Micro(id + i, spawned[i].body, spawned[i].throws))
  }

  function Ids(ms: seq<Micro>): seq<nat> {
    seq(|ms|, i requires 0 <= i < |ms| => ms[i].id)
  }

  function Iota(n: nat): seq<nat> {
    seq(n, i => i)
  }

  /** The number of acts in a callback, at every depth. */
  function Size(body: seq<Act>): nat
    decreases body
  {
    if body == [] then 0
    else
      Size(body[1..]) + 1 +
      match body[0] case Enqueue(b, _) => Size(b) case Poke => 0 case Invoke(b, _, _) => Size(b)
  }

  function Work(ms: seq<Micro>): nat {
    if ms == [] then 0 else 1 + Size(ms[0].body) + Work(ms[1..])
  }

  lemma {:induction false} WorkConcat(a: seq<Micro>, b: seq<Micro>)
    ensures Work(a + b) == Work(a) + Work(b)
  {
    if a == [] {
      assert a + b == b;
    } else {
      WorkConcat(a[1..], b);
      assert (a + b)[1..] == a[1..] + b;
    }
  }

  lemma NumberSplit(a: seq<Act>, b: seq<Act>, id: nat)
    requires forall i :: 0 <= i < |a| ==> a[i].Enqueue?
    requires forall i :: 0 <= i < |b| ==> b[i].Enqueue?
    ensures Number(a + b, id) == Number(a, id) + Number(b, id + |a|)
  {
  }

  lemma NumberConcat(q: seq<Micro>, a: seq<Act>, b: seq<Act>, id: nat)
    requires forall i :: 0 <= i < |a| ==> a[i].Enqueue?
    requires forall i :: 0 <= i < |b| ==> b[i].Enqueue?
    ensures (q + Number(a, id)) + Number(b, id + |a|) == q + Number(a + b, id)
  {
    NumberSplit(a, b, id);
  }

  /** A callback leaves less work than it was. */
  lemma {:induction false} SpawnedWork(body: seq<Act>, id: nat)
    ensures Work(Number(Spawns(body).0, id)) <= Size(body)
    decreases body
  {
    if body != [] {
      match body[0]
      case Enqueue(b, throws) =>
        var rest := Spawns(body[1..]).0;
        SpawnedWork(body[1..], id + 1);
        assert Number([body[0]] + rest, id)[1..] == Number(rest, id + 1);
      case Poke => SpawnedWork(body[1..], id);
      case Invoke(inner, throws, caught) =>
        var spawned, rest := Spawns(inner).0, Spawns(body[1..]).0;
        SpawnedWork(inner, id);
        SpawnedWork(body[1..], id + |spawned|);
        NumberSplit(spawned, rest, id);
        WorkConcat(Number(spawned, id), Number(rest, id + |spawned|));
    }
  }

  /** All that the microtasks of a batch enqueue, in order. */
  function SpawnAll(ms: seq<Micro>): (spawned: seq<Act>)
    ensures forall i :: 0 <= i < |spawned| ==> spawned[i].Enqueue?
  {
    if ms == [] then [] else SpawnAll(ms[..|ms| - 1]) + Spawns(ms[|ms| - 1].body).0
  }

  lemma {:induction false} BatchWork(ms: seq<Micro>, id: nat)
    ensures Work(Number(SpawnAll(ms), id)) + |ms| <= Work(ms)
  {
    if ms != [] {
      var front, last := ms[..|ms| - 1], ms[|ms| - 1];
      BatchWork(front, id);
      var a, b := SpawnAll(front), Spawns(last.body).0;
      var na, nb := Number(a, id), Number(b, id + |a|);
      NumberSplit(a, b, id);
      assert Number(SpawnAll(ms), id) == na + nb;
      WorkConcat(na, nb);
      SpawnedWork(last.body, id + |a|);
      LastWork(ms);
    }
  }

  lemma LastWork(ms: seq<Micro>)
    requires ms != []
    ensures Work(ms) == Work(ms[..|ms| - 1]) + 1 + Size(ms[|ms| - 1].body)
  {
    var last := ms[|ms| - 1];
    WorkConcat(ms[..|ms| - 1], [last]);
    assert ms[..|ms| - 1] + [last] == ms;
    assert [last][1..] == [];
  }

  /** The number of microtasks ever enqueued once the queue has been run until it stays empty. */
  function Enqueued(ms: seq<Micro>, next: nat): nat
    decreases Work(ms)
  {
    if ms == [] then next
    else
      BatchWork(ms, next);
      Enqueued(Number(SpawnAll(ms), next), next + |SpawnAll(ms)|)
  }

  lemma EnqueuedStep(ms: seq<Micro>, next: nat)
    requires ms != []
    ensures var ms' := Number(SpawnAll(ms), next);
            Enqueued(ms, next) == Enqueued(ms', next + |SpawnAll(ms)|) && Work(ms') < Work(ms)
  {
    BatchWork(ms, next);
  }

  /** Ids run on from what was enqueued before. */
  lemma IdsContinue(done: seq<nat>, ms: seq<Micro>, spawned: seq<Act>, id: nat)
    requires forall i :: 0 <= i < |spawned| ==> spawned[i].Enqueue?
    requires done + Ids(ms) == Iota(id)
    ensures done + Ids(ms + Number(spawned, id)) == Iota(id + |spawned|)
  {
    var more := Number(spawned, id);
    assert Ids(ms + more) == Ids(ms) + Ids(more);
    assert Iota(id + |spawned|) == Iota(id) + Ids(more);
  }

  /** Where a batch stands: the microtasks `done` have run since the log and the numbering were
      log0 and next0, and what they enqueued is the queue. */
  ghost predicate BatchRun(done: seq<Micro>, log0: seq<nat>, next0: nat, log: seq<nat>, queue: seq<Micro>, next: nat) {
    && log == log0 + Ids(done)
    && queue == Number(SpawnAll(done), next0)
    && next == next0 + |SpawnAll(done)|
  }

  lemma BatchStarts(log: seq<nat>, next: nat)
    ensures BatchRun([], log, next, log, [], next)
  {
    assert log + Ids([]) == log;
  }

  lemma IdsOfNone(log: seq<nat>, t: seq<Micro>)
    ensures log + Ids([]) + Ids(t) == log + Ids(t) + Ids([])
  {
  }

  lemma BatchContinues(t: seq<Micro>, n: nat, log0: seq<nat>, next0: nat, log: seq<nat>, queue: seq<Micro>, next: nat)
    requires n < |t| && BatchRun(t[..n], log0, next0, log, queue, next)
    ensures var spawned := Spawns(t[n].body).0;
            BatchRun(t[..n + 1], log0, next0, log + [t[n].id], queue + Number(spawned, next), next + |spawned|)
  {
    hide Spawns;
    assert t[..n + 1] == t[..n] + [t[n]] && t[..n + 1][..n] == t[..n];
    assert Ids(t[..n + 1]) == Ids(t[..n]) + [t[n].id];
    NumberSplit(SpawnAll(t[..n]), Spawns(t[n].body).0, next0);
  }

  lemma BatchEnds(done: seq<Micro>, log0: seq<nat>, next0: nat, log: seq<nat>, queue: seq<Micro>, next: nat)
    requires BatchRun(done, log0, next0, log, queue, next)
    ensures log == log0 + Ids(done)
    ensures queue == Number(SpawnAll(done), next0) && next == next0 + |SpawnAll(done)|
  {
  }

  class Queue {
    var depth: nat            // `j`: task invocations on the stack
    var queue: seq<Micro>     // `f`
    var draining: bool        // `d`
    var native: nat           // native drains requested and not yet run
    var next: nat             // microtasks enqueued so far; numbers them
    ghost var log: seq<nat>   // ids of the microtasks that have been started
    ghost var batch: seq<Micro>  // the rest of the batch being run
    ghost var loops: nat      // drain loops on the stack

    /** Started, in the current batch, or queued: every microtask enqueued so far, once, in order.
        At most one drain loop runs, and a queue that waits always has someone to drain it. */
    ghost predicate Valid()
      reads this
    {
      Ordered() && (queue != [] ==> draining || depth > 0 || native > 0)
    }

    ghost predicate Ordered()
      reads this
    {
      && log + Ids(batch) + Ids(queue) == Iota(next)
      && loops == (if draining then 1 else 0)
      && (batch != [] ==> draining)
    }

    constructor ()
      ensures Valid() && depth == 0 && queue == [] && !draining && log == [] && next == 0
    {
      depth, queue, draining, native := 0, [], false, 0;
      log, batch, next, loops := [], [], 0, 0;
    }

    /** `g`: request a native drain when nothing else will drain, then enqueue. */
    method Schedule(body: seq<Act>, throws: bool)
      requires Valid()
      modifies `queue, `native, `next
      ensures Valid() && queue == old(queue) + [Micro(old(next), body, throws)] && next == old(next) + 1
      ensures native >= old(native) && (depth > 0 ==> native == old(native))
    {
      RequestDrain();
      IdsContinue(log + Ids(batch), queue, [Enqueue(body, throws)], next);
      assert Number([Enqueue(body, throws)], next) == [Micro(next, body, throws)];
      queue := queue + [Micro(next, body, throws)];
      next := next + 1;
    }

    method RequestDrain()
      requires Valid()
      modifies `native
      ensures Valid() && native == old(native) + (if depth == 0 && queue == [] then 1 else 0)
    {
      if depth == 0 && queue == [] {
        native := native + 1;
      }
    }

    /** A callback that runs under an invocation or a drain only enqueues: nothing is started. */
    method Perform(body: seq<Act>) returns (threw: bool)
      requires Valid() && (depth > 0 || draining)
      modifies `depth, `queue, `native, `next, `draining, `loops, `log, `batch
      ensures Valid() && depth == old(depth) && draining == old(draining) && loops == old(loops)
      ensures log == old(log) && batch == old(batch)
      ensures queue == old(queue) + Number(Spawns(body).0, old(next)) && next == old(next) + |Spawns(body).0|
      ensures threw == Spawns(body).1
      decreases 0, Size(body), 0
    {
      hide Ids, Iota, Work;
      if body == [] { return false; }
      ghost var rest := Spawns(body[1..]).0;
      match body[0]
      case Enqueue(b, throws) =>
        NumberConcat(queue, [body[0]], rest, next);
        assert Number([body[0]], next) == [Micro(next, b, throws)];
        Schedule(b, throws);
        threw := Perform(body[1..]);
      case Poke =>
        RequestDrain();
        threw := Perform(body[1..]);
      case Invoke(inner, throws, caught) =>
        NumberConcat(queue, Spawns(inner).0, rest, next);
        threw := InvokeNested(inner, throws);
        if threw && !caught { return; }
        threw := Perform(body[1..]);
    }

    /** `ZoneTask.invokeTask` below another invocation or inside a drain. */
    method InvokeNested(body: seq<Act>, throws: bool) returns (threw: bool)
      requires Valid() && (depth > 0 || draining)
      modifies `depth, `queue, `native, `next, `draining, `loops, `log, `batch
      ensures Valid() && depth == old(depth) && draining == old(draining) && loops == old(loops)
      ensures log == old(log) && batch == old(batch)
      ensures queue == old(queue) + Number(Spawns(body).0, old(next)) && next == old(next) + |Spawns(body).0|
      ensures threw == (Spawns(body).1 || throws)
      decreases 0, Size(body), 1
    {
      depth := depth + 1;
      threw := Perform(body);
      threw := threw || throws;
      if depth == 1 { Drain(); }
      depth := depth - 1;
    }

    /** `_`: run the queue, batch by batch, until it stays empty; a no-op inside a drain. */
    method Drain()
      requires Ordered()
      modifies `queue, `native, `next, `draining, `loops, `log, `batch, `depth
      ensures Valid() && depth == old(depth) && draining == old(draining)
      ensures if old(draining) then queue == old(queue) && log == old(log) && batch == old(batch) && next == old(next)
              else queue == [] && log == Iota(next) && next == Enqueued(old(queue), old(next))
      decreases if draining then 0 else 2, 0, 0
    {
      hide Spawns, Number, SpawnAll, Iota, Size, Work;
      if draining { return; }
      ghost var total := Enqueued(queue, next);
      draining, loops := true, loops + 1;
      while queue != []
        invariant Valid() && depth == old(depth) && draining && batch == []
        invariant Enqueued(queue, next) == total
        decreases Work(queue)
      {
        EnqueuedStep(queue, next);
        RunBatch();
      }
      assert log + Ids([]) + Ids([]) == log;
      draining, loops := false, loops - 1;
    }

    /** One batch: the queue as it stands; what its microtasks enqueue waits for the next. */
    method RunBatch()
      requires Valid() && draining && batch == [] && queue != []
      modifies `queue, `native, `next, `log, `batch, `depth, `draining, `loops
      ensures Valid() && draining && batch == [] && depth == old(depth)
      ensures log == old(log) + Ids(old(queue))
      ensures queue == Number(SpawnAll(old(queue)), old(next)) && next == old(next) + |SpawnAll(old(queue))|
      decreases 1, 0, 1
    {
      hide Work, Spawns, Iota, Enqueued, Size, Number, SpawnAll, Ids, BatchRun;
      var t := queue;
      BatchStarts(log, next);
      IdsOfNone(log, t);
      queue, batch := [], t;
      assert t[..0] == [];
      for n := 0 to |t|
        invariant Valid() && draining && depth == old(depth)
        invariant batch == t[n..] && BatchRun(t[..n], old(log), old(next), log, queue, next)
      {
        BatchContinues(t, n, old(log), old(next), log, queue, next);
        RunMicro(t[n]);
      }
      assert t[..|t|] == t;
      BatchEnds(t, old(log), old(next), log, queue, next);
    }

    /** One microtask of the batch; an exception is reported to onUnhandledError and goes no further. */
    method RunMicro(o: Micro)
      requires Valid() && draining && batch != [] && batch[0] == o
      modifies `queue, `native, `next, `log, `batch, `depth, `draining, `loops
      ensures Valid() && draining && depth == old(depth)
      ensures batch == old(batch)[1..] && log == old(log) + [o.id]
      ensures queue == old(queue) + Number(Spawns(o.body).0, old(next)) && next == old(next) + |Spawns(o.body).0|
      decreases 1, 0, 0
    {
      ghost var rest := batch[1..];
      assert Ids(batch) == [o.id] + Ids(rest);
      assert log + Ids(batch) + Ids(queue) == (log + [o.id]) + Ids(rest) + Ids(queue);
      log, batch := log + [o.id], rest;
      var _ := Perform(o.body);
    }

    /** `ZoneTask.invokeTask` from outside any invocation and any drain: when it returns, also by an
        exception, every microtask enqueued so far has been run. */
    method InvokeOutermost(body: seq<Act>, throws: bool) returns (threw: bool)
      requires Valid() && depth == 0 && !draining
      modifies this
      ensures Valid() && depth == 0 && !draining
      ensures queue == [] && log == Iota(next)
      ensures var spawned := Spawns(body).0;
              next == Enqueued(old(queue) + Number(spawned, old(next)), old(next) + |spawned|)
      ensures threw == (Spawns(body).1 || throws)
    {
      hide Ids, Work, Size, Spawns, Enqueued;
      depth := depth + 1;
      threw := Perform(body);
      threw := threw || throws;
      if depth == 1 { Drain(); }
      depth := depth - 1;
    }

    /** The native microtask requested by `g` fires. */
    method NativeDrain()
      requires Valid() && depth == 0 && !draining && native > 0
      modifies this
      ensures Valid() && depth == 0 && !draining
      ensures queue == [] && log == Iota(next) && next == Enqueued(old(queue), old(next))
    {
      native := native - 1;
      Drain();
    }
  }
}
