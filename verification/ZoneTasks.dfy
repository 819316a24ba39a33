/** Task accounting and zone frames of zone.js (module `pDpN`): the task state machine, the task
    counts each zone delegate keeps per task type, and the current zone and task around callbacks.

    A callback is given as the finite list of task operations it performs, so that every nesting
    of callbacks is covered. */
module TaskCounts {
  import opened Common

  type TaskId = nat
  type DelegateId = nat
  type ZoneId = nat

  datatype TaskType = MicroTask | MacroTask | EventTask
  datatype TaskState = NotScheduled | Scheduling | Scheduled | Running | Canceling | Unknown

  /** `delegates` lists the delegates that were told of the task (`_zoneDelegates`). */
  datatype Task = Task(kind: TaskType, periodic: bool, zone: Option<ZoneId>, state: TaskState,
                       runCount: nat, delegates: Option<seq<DelegateId>>)

  /** One count of a delegate, with the hasTask notifications it has sent for that type:
      true for "now non-empty", false for "now empty". */
  datatype Tally = Tally(count: int, notices: seq<bool>)

  datatype Delegate = Delegate(micro: Tally, macro: Tally, event: Tally) {
    function Get(kind: TaskType): Tally {
      match kind case MicroTask => micro case MacroTask => macro case EventTask => event
    }

    function Set(kind: TaskType, tally: Tally): Delegate {
      match kind
      case MicroTask => this.(micro := tally)
      case MacroTask => this.(macro := tally)
      case EventTask => this.(event := tally)
    }
  }

  /** `_updateTaskCount` of a delegate: hasTask is notified when the count leaves or reaches 0. */
  function Bump(t: Tally, delta: int): Tally {
    var next := t.count + delta;
    Tally(next, if t.count == 0 || next == 0 then t.notices + [next > 0] else t.notices)
  }

  /** Notifications alternate, beginning with non-empty; the last one tells the present state. */
  ghost predicate Alternates(t: Tally) {
    && t.count >= 0
    && (forall i :: 0 <= i < |t.notices| ==> t.notices[i] == (i % 2 == 0))
    && (t.count > 0 <==> |t.notices| % 2 == 1)
  }

  lemma BumpAlternates(t: Tally, delta: int)
    requires Alternates(t) && (delta == 1 || delta == -1) && t.count + delta >= 0
    ensures Alternates(Bump(t, delta))
  {
  }

  type Tasks = map<TaskId, Task>
  type Delegates = map<DelegateId, Delegate>

  function BumpOne(ds: Delegates, d: DelegateId, kind: TaskType, delta: int): Delegates
    requires d in ds
  {
    ds[d := ds[d].Set(kind, Bump(ds[d].Get(kind), delta))]
  }

  /** The tasks that hold a count of the given type at a delegate. */
  ghost function HoldersAt(tasks: Tasks, holders: set<TaskId>, d: DelegateId, kind: TaskType): set<TaskId> {
    set t | t in holders && t in tasks && tasks[t].kind == kind
            && tasks[t].delegates.Some? && d in tasks[t].delegates.value
  }

  /** Accounting of one delegate and type. */
  ghost predicate Exact(tasks: Tasks, holders: set<TaskId>, ds: Delegates, d: DelegateId, kind: TaskType)
    requires d in ds
  {
    && ds[d].Get(kind).count == |HoldersAt(tasks, holders, d, kind)|
    && Alternates(ds[d].Get(kind))
  }

  ghost predicate AllExact(tasks: Tasks, holders: set<TaskId>, ds: Delegates) {
    forall d, kind :: d in ds ==> Exact(tasks, holders, ds, d, kind)
  }

  predicate OneShot(task: Task) {
    !task.kind.EventTask? && !task.periodic
  }

  /** What a task's state says about its delegates and its count. A one-shot task gives its count back
      when a run from within its own callback ends; it may be left without one, running, scheduled, or
      halfway through a cancellation that has thrown. */
  ghost predicate TaskOk(task: Task, holds: bool, ds: Delegates) {
    && (task.state.NotScheduled? || task.state.Canceling? ==> task.delegates.None?)
    && (task.state.Scheduled? || task.state.Running? ==>
          (holds <==> task.delegates.Some?) && (OneShot(task) || holds))
    && !task.state.Scheduling? && (task.state.Canceling? ==> OneShot(task))
    && (holds ==> task.delegates.Some?)
    && (task.delegates.Some? ==>
          Distinct(task.delegates.value) && forall d :: d in task.delegates.value ==> d in ds)
  }

  ghost predicate Consistent(tasks: Tasks, holders: set<TaskId>, ds: Delegates) {
    && holders <= tasks.Keys
    && (forall t :: t in tasks ==> TaskOk(tasks[t], t in holders, ds))
    && AllExact(tasks, holders, ds)
  }

  // ---------------------------------------------------------------- counting lemmas

  /** Counting one delegate down or up by the task t. */
  ghost predicate Counted(ds: Delegates, ds': Delegates, list: seq<DelegateId>, kind: TaskType, delta: int) {
    && ds'.Keys == ds.Keys
    && forall d :: d in ds ==>
         ds'[d] == if d in list then ds[d].Set(kind, Bump(ds[d].Get(kind), delta)) else ds[d]
  }

  /** The count of one type has moved; those of the other types have not. */
  predicate CountsMoved(a: Delegate, b: Delegate, kind: TaskType, delta: int) {
    && b.micro.count == a.micro.count + (if kind.MicroTask? then delta else 0)
    && b.macro.count == a.macro.count + (if kind.MacroTask? then delta else 0)
    && b.event.count == a.event.count + (if kind.EventTask? then delta else 0)
  }

  lemma CountedEmpty(ds: Delegates, kind: TaskType, delta: int)
    ensures Counted(ds, ds, [], kind, delta)
  {
  }

  lemma CountedStep(ds: Delegates, ds': Delegates, list: seq<DelegateId>, d: DelegateId, kind: TaskType, delta: int)
    requires Counted(ds, ds', list, kind, delta) && d in ds && d !in list
    ensures d in ds' && Counted(ds, BumpOne(ds', d, kind, delta), list + [d], kind, delta)
  {
  }

  /** A task that takes its counts: every listed delegate's count of its type rises by one. */
  lemma TakeCounts(tasks: Tasks, holders: set<TaskId>, ds: Delegates, ds': Delegates, t: TaskId, task: Task)
    requires AllExact(tasks, holders, ds) && t in tasks && t !in holders && task.delegates.Some?
    requires Counted(ds, ds', task.delegates.value, task.kind, 1)
    ensures AllExact(tasks[t := task], holders + {t}, ds')
  {
    hide HoldersAt, Alternates, Bump;
    var tasks', holders' := tasks[t := task], holders + {t};
    forall d, kind | d in ds' ensures Exact(tasks', holders', ds', d, kind) {
      assert Exact(tasks, holders, ds, d, kind);
      TakenAt(tasks, holders, t, task, d, kind);
      if d in task.delegates.value && kind == task.kind {
        BumpAlternates(ds[d].Get(kind), 1);
        BumpCounts(ds[d].Get(kind), 1);
      }
    }
  }

  lemma BumpCounts(t: Tally, delta: int)
    ensures Bump(t, delta).count == t.count + delta
  {
  }

  predicate Announced(task: Task, d: DelegateId, kind: TaskType) {
    task.kind == kind && task.delegates.Some? && d in task.delegates.value
  }

  lemma HoldersExactly(tasks: Tasks, holders: set<TaskId>, d: DelegateId, kind: TaskType)
    ensures forall t :: t in HoldersAt(tasks, holders, d, kind) <==>
                        t in holders && t in tasks && Announced(tasks[t], d, kind)
  {
  }

  lemma OneMore(s: set<TaskId>, t: TaskId)
    requires t !in s
    ensures |s + {t}| == |s| + 1
  {
  }

  lemma TakenAt(tasks: Tasks, holders: set<TaskId>, t: TaskId, task: Task, d: DelegateId, kind: TaskType)
    requires t !in holders && task.delegates.Some?
    ensures |HoldersAt(tasks[t := task], holders + {t}, d, kind)|
            == |HoldersAt(tasks, holders, d, kind)| + if d in task.delegates.value && kind == task.kind then 1 else 0
  {
    hide HoldersAt;
    var before := HoldersAt(tasks, holders, d, kind);
    HoldersExactly(tasks, holders, d, kind);
    HoldersExactly(tasks[t := task], holders + {t}, d, kind);
    if Announced(task, d, kind) {
      assert HoldersAt(tasks[t := task], holders + {t}, d, kind) == before + {t};
      OneMore(before, t);
    } else {
      assert HoldersAt(tasks[t := task], holders + {t}, d, kind) == before;
    }
  }

  lemma ReturnedAt(tasks: Tasks, holders: set<TaskId>, t: TaskId, task: Task, d: DelegateId, kind: TaskType)
    requires t in tasks && t in holders && tasks[t].delegates.Some?
    ensures |HoldersAt(tasks[t := task], holders - {t}, d, kind)|
            == |HoldersAt(tasks, holders, d, kind)|
               - if d in tasks[t].delegates.value && kind == tasks[t].kind then 1 else 0
  {
    hide HoldersAt;
    var after := HoldersAt(tasks[t := task], holders - {t}, d, kind);
    HoldersExactly(tasks, holders, d, kind);
    HoldersExactly(tasks[t := task], holders - {t}, d, kind);
    if Announced(tasks[t], d, kind) {
      assert HoldersAt(tasks, holders, d, kind) == after + {t};
      OneMore(after, t);
    } else {
      assert HoldersAt(tasks, holders, d, kind) == after;
    }
  }

  /** A task that gives its counts back; each was positive, so none falls below zero. */
  lemma ReturnCounts(tasks: Tasks, holders: set<TaskId>, ds: Delegates, ds': Delegates, t: TaskId, task: Task)
    requires AllExact(tasks, holders, ds) && t in tasks && t in holders && tasks[t].delegates.Some?
    requires Counted(ds, ds', tasks[t].delegates.value, tasks[t].kind, -1)
    ensures AllExact(tasks[t := task], holders - {t}, ds')
  {
    hide HoldersAt, Alternates, Bump;
    var tasks', holders' := tasks[t := task], holders - {t};
    forall d, kind | d in ds' ensures Exact(tasks', holders', ds', d, kind) {
      assert Exact(tasks, holders, ds, d, kind);
      ReturnedAt(tasks, holders, t, task, d, kind);
      if d in tasks[t].delegates.value && kind == tasks[t].kind {
        BumpAlternates(ds[d].Get(kind), -1);
        BumpCounts(ds[d].Get(kind), -1);
      }
    }
  }

  lemma HolderIsCounted(tasks: Tasks, holders: set<TaskId>, ds: Delegates, t: TaskId, d: DelegateId)
    requires AllExact(tasks, holders, ds) && t in tasks && t in holders
    requires tasks[t].delegates.Some? && d in tasks[t].delegates.value && d in ds
    ensures ds[d].Get(tasks[t].kind).count > 0
  {
    assert Exact(tasks, holders, ds, d, tasks[t].kind);
    assert t in HoldersAt(tasks, holders, d, tasks[t].kind);
  }

  /** A change of a task's record that keeps its type and its delegates keeps the accounting. */
  lemma SameCounts(tasks: Tasks, holders: set<TaskId>, ds: Delegates, t: TaskId, task: Task)
    requires AllExact(tasks, holders, ds) && t in tasks
    requires t in holders ==> task.kind == tasks[t].kind && task.delegates == tasks[t].delegates
    ensures AllExact(tasks[t := task], holders, ds)
  {
    var tasks' := tasks[t := task];
    forall d, kind | d in ds ensures Exact(tasks', holders, ds, d, kind) {
      assert Exact(tasks, holders, ds, d, kind);
      assert HoldersAt(tasks[t := task], holders, d, kind) == HoldersAt(tasks, holders, d, kind);
    }
  }
}

/** What the accounting means for an observer. */
module TaskCountsMeaning {
  import opened TaskCounts

  /** The tasks of a type that are scheduled or running and were announced to a delegate. */
  ghost function Pending(tasks: Tasks, d: DelegateId, kind: TaskType): set<TaskId> {
    set t | t in tasks && (tasks[t].state.Scheduled? || tasks[t].state.Running?) && tasks[t].kind == kind
            && tasks[t].delegates.Some? && d in tasks[t].delegates.value
  }

  /** The tasks a failed cancellation (or schedule) has left behind. */
  ghost function Lost(tasks: Tasks, d: DelegateId, kind: TaskType): set<TaskId> {
    set t | t in tasks && tasks[t].state.Unknown? && tasks[t].kind == kind
            && tasks[t].delegates.Some? && d in tasks[t].delegates.value
  }

  /** A count is the number of pending tasks, plus the lost tasks that kept theirs; it is exactly
      the number of pending tasks when none has been lost. */
  lemma CountIsPending(tasks: Tasks, holders: set<TaskId>, ds: Delegates, d: DelegateId, kind: TaskType)
    requires Consistent(tasks, holders, ds) && d in ds
    ensures ds[d].Get(kind).count == |Pending(tasks, d, kind)| + |Lost(tasks, d, kind) * holders|
    ensures Lost(tasks, d, kind) == {} ==> ds[d].Get(kind).count == |Pending(tasks, d, kind)|
  {
    assert Exact(tasks, holders, ds, d, kind);
    PendingOrLost(tasks, holders, ds, d, kind);
    var pending, lost := Pending(tasks, d, kind), Lost(tasks, d, kind) * holders;
    assert pending !! lost;
    assert |pending + lost| == |pending| + |lost|;
  }

  lemma PendingOrLost(tasks: Tasks, holders: set<TaskId>, ds: Delegates, d: DelegateId, kind: TaskType)
    requires holders <= tasks.Keys && forall t :: t in tasks ==> TaskOk(tasks[t], t in holders, ds)
    ensures HoldersAt(tasks, holders, d, kind) == Pending(tasks, d, kind) + Lost(tasks, d, kind) * holders
  {
  }

  /** The last hasTask notification tells whether anything of the type is counted. */
  lemma LastNoticeIsCurrent(t: Tally)
    requires Alternates(t) && t.notices != []
    ensures t.notices[|t.notices| - 1] == (t.count > 0)
  {
  }
}

module ZoneTasks {
  import opened Common
  import opened TaskCounts

  /** How the scheduling hooks end: the delegates they told, an exception, or a withdrawn request. */
  datatype ScheduleOutcome = Accepted(delegates: seq<DelegateId>) | Throws(delegates: seq<DelegateId>) | Withdrawn

  /** What a callback does. `throws` says that it throws after its operations, `swallow` that the
      error hook reports the error as handled. `Try` catches what the operation throws. */
  datatype Action =
    | Schedule(zone: ZoneId, task: TaskId, outcome: ScheduleOutcome)
    | Cancel(zone: ZoneId, task: TaskId, succeeds: bool)
    | RunTask(zone: ZoneId, task: TaskId, body: seq<Action>, throws: bool, swallow: bool)
    | Run(zone: ZoneId, body: seq<Action>, throws: bool)
    | RunGuarded(zone: ZoneId, body: seq<Action>, throws: bool, swallow: bool)
    | Try(action: Action)

  type Ancestors = ZoneId -> set<ZoneId>

  // ---------------------------------------------------------------- what becomes of one task

  /** `scheduleTask` refuses a task that was created in an ancestor of the zone. */
  predicate Refused(ancestors: Ancestors, zone: ZoneId, e: Task) {
    e.zone.Some? && e.zone.value != zone && e.zone.value in ancestors(zone)
  }

  /** `scheduleTask`: the task afterwards, and whether the call throws. */
  function Requested(ancestors: Ancestors, zone: ZoneId, e: Task, outcome: ScheduleOutcome): (Task, bool) {
    if Refused(ancestors, zone, e) || !e.state.NotScheduled? then (e, true)
    else
      match outcome
      case Withdrawn => (e.(zone := Some(zone), delegates := None), false)
      case Throws(told) => (e.(zone := Some(zone), state := Unknown, delegates := Some(told)), true)
      case Accepted(told) => (e.(zone := Some(zone), state := Scheduled, delegates := Some(told)), false)
  }

  /** `runTask` calls back for a scheduled task of the zone, or from within a run of the task;
      `cancelTask` cancels the same ones. */
  predicate Active(zone: ZoneId, e: Task) {
    e.zone == Some(zone) && (e.state.Scheduled? || e.state.Running?)
  }

  /** `cancelTask`; without delegates it throws on the way, and the task stays as it is then. */
  function CancelledBy(zone: ZoneId, e: Task, succeeds: bool): (Task, bool) {
    if !Active(zone, e) then (e, true)
    else if !succeeds then (e.(state := Unknown), true)
    else if e.delegates.None? then (e.(state := Canceling), true)
    else (e.(state := NotScheduled, runCount := 0, delegates := None), false)
  }

  function Entered(e: Task): Task {
    e.(state := Running, runCount := e.runCount + 1)
  }

  /** The `finally` block of `runTask`; false when it throws, because its transition is refused or the
      delegates are gone. That skips the rest of the block: the frame and the current task are not
      restored. */
  function Finished(e: Task, outer: bool): (Task, bool) {
    if e.state.NotScheduled? || e.state.Unknown? then (e, true)
    else if !OneShot(e) then
      if !outer then (e, true) else if e.state.Running? then (e.(state := Scheduled), true) else (e, false)
    else if e.delegates.None? then (e.(runCount := 0), false)
    else
      var e' := e.(runCount := 0, delegates := None);
      if !outer then (e', true) else if e.state.Running? then (e'.(state := NotScheduled), true) else (e', false)
  }

  // ---------------------------------------------------------------- what a callback does to the tasks

  /** The tasks afterwards, whether an exception gets out, and the number of runs whose `finally`
      block has thrown. */
  datatype Effect = Effect(tasks: Tasks, threw: bool, unfinished: nat)

  function EffectOf(ancestors: Ancestors, tasks: Tasks, a: Action): (r: Effect)
    ensures r.tasks.Keys == tasks.Keys
    decreases a
  {
    match a
    case Schedule(zone, t, outcome) =>
      if t !in tasks then Effect(tasks, false, 0)
      else
        var (e, threw) := Requested(ancestors, zone, tasks[t], outcome);
        Effect(tasks[t := e], threw, 0)
    case Cancel(zone, t, succeeds) =>
      if t !in tasks then Effect(tasks, false, 0)
      else
        var (e, threw) := CancelledBy(zone, tasks[t], succeeds);
        Effect(tasks[t := e], threw, 0)
    case RunTask(zone, t, body, throws, swallow) =>
      if t !in tasks then Effect(tasks, false, 0)
      else if !Active(zone, tasks[t]) then NotRun(tasks, zone, t)
      else
        var r := EffectOfAll(ancestors, tasks[t := Entered(tasks[t])], body);
        RunEnds(r, t, tasks[t].state.Scheduled?, throws, swallow)
    case Run(_, body, throws) =>
      var r := EffectOfAll(ancestors, tasks, body);
      r.(threw := r.threw || throws)
    case RunGuarded(_, body, throws, swallow) =>
      var r := EffectOfAll(ancestors, tasks, body);
      r.(threw := (r.threw || throws) && !swallow)
    case Try(action) => EffectOf(ancestors, tasks, action).(threw := false)
  }

  /** A callback: its operations in order, up to the first exception. */
  function EffectOfAll(ancestors: Ancestors, tasks: Tasks, body: seq<Action>): (r: Effect)
    ensures r.tasks.Keys == tasks.Keys
    decreases body
  {
    if body == [] then Effect(tasks, false, 0)
    else
      var first := EffectOf(ancestors, tasks, body[0]);
      if first.threw then first
      else
        var rest := EffectOfAll(ancestors, first.tasks, body[1..]);
        rest.(unfinished := first.unfinished + rest.unfinished)
  }

  /** `runTask` ignores a macrotask or event task that is not scheduled, and refuses the others. */
  function NotRun(tasks: Tasks, zone: ZoneId, t: TaskId): Effect
    requires t in tasks
  {
    Effect(tasks, !(tasks[t].zone == Some(zone) && tasks[t].state.NotScheduled? && !tasks[t].kind.MicroTask?), 0)
  }

  /** The end of `runTask` after the callback. */
  function RunEnds(r: Effect, t: TaskId, outer: bool, throws: bool, swallow: bool): Effect
    requires t in r.tasks
  {
    var (e, ok) := Finished(r.tasks[t], outer);
    Effect(r.tasks[t := e], !ok || ((r.threw || throws) && !swallow), r.unfinished + if ok then 0 else 1)
  }

  lemma RunEffect(ancestors: Ancestors, tasks: Tasks, zone: ZoneId, t: TaskId, body: seq<Action>, throws: bool,
                  swallow: bool)
    requires t in tasks
    ensures EffectOf(ancestors, tasks, RunTask(zone, t, body, throws, swallow)) ==
            if !Active(zone, tasks[t]) then NotRun(tasks, zone, t)
            else
              var r := EffectOfAll(ancestors, tasks[t := Entered(tasks[t])], body);
              RunEnds(r, t, tasks[t].state.Scheduled?, throws, swallow)
  {
  }

  lemma NoSuchTask(ancestors: Ancestors, tasks: Tasks, zone: ZoneId, t: TaskId, body: seq<Action>, throws: bool,
                   swallow: bool)
    requires t !in tasks
    ensures EffectOf(ancestors, tasks, RunTask(zone, t, body, throws, swallow)) == Effect(tasks, false, 0)
  {
  }

  lemma UnfoldRunEnds(r: Effect, t: TaskId, outer: bool, throws: bool, swallow: bool)
    requires t in r.tasks
    ensures var (e, ok) := Finished(r.tasks[t], outer);
            RunEnds(r, t, outer, throws, swallow)
            == Effect(r.tasks[t := e], !ok || ((r.threw || throws) && !swallow), r.unfinished + if ok then 0 else 1)
  {
  }

  // ---------------------------------------------------------------- exceptions, one instruction at a time

  /** The same callbacks without nesting: what is left to do, in order. `Handle` is a `catch`, which
      may keep the exception; `Finally` is the `finally` block of `runTask`. */
  datatype Instruction =
    | Do(action: Action)
    | Raise
    | Handle(swallow: bool)
    | Finally(task: TaskId, outer: bool)

  /** `raised` says that an exception is on its way; `unfinished` counts the `finally` blocks that threw. */
  datatype Machine = Machine(tasks: Tasks, raised: bool, unfinished: nat)

  function Size(a: Action): nat
    decreases a
  {
    match a
    case Schedule(_, _, _) => 1
    case Cancel(_, _, _) => 1
    case RunTask(_, _, body, _, _) => 4 + SizeOfAll(body)
    case Run(_, body, _) => 2 + SizeOfAll(body)
    case RunGuarded(_, body, _, _) => 3 + SizeOfAll(body)
    case Try(action) => 2 + Size(action)
  }

  function SizeOfAll(body: seq<Action>): nat
    decreases body
  {
    if body == [] then 0 else Size(body[0]) + SizeOfAll(body[1..])
  }

  function Left(code: seq<Instruction>): nat {
    if code == [] then 0 else (if code[0].Do? then Size(code[0].action) else 1) + Left(code[1..])
  }

  function Dos(body: seq<Action>): seq<Instruction> {
    if body == [] then [] else [Do(body[0])] + Dos(body[1..])
  }

  /** A callback: its operations, and at last the exception it throws. */
  function Todo(body: seq<Action>, throws: bool): seq<Instruction> {
    Dos(body) + if throws then [Raise] else []
  }

  lemma {:induction false} LeftConcat(a: seq<Instruction>, b: seq<Instruction>)
    ensures Left(a + b) == Left(a) + Left(b)
  {
    if a == [] {
      assert a + b == b;
    } else {
      LeftConcat(a[1..], b);
      assert (a + b)[1..] == a[1..] + b;
    }
  }

  lemma {:induction false} LeftTodo(body: seq<Action>, throws: bool, rest: seq<Instruction>)
    ensures Left(Todo(body, throws) + rest) <= SizeOfAll(body) + 1 + Left(rest)
  {
    LeftDos(body);
    LeftConcat(Dos(body), if throws then [Raise] else []);
    LeftConcat(Todo(body, throws), rest);
    assert Left([Raise]) == 1 by { assert [Raise][1..] == []; }
  }

  lemma {:induction false} LeftDos(body: seq<Action>)
    ensures Left(Dos(body)) == SizeOfAll(body)
  {
    if body != [] {
      LeftDos(body[1..]);
      assert Dos(body)[1..] == Dos(body[1..]);
    }
  }

  /** What an operation puts in front of what is left to do. */
  function Unfold(tasks: Tasks, a: Action, rest: seq<Instruction>): seq<Instruction> {
    match a
    case Schedule(_, _, _) => rest
    case Cancel(_, _, _) => rest
    case RunTask(zone, t, body, throws, swallow) =>
      if t in tasks && Active(zone, tasks[t])
      then Todo(body, throws) + ([Handle(swallow), Finally(t, tasks[t].state.Scheduled?)] + rest) else rest
    case Run(_, body, throws) => Todo(body, throws) + rest
    case RunGuarded(_, body, throws, swallow) => Todo(body, throws) + ([Handle(swallow)] + rest)
    case Try(action) => [Do(action), Handle(true)] + rest
  }

  lemma UnfoldIsLess(tasks: Tasks, a: Action, rest: seq<Instruction>)
    ensures Left(Unfold(tasks, a, rest)) < Size(a) + Left(rest)
  {
    match a
    case RunTask(zone, t, body, throws, swallow) =>
      if t in tasks && Active(zone, tasks[t]) {
        var after := [Handle(swallow), Finally(t, tasks[t].state.Scheduled?)];
        LeftTodo(body, throws, after + rest);
        LeftConcat(after, rest);
        assert Left(after) == 2 by { assert after[1..][1..] == []; }
      }
    case Run(_, body, throws) => LeftTodo(body, throws, rest);
    case RunGuarded(_, body, throws, swallow) =>
      LeftTodo(body, throws, [Handle(swallow)] + rest);
      LeftConcat([Handle(swallow)], rest);
      assert Left([Handle(swallow)]) == 1 by { assert [Handle(swallow)][1..] == []; }
    case Try(action) =>
      LeftConcat([Do(action), Handle(true)], rest);
      assert [Do(action), Handle(true)][1..] == [Handle(true)] && [Handle(true)][1..] == [];
    case _ =>
  }

  /** What an operation does itself: the task it is about, and its exception. */
  function Act(ancestors: Ancestors, m: Machine, a: Action): Machine {
    match a
    case Schedule(zone, t, outcome) =>
      if t !in m.tasks then m
      else
        var (e, threw) := Requested(ancestors, zone, m.tasks[t], outcome);
        m.(tasks := m.tasks[t := e], raised := threw)
    case Cancel(zone, t, succeeds) =>
      if t !in m.tasks then m
      else
        var (e, threw) := CancelledBy(zone, m.tasks[t], succeeds);
        m.(tasks := m.tasks[t := e], raised := threw)
    case RunTask(zone, t, _, _, _) =>
      if t !in m.tasks then m
      else if Active(zone, m.tasks[t]) then m.(tasks := m.tasks[t := Entered(m.tasks[t])])
      else m.(raised := m.tasks[t].zone != Some(zone) || !m.tasks[t].state.NotScheduled? || m.tasks[t].kind.MicroTask?)
    case _ => m
  }

  function FinishIn(m: Machine, t: TaskId, outer: bool): Machine
    requires t in m.tasks
  {
    var (e, ok) := Finished(m.tasks[t], outer);
    Machine(m.tasks[t := e], m.raised || !ok, m.unfinished + if ok then 0 else 1)
  }

  /** While an exception is on its way operations are passed over; only a handler stops it. */
  function Execute(ancestors: Ancestors, m: Machine, code: seq<Instruction>): Machine
    decreases Left(code)
  {
    if code == [] then m
    else
      var rest := code[1..];
      match code[0]
      case Raise => Execute(ancestors, m.(raised := true), rest)
      case Handle(swallow) => Execute(ancestors, m.(raised := m.raised && !swallow), rest)
      case Finally(t, outer) =>
        Execute(ancestors, if t in m.tasks then FinishIn(m, t, outer) else m, rest)
      case Do(a) =>
        UnfoldIsLess(m.tasks, a, rest);
        SizePositive(a);
        if m.raised then Execute(ancestors, m, rest)
        else Execute(ancestors, Act(ancestors, m, a), Unfold(m.tasks, a, rest))
  }

  lemma SizePositive(a: Action)
    ensures Size(a) > 0
  {
  }

  lemma ExecuteOne(ancestors: Ancestors, m: Machine, instruction: Instruction, rest: seq<Instruction>)
    ensures Execute(ancestors, m, [instruction] + rest) ==
            match instruction
            case Raise => Execute(ancestors, m.(raised := true), rest)
            case Handle(swallow) => Execute(ancestors, m.(raised := m.raised && !swallow), rest)
            case Finally(t, outer) => Execute(ancestors, if t in m.tasks then FinishIn(m, t, outer) else m, rest)
            case Do(a) =>
              if m.raised then Execute(ancestors, m, rest)
              else Execute(ancestors, Act(ancestors, m, a), Unfold(m.tasks, a, rest))
  {
    hide Act, Unfold, FinishIn;
    assert ([instruction] + rest)[1..] == rest;
  }

  lemma ExecuteNone(ancestors: Ancestors, m: Machine)
    ensures Execute(ancestors, m, []) == m
  {
  }

  /** An exception passes over the rest of a callback. */
  lemma {:induction false} PassedOver(ancestors: Ancestors, m: Machine, body: seq<Action>, rest: seq<Instruction>)
    requires m.raised
    ensures Execute(ancestors, m, Dos(body) + rest) == Execute(ancestors, m, rest)
    decreases |body|
  {
    hide Execute, Act, Unfold;
    if body == [] {
      assert Dos(body) + rest == rest;
    } else {
      assert Dos(body) + rest == [Do(body[0])] + (Dos(body[1..]) + rest);
      ExecuteOne(ancestors, m, Do(body[0]), Dos(body[1..]) + rest);
      PassedOver(ancestors, m, body[1..], rest);
    }
  }

  /** After an effect. */
  function After(m: Machine, r: Effect): Machine {
    Machine(r.tasks, r.threw, m.unfinished + r.unfinished)
  }

  /** The nested account of an operation agrees with its instructions. */
  lemma {:induction false} EffectIsExecution(ancestors: Ancestors, m: Machine, a: Action, rest: seq<Instruction>)
    requires !m.raised
    ensures Execute(ancestors, m, [Do(a)] + rest) ==
            Execute(ancestors, After(m, EffectOf(ancestors, m.tasks, a)), rest)
    decreases a, 0
  {
    hide Execute, Requested, CancelledBy, Finished, Todo;
    ExecuteOne(ancestors, m, Do(a), rest);
    var r := EffectOf(ancestors, m.tasks, a);
    match a
    case Schedule(_, _, _) =>
    case Cancel(_, _, _) =>
    case RunTask(zone, t, body, throws, swallow) => RunIsExecution(ancestors, m, zone, t, body, throws, swallow, rest);
    case Run(_, body, throws) => CallbackIsExecution(ancestors, m, body, throws, rest);
    case RunGuarded(_, body, throws, swallow) =>
      CallbackIsExecution(ancestors, m, body, throws, [Handle(swallow)] + rest);
      var r' := EffectOfAll(ancestors, m.tasks, body);
      ExecuteOne(ancestors, After(m, r'.(threw := r'.threw || throws)), Handle(swallow), rest);
    case Try(action) =>
      assert [Do(action), Handle(true)] + rest == [Do(action)] + ([Handle(true)] + rest);
      EffectIsExecution(ancestors, m, action, [Handle(true)] + rest);
      ExecuteOne(ancestors, After(m, EffectOf(ancestors, m.tasks, action)), Handle(true), rest);
  }

  lemma {:induction false} RunIsExecution(ancestors: Ancestors, m: Machine, zone: ZoneId, t: TaskId, body: seq<Action>,
                                          throws: bool, swallow: bool, rest: seq<Instruction>)
    requires !m.raised
    ensures var a := RunTask(zone, t, body, throws, swallow);
            Execute(ancestors, Act(ancestors, m, a), Unfold(m.tasks, a, rest)) ==
            Execute(ancestors, After(m, EffectOf(ancestors, m.tasks, a)), rest)
    decreases body, 2
  {
    hide Execute, Requested, CancelledBy, Finished, Todo, EffectOf, EffectOfAll, RunEnds;
    if t in m.tasks {
      RunEffect(ancestors, m.tasks, zone, t, body, throws, swallow);
    } else {
      NoSuchTask(ancestors, m.tasks, zone, t, body, throws, swallow);
    }
    if t in m.tasks && Active(zone, m.tasks[t]) {
      var entered := m.(tasks := m.tasks[t := Entered(m.tasks[t])]);
      var outer := m.tasks[t].state.Scheduled?;
      var after := [Handle(swallow), Finally(t, outer)] + rest;
      CallbackIsExecution(ancestors, entered, body, throws, after);
      var r := EffectOfAll(ancestors, entered.tasks, body);
      UnfoldRunEnds(r, t, outer, throws, swallow);
      var m' := After(m, r.(threw := r.threw || throws));
      assert after == [Handle(swallow)] + ([Finally(t, outer)] + rest);
      ExecuteOne(ancestors, m', Handle(swallow), [Finally(t, outer)] + rest);
      ExecuteOne(ancestors, m'.(raised := m'.raised && !swallow), Finally(t, outer), rest);
    }
  }

  lemma {:induction false} CallbackIsExecution(ancestors: Ancestors, m: Machine, body: seq<Action>, throws: bool,
                                               rest: seq<Instruction>)
    requires !m.raised
    ensures var r := EffectOfAll(ancestors, m.tasks, body);
            Execute(ancestors, m, Todo(body, throws) + rest) ==
            Execute(ancestors, After(m, r.(threw := r.threw || throws)), rest)
    decreases body, 1
  {
    hide Execute, EffectOfAll;
    var r := EffectOfAll(ancestors, m.tasks, body);
    var last := if throws then [Raise] else [];
    assert Todo(body, throws) + rest == Dos(body) + (last + rest);
    BodyIsExecution(ancestors, m, body, last + rest);
    if throws {
      ExecuteOne(ancestors, After(m, r), Raise, rest);
    } else {
      assert last + rest == rest;
    }
  }

  lemma {:induction false} BodyIsExecution(ancestors: Ancestors, m: Machine, body: seq<Action>, rest: seq<Instruction>)
    requires !m.raised
    ensures Execute(ancestors, m, Dos(body) + rest) ==
            Execute(ancestors, After(m, EffectOfAll(ancestors, m.tasks, body)), rest)
    decreases body, 0
  {
    hide Execute, EffectOf;
    if body == [] {
      assert Dos(body) + rest == rest;
    } else {
      var first := EffectOf(ancestors, m.tasks, body[0]);
      var more := Dos(body[1..]) + rest;
      assert Dos(body) + rest == [Do(body[0])] + more;
      EffectIsExecution(ancestors, m, body[0], more);
      if first.threw {
        PassedOver(ancestors, After(m, first), body[1..], rest);
      } else {
        BodyIsExecution(ancestors, After(m, first), body[1..], rest);
      }
    }
  }

  /** A callback as a whole. */
  function Executed(ancestors: Ancestors, tasks: Tasks, body: seq<Action>): Machine {
    Execute(ancestors, Machine(tasks, false, 0), Dos(body))
  }

  lemma EffectIsExecuted(ancestors: Ancestors, tasks: Tasks, body: seq<Action>)
    ensures var r := EffectOfAll(ancestors, tasks, body);
            Executed(ancestors, tasks, body) == Machine(r.tasks, r.threw, r.unfinished)
  {
    hide Execute, EffectOfAll;
    var m := Machine(tasks, false, 0);
    assert Dos(body) + [] == Dos(body);
    BodyIsExecution(ancestors, m, body, []);
    ExecuteNone(ancestors, After(m, EffectOfAll(ancestors, tasks, body)));
  }

  lemma OneAlone(ancestors: Ancestors, tasks: Tasks, a: Action)
    ensures var r := EffectOf(ancestors, tasks, a);
            Executed(ancestors, tasks, [a]) == Machine(r.tasks, r.threw, r.unfinished)
  {
    hide EffectOf, Execute;
    EffectIsExecuted(ancestors, tasks, [a]);
    var r := EffectOf(ancestors, tasks, a);
    assert [a][1..] == [];
    assert EffectOfAll(ancestors, r.tasks, []) == Effect(r.tasks, false, 0);
  }

  /** Who lets an exception out: `run` one of its callback or of an operation in it; `runGuarded` one
      that the error hook has not handled; a caught operation none. None of them changes more than
      the callback does. */
  lemma WhoThrows(ancestors: Ancestors, tasks: Tasks, zone: ZoneId, body: seq<Action>, throws: bool, swallow: bool,
                  action: Action)
    ensures var inside := Executed(ancestors, tasks, body);
            var caught := Executed(ancestors, tasks, [action]);
            && Executed(ancestors, tasks, [Run(zone, body, throws)]) == inside.(raised := inside.raised || throws)
            && Executed(ancestors, tasks, [RunGuarded(zone, body, throws, swallow)]) ==
               inside.(raised := (inside.raised || throws) && !swallow)
            && Executed(ancestors, tasks, [Try(action)]) == caught.(raised := false)
  {
    hide Execute, Executed;
    EffectIsExecuted(ancestors, tasks, body);
    OneAlone(ancestors, tasks, Run(zone, body, throws));
    OneAlone(ancestors, tasks, RunGuarded(zone, body, throws, swallow));
    OneAlone(ancestors, tasks, action);
    OneAlone(ancestors, tasks, Try(action));
  }

  /** A task that runs lets out an exception of its callback that the error hook has not handled, and
      one of its `finally` block. */
  lemma TaskThrows(ancestors: Ancestors, tasks: Tasks, zone: ZoneId, t: TaskId, body: seq<Action>, throws: bool,
                   swallow: bool)
    requires t in tasks && tasks[t].zone == Some(zone) && (tasks[t].state.Scheduled? || tasks[t].state.Running?)
    ensures var inside := Executed(ancestors, tasks[t := Entered(tasks[t])], body);
            && t in inside.tasks
            && var (e, ok) := Finished(inside.tasks[t], tasks[t].state.Scheduled?);
               Executed(ancestors, tasks, [RunTask(zone, t, body, throws, swallow)]) ==
               Machine(inside.tasks[t := e], !ok || ((inside.raised || throws) && !swallow),
                       inside.unfinished + if ok then 0 else 1)
  {
    hide Execute, Executed, Finished;
    EffectIsExecuted(ancestors, tasks[t := Entered(tasks[t])], body);
    OneAlone(ancestors, tasks, RunTask(zone, t, body, throws, swallow));
  }

  /** Operations run one after the other, and none after the first that throws has any effect. */
  lemma {:induction false} NothingAfterException(ancestors: Ancestors, tasks: Tasks, a: seq<Action>, b: seq<Action>)
    ensures var first := Executed(ancestors, tasks, a);
            var second := Executed(ancestors, first.tasks, b);
            Executed(ancestors, tasks, a + b) ==
            if first.raised then first else second.(unfinished := first.unfinished + second.unfinished)
    decreases |a|
  {
    hide Execute, Executed;
    EffectIsExecuted(ancestors, tasks, a);
    EffectIsExecuted(ancestors, EffectOfAll(ancestors, tasks, a).tasks, b);
    EffectIsExecuted(ancestors, tasks, a + b);
    EffectConcat(ancestors, tasks, a, b);
  }

  lemma {:induction false} EffectConcat(ancestors: Ancestors, tasks: Tasks, a: seq<Action>, b: seq<Action>)
    ensures var r := EffectOfAll(ancestors, tasks, a);
            var r' := EffectOfAll(ancestors, r.tasks, b);
            EffectOfAll(ancestors, tasks, a + b) ==
            if r.threw then r else r'.(unfinished := r.unfinished + r'.unfinished)
    decreases |a|
  {
    hide EffectOf;
    if a == [] {
      assert a + b == b;
    } else {
      assert (a + b)[1..] == a[1..] + b;
      EffectConcat(ancestors, EffectOf(ancestors, tasks, a[0]).tasks, a[1..], b);
    }
  }

  // ---------------------------------------------------------------- assumptions on callbacks

  /** The tasks and delegates a callback mentions exist, and the delegates told of a task are distinct. */
  ghost predicate Known(body: seq<Action>, tasks: set<TaskId>, delegates: set<DelegateId>) {
    forall i :: 0 <= i < |body| ==> KnownAction(body[i], tasks, delegates)
  }

  ghost predicate KnownList(list: seq<DelegateId>, delegates: set<DelegateId>) {
    Distinct(list) && forall d :: d in list ==> d in delegates
  }

  ghost predicate KnownAction(a: Action, tasks: set<TaskId>, delegates: set<DelegateId>) {
    match a
    case Schedule(_, task, outcome) =>
      task in tasks && (!outcome.Withdrawn? ==> KnownList(outcome.delegates, delegates))
    case Cancel(_, task, _) => task in tasks
    case RunTask(_, task, body, _, _) => task in tasks && Known(body, tasks, delegates)
    case Run(_, body, _) => Known(body, tasks, delegates)
    case RunGuarded(_, body, _, _) => Known(body, tasks, delegates)
    case Try(action) => KnownAction(action, tasks, delegates)
  }

  /** What no operation changes or undoes: tasks keep their type, `Unknown` is absorbing, and so is a
      cancellation that has thrown for want of delegates. */
  ghost predicate Follows(before: Tasks, after: Tasks) {
    && after.Keys == before.Keys
    && forall t :: t in before ==>
         && after[t].kind == before[t].kind && after[t].periodic == before[t].periodic
         && (before[t].state.Unknown? ==> after[t] == before[t])
         && (before[t].state.Canceling? ==> after[t].state.Canceling?)
  }

  lemma FollowsKeepsKeys(before: Tasks, after: Tasks)
    requires Follows(before, after)
    ensures after.Keys == before.Keys
  {
  }

  lemma FollowsTransitive(a: Tasks, b: Tasks, c: Tasks)
    requires Follows(a, b) && Follows(b, c)
    ensures Follows(a, c)
  {
  }

  /** One task changes; the others, and the counts that hold, are as they were. */
  lemma Replaced(tasks: Tasks, holders: set<TaskId>, ds: Delegates, holders': set<TaskId>, ds': Delegates,
                 t: TaskId, e: Task)
    requires Consistent(tasks, holders, ds) && t in tasks && ds'.Keys == ds.Keys
    requires AllExact(tasks[t := e], holders', ds') && TaskOk(e, t in holders', ds')
    requires holders' == holders || holders' == holders + {t} || holders' == holders - {t}
    ensures Consistent(tasks[t := e], holders', ds')
  {
  }

  lemma Stepped(tasks: Tasks, t: TaskId, e: Task)
    requires t in tasks && e.kind == tasks[t].kind && e.periodic == tasks[t].periodic
    requires tasks[t].state.Unknown? ==> e == tasks[t]
    requires tasks[t].state.Canceling? ==> e.state.Canceling?
    ensures Follows(tasks, tasks[t := e])
  {
  }

  lemma NoStep(tasks: Tasks, t: TaskId)
    requires t in tasks
    ensures tasks[t := tasks[t]] == tasks && Follows(tasks, tasks)
  {
  }

  lemma CountIsNatural(tasks: Tasks, holders: set<TaskId>, ds: Delegates, d: DelegateId, kind: TaskType)
    requires Consistent(tasks, holders, ds) && d in ds
    ensures ds[d].Get(kind).count >= 0
  {
    assert Exact(tasks, holders, ds, d, kind);
  }

  lemma ConsistentParts(tasks: Tasks, holders: set<TaskId>, ds: Delegates, t: TaskId)
    requires Consistent(tasks, holders, ds) && t in tasks
    ensures AllExact(tasks, holders, ds) && TaskOk(tasks[t], t in holders, ds)
  {
  }

  /** Zone frames and current task before and after an operation with an effect: each `finally`
      block that throws leaves one frame more, and only without any is the current task sure to be back. */
  datatype Context = Context(frames: seq<ZoneId>, current: Option<TaskId>)

  ghost predicate Kept(before: Context, after: Context, unfinished: nat) {
    && before.frames <= after.frames
    && |after.frames| == |before.frames| + unfinished
    && (unfinished == 0 ==> after.current == before.current)
  }

  lemma KeptTransitive(a: Context, b: Context, c: Context, m: nat, n: nat)
    requires Kept(a, b, m) && Kept(b, c, n)
    ensures Kept(a, c, m + n)
  {
  }

  lemma KeptAsIs(before: Context)
    ensures Kept(before, before, 0)
  {
  }

  /** Popping the innermost frame after a callback that was given one frame more. */
  lemma KeptAround(before: Context, zone: ZoneId, inside: Option<TaskId>, after: Context, unfinished: nat)
    requires Kept(Context(before.frames + [zone], inside), after, unfinished)
    ensures after.frames != []
    ensures Kept(before, Context(after.frames[..|after.frames| - 1], before.current), unfinished)
    ensures inside == before.current ==> Kept(before, after.(frames := after.frames[..|after.frames| - 1]), unfinished)
    ensures Kept(before, after, unfinished + 1)
  {
    assert (before.frames + [zone])[..|before.frames|] == before.frames;
  }

  /** Frames and current task are as before exactly when no `finally` block has thrown. */
  lemma RestoredExactly(before: Context, after: Context, unfinished: nat)
    requires Kept(before, after, unfinished)
    ensures after == before <==> unfinished == 0
  {
  }

  // ---------------------------------------------------------------- when all are restored

  ghost function OneShots(tasks: Tasks): set<TaskId> {
    set t | t in tasks && OneShot(tasks[t])
  }

  /** A callback schedules no task that is on the stack and runs no one-shot task that is on it. */
  ghost predicate Calm(body: seq<Action>, oneShots: set<TaskId>, stack: set<TaskId>) {
    forall i :: 0 <= i < |body| ==> CalmAction(body[i], oneShots, stack)
  }

  ghost predicate CalmAction(a: Action, oneShots: set<TaskId>, stack: set<TaskId>) {
    match a
    case Schedule(_, task, _) => task !in stack
    case Cancel(_, _, _) => true
    case RunTask(_, task, body, _, _) =>
      (task in stack ==> task !in oneShots) && Calm(body, oneShots, stack + {task})
    case Run(_, body, _) => Calm(body, oneShots, stack)
    case RunGuarded(_, body, _, _) => Calm(body, oneShots, stack)
    case Try(action) => CalmAction(action, oneShots, stack)
  }

  /** No task on the stack waits for another run, every one-shot task that is running is on it, and
      the tasks that wait or run have their delegates. */
  ghost predicate Steady(tasks: Tasks, oneShots: set<TaskId>, stack: set<TaskId>) {
    && oneShots == OneShots(tasks)
    && forall t :: t in tasks ==> SteadyTask(tasks[t], t in stack)
  }

  ghost predicate SteadyTask(e: Task, onStack: bool) {
    && (onStack ==> e.state.Running? || e.state.NotScheduled? || e.state.Unknown?)
    && (OneShot(e) && e.state.Running? ==> onStack)
    && (e.state.Scheduled? || e.state.Running? ==> e.delegates.Some?)
  }

  lemma SteadyStep(tasks: Tasks, oneShots: set<TaskId>, stack: set<TaskId>, t: TaskId, e: Task, stack': set<TaskId>)
    requires Steady(tasks, oneShots, stack) && t in tasks && stack' - {t} == stack - {t}
    requires OneShot(e) == OneShot(tasks[t]) && SteadyTask(e, t in stack')
    ensures Steady(tasks[t := e], oneShots, stack')
  {
    forall t' | t' in tasks && t' != t ensures SteadyTask(tasks[t'], t' in stack') {
      assert t' in stack' <==> t' in stack' - {t};
      assert t' in stack <==> t' in stack - {t};
    }
  }

  /** Such callbacks restore frames and current task. */
  lemma {:induction false} CalmRestores(ancestors: Ancestors, tasks: Tasks, body: seq<Action>,
                                        oneShots: set<TaskId>, stack: set<TaskId>)
    requires Calm(body, oneShots, stack) && Steady(tasks, oneShots, stack)
    ensures var r := EffectOfAll(ancestors, tasks, body); r.unfinished == 0 && Steady(r.tasks, oneShots, stack)
    decreases body, 1
  {
    hide Steady;
    if body != [] {
      assert CalmAction(body[0], oneShots, stack);
      CalmActionRestores(ancestors, tasks, body[0], oneShots, stack);
      var first := EffectOf(ancestors, tasks, body[0]);
      if !first.threw { CalmRestores(ancestors, first.tasks, body[1..], oneShots, stack); }
    }
  }

  lemma {:induction false} CalmActionRestores(ancestors: Ancestors, tasks: Tasks, a: Action,
                                              oneShots: set<TaskId>, stack: set<TaskId>)
    requires CalmAction(a, oneShots, stack) && Steady(tasks, oneShots, stack)
    ensures var r := EffectOf(ancestors, tasks, a); r.unfinished == 0 && Steady(r.tasks, oneShots, stack)
    decreases a, 0
  {
    match a
    case Schedule(zone, t, outcome) =>
      if t in tasks {
        SteadyStep(tasks, oneShots, stack, t, Requested(ancestors, zone, tasks[t], outcome).0, stack);
      }
    case Cancel(zone, t, succeeds) =>
      if t in tasks { SteadyStep(tasks, oneShots, stack, t, CancelledBy(zone, tasks[t], succeeds).0, stack); }
    case RunTask(zone, t, body, throws, swallow) =>
      if t in tasks && Active(zone, tasks[t]) {
        SteadyStep(tasks, oneShots, stack, t, Entered(tasks[t]), stack + {t});
        CalmRestores(ancestors, tasks[t := Entered(tasks[t])], body, oneShots, stack + {t});
        var r := EffectOfAll(ancestors, tasks[t := Entered(tasks[t])], body);
        CalmRunEnds(r, t, tasks[t].state.Scheduled?, throws, swallow, oneShots, stack);
      }
    case Run(_, body, _) => CalmRestores(ancestors, tasks, body, oneShots, stack);
    case RunGuarded(_, body, _, _) => CalmRestores(ancestors, tasks, body, oneShots, stack);
    case Try(action) => CalmActionRestores(ancestors, tasks, action, oneShots, stack);
  }

  lemma CalmRunEnds(r: Effect, t: TaskId, outer: bool, throws: bool, swallow: bool,
                    oneShots: set<TaskId>, stack: set<TaskId>)
    requires t in r.tasks && r.unfinished == 0 && Steady(r.tasks, oneShots, stack + {t})
    requires (outer ==> t !in stack) && (t in oneShots ==> outer)
    ensures RunEnds(r, t, outer, throws, swallow).unfinished == 0
    ensures Steady(RunEnds(r, t, outer, throws, swallow).tasks, oneShots, stack)
  {
    var (e, _) := Finished(r.tasks[t], outer);
    SteadyStep(r.tasks, oneShots, stack + {t}, t, e, stack);
  }

  /** Two inputs on which they are not restored: an event task whose callback cancels it and
      schedules it again, and a one-shot task whose callback runs it. */
  lemma RescheduledEventTask()
    ensures var e := Task(EventTask, false, Some(0), Scheduled, 0, Some([]));
            var body := [Cancel(0, 0, true), Schedule(0, 0, Accepted([]))];
            var r := EffectOf(_ => {}, map[0 := e], RunTask(0, 0, body, false, false));
            r.unfinished == 1 && r.threw && r.tasks[0].state.Scheduled?
  {
    var e := Task(EventTask, false, Some(0), Scheduled, 0, Some([]));
    var body := [Cancel(0, 0, true), Schedule(0, 0, Accepted([]))];
    var running := map[0 := Entered(e)];
    var cancelled := EffectOf(_ => {}, running, body[0]);
    var again := EffectOf(_ => {}, cancelled.tasks, body[1]);
    assert body[1..] == [body[1]] && body[1..][1..] == [];
    assert EffectOfAll(_ => {}, again.tasks, []) == Effect(again.tasks, false, 0);
    assert EffectOfAll(_ => {}, cancelled.tasks, body[1..]).tasks == again.tasks;
    assert EffectOfAll(_ => {}, running, body) == Effect(again.tasks, false, 0);
  }

  lemma ReenteredTimer()
    ensures var e := Task(MacroTask, false, Some(0), Scheduled, 0, Some([]));
            var r := EffectOf(_ => {}, map[0 := e], RunTask(0, 0, [RunTask(0, 0, [], false, false)], false, false));
            r.unfinished == 1 && r.threw && r.tasks[0].state.Running? && r.tasks[0].delegates.None?
  {
    var e := Task(MacroTask, false, Some(0), Scheduled, 0, Some([]));
    var inner := RunTask(0, 0, [], false, false);
    var running: Tasks := map[0 := Entered(e)];
    var again: Tasks := running[0 := Entered(running[0])];
    assert EffectOfAll(_ => {}, again, []) == Effect(again, false, 0);
    RunEffect(_ => {}, running, 0, 0, [], false, false);
    var r := EffectOf(_ => {}, running, inner);
    assert r.tasks[0].state.Running? && r.tasks[0].delegates.None? && !r.threw && r.unfinished == 0;
    assert [inner][1..] == [];
    assert EffectOfAll(_ => {}, r.tasks, []) == Effect(r.tasks, false, 0);
    assert EffectOfAll(_ => {}, running, [inner]) == r;
    RunEffect(_ => {}, map[0 := e], 0, 0, [inner], false, false);
  }

  class Runtime {
    var tasks: Tasks
    var delegates: Delegates
    var frames: seq<ZoneId>           // the zone frames, innermost last
    var current: Option<TaskId>
    const ancestors: Ancestors
    ghost var holders: set<TaskId>    // tasks whose counts are taken

    ghost predicate Valid()
      reads `tasks, `delegates, `holders
    {
      Consistent(tasks, holders, delegates)
    }

    ghost function View(): Context
      reads `frames, `current
    {
      Context(frames, current)
    }

    /** The root zone, with tasks that have not been scheduled and delegates that have counted none. */
    constructor (tasks: Tasks, ids: set<DelegateId>, ancestors: Ancestors)
      requires forall t :: t in tasks ==> tasks[t].state.NotScheduled? && tasks[t].delegates.None?
      ensures Valid()
      ensures this.tasks == tasks && delegates.Keys == ids && holders == {} && this.ancestors == ancestors
      ensures frames == [0] && current == None
    {
      this.tasks, this.ancestors := tasks, ancestors;
      var zero := Tally(0, []);
      delegates := map d | d in ids :: Delegate(zero, zero, zero);
      frames, current, holders := [0], None, {};
      new;
      forall d, kind | d in delegates ensures Exact(this.tasks, holders, delegates, d, kind) {
        assert HoldersAt(this.tasks, holders, d, kind) == {};
      }
    }

    ghost predicate Fits(body: seq<Action>)
      reads `tasks, `delegates
    {
      Known(body, tasks.Keys, delegates.Keys)
    }

    /** `_transitionTo`: false stands for the thrown error. */
    method TransitionTo(t: TaskId, to: TaskState, from: set<TaskState>) returns (ok: bool)
      requires t in tasks
      modifies `tasks
      ensures ok == (old(tasks)[t].state in from)
      ensures tasks == if ok
                       then old(tasks)[t := old(tasks)[t].(state := to,
                              delegates := if to.NotScheduled? then None else old(tasks)[t].delegates)]
                       else old(tasks)
    {
      ok := tasks[t].state in from;
      if ok {
        tasks := tasks[t := tasks[t].(state := to, delegates := if to.NotScheduled? then None else tasks[t].delegates)];
      }
    }

    /** `_updateTaskCount` over a list of delegates; no count falls below zero. */
    method UpdateCounts(list: seq<DelegateId>, kind: TaskType, delta: int)
      requires Distinct(list) && forall d :: d in list ==> d in delegates
      requires forall d :: d in list ==> delegates[d].Get(kind).count + delta >= 0
      modifies `delegates
      ensures Counted(old(delegates), delegates, list, kind, delta)
      ensures forall d :: d in list ==> CountsMoved(old(delegates)[d], delegates[d], kind, delta)
    {
      CountedEmpty(delegates, kind, delta);
      for o := 0 to |list|
        invariant Counted(old(delegates), delegates, list[..o], kind, delta)
      {
        var d := list[o];
        assert d !in list[..o];
        var next := delegates[d].Get(kind).count + delta;
        if next < 0 {
          assert false;  // "More tasks executed then were scheduled."
        }
        CountedStep(old(delegates), delegates, list[..o], d, kind, delta);
        delegates := BumpOne(delegates, d, kind, delta);
        assert list[..o + 1] == list[..o] + [d];
      }
      assert list[..|list|] == list;
    }

    /** `scheduleTask`. */
    method ScheduleTask(zone: ZoneId, t: TaskId, outcome: ScheduleOutcome)
      returns (threw: bool)
      requires Valid() && t in tasks
      requires !outcome.Withdrawn? ==> KnownList(outcome.delegates, delegates.Keys)
      modifies `tasks, `delegates, `holders
      ensures Valid() && Follows(old(tasks), tasks) && delegates.Keys == old(delegates).Keys
      ensures var (e, fails) := Requested(ancestors, zone, old(tasks)[t], outcome);
              tasks == old(tasks)[t := e] && threw == fails
      ensures var e := old(tasks)[t];
              if !e.state.NotScheduled? || (e.zone.Some? && e.zone.value != zone && e.zone.value in ancestors(zone))
              then
                threw && tasks[t] == e && holders == old(holders)
              else
                && tasks[t].zone == Some(zone)
                && match outcome
                   case Withdrawn => !threw && tasks[t].state.NotScheduled? && holders == old(holders)
                   case Throws(_) => threw && tasks[t].state.Unknown? && holders == old(holders)
                   case Accepted(told) => !threw && tasks[t].state.Scheduled? && tasks[t].delegates == Some(told)
                                          && holders == old(holders) + {t}
    {
      hide Consistent, AllExact, Follows, Counted;
      var e := tasks[t];
      NoStep(tasks, t);
      ConsistentParts(tasks, holders, delegates, t);
      if Refused(ancestors, zone, e) { return true; }
      var ok := TransitionTo(t, Scheduling, {NotScheduled});
      if !ok { return true; }
      match outcome {
        case Withdrawn =>
          tasks := tasks[t := tasks[t].(zone := Some(zone), delegates := Some([]))];
          ok := TransitionTo(t, NotScheduled, {Scheduling});
          SameCounts(old(tasks), holders, delegates, t, tasks[t]);
          threw := false;
        case Throws(told) =>
          tasks := tasks[t := tasks[t].(zone := Some(zone), delegates := Some(told))];
          ok := TransitionTo(t, Unknown, {Scheduling, NotScheduled});
          SameCounts(old(tasks), holders, delegates, t, tasks[t]);
          threw := true;
        case Accepted(told) =>
          tasks := tasks[t := tasks[t].(zone := Some(zone), delegates := Some(told))];
          Take(t, told, old(tasks));
          ok := TransitionTo(t, Scheduled, {Scheduling});
          TakeCounts(old(tasks), old(holders), old(delegates), delegates, t, tasks[t]);
          threw := false;
      }
      assert tasks == old(tasks)[t := tasks[t]];
      Replaced(old(tasks), old(holders), old(delegates), holders, delegates, t, tasks[t]);
      Stepped(old(tasks), t, tasks[t]);
    }

    /** `_updateTaskCount(task, 1)`. */
    method Take(t: TaskId, told: seq<DelegateId>, ghost before: Tasks)
      requires Consistent(before, holders, delegates) && t in before && t in tasks && tasks[t].kind == before[t].kind
      requires KnownList(told, delegates.Keys)
      modifies `delegates, `holders
      ensures Counted(old(delegates), delegates, told, before[t].kind, 1) && delegates.Keys == old(delegates).Keys
      ensures holders == old(holders) + {t}
    {
      forall d | d in told ensures delegates[d].Get(before[t].kind).count >= 0 {
        CountIsNatural(before, holders, delegates, d, before[t].kind);
      }
      UpdateCounts(told, tasks[t].kind, 1);
      holders := holders + {t};
    }

    /** `cancelTask`. */
    method CancelTask(zone: ZoneId, t: TaskId, succeeds: bool) returns (threw: bool)
      requires Valid() && t in tasks
      modifies `tasks, `delegates, `holders
      ensures Valid() && Follows(old(tasks), tasks) && delegates.Keys == old(delegates).Keys
      ensures var (e, fails) := CancelledBy(zone, old(tasks)[t], succeeds);
              tasks == old(tasks)[t := e] && threw == fails
      ensures holders == (if threw then old(holders) else old(holders) - {t})
      ensures var e := old(tasks)[t];
              if e.zone != Some(zone) || !(e.state.Scheduled? || e.state.Running?) then threw && tasks[t] == e
              else if !succeeds then threw && tasks[t].state.Unknown?
              else if e.delegates.None? then threw && tasks[t].state.Canceling?
              else !threw && tasks[t].state.NotScheduled? && tasks[t].runCount == 0
    {
      hide Consistent, AllExact, Follows, Counted;
      var e := tasks[t];
      NoStep(tasks, t);
      ConsistentParts(tasks, holders, delegates, t);
      if e.zone != Some(zone) { return true; }
      var ok := TransitionTo(t, Canceling, {Scheduled, Running});
      if !ok { return true; }
      if succeeds {
        ok := ReleaseCounts(t, old(tasks));
        if ok {
          ok := TransitionTo(t, NotScheduled, {Canceling});
          tasks := tasks[t := tasks[t].(runCount := 0)];
          ReturnCounts(old(tasks), old(holders), old(delegates), delegates, t, tasks[t]);
          threw := false;
        } else {
          SameCounts(old(tasks), holders, delegates, t, tasks[t]);
          threw := true;
        }
      } else {
        ok := TransitionTo(t, Unknown, {Canceling});
        SameCounts(old(tasks), holders, delegates, t, tasks[t]);
        threw := true;
      }
      assert tasks == old(tasks)[t := tasks[t]];
      Replaced(old(tasks), old(holders), old(delegates), holders, delegates, t, tasks[t]);
      Stepped(old(tasks), t, tasks[t]);
    }

    /** `_updateTaskCount(task, -1)`: forget the delegates, then count each of them down; false stands
        for the exception when there are none to forget. */
    method ReleaseCounts(t: TaskId, ghost before: Tasks) returns (ok: bool)
      requires Consistent(before, holders, delegates) && t in before && t in tasks
      requires !before[t].state.NotScheduled? && !before[t].state.Unknown?
      requires tasks[t].delegates == before[t].delegates && tasks[t].kind == before[t].kind
      modifies `tasks, `delegates, `holders
      ensures ok == before[t].delegates.Some? && (ok <==> t in old(holders))
      ensures tasks == old(tasks)[t := old(tasks)[t].(delegates := None)]
      ensures holders == if ok then old(holders) - {t} else old(holders)
      ensures if ok then Counted(old(delegates), delegates, before[t].delegates.value, before[t].kind, -1)
              else delegates == old(delegates)
    {
      assert TaskOk(before[t], t in holders, delegates);
      var e := tasks[t];
      var list := e.delegates;
      tasks := tasks[t := e.(delegates := None)];
      if list.None? { return false; }
      forall d | d in list.value ensures delegates[d].Get(e.kind).count > 0 {
        HolderIsCounted(before, holders, delegates, t, d);
      }
      UpdateCounts(list.value, e.kind, -1);
      holders := holders - {t};
      ok := true;
    }

    /** After an outermost run, whatever its callback has done, a one-shot task holds no count; any
        other task is scheduled again and holds one, or was cancelled from within and holds none. A
        task left in an unknown state is as it was left. */
    predicate Settled(e: Task, holds: bool) {
      || e.state.Unknown?
      || (OneShot(e) && !holds)
      || (!OneShot(e) && if holds then e.state.Scheduled? else e.state.NotScheduled?)
    }

    /** `runTask`. */
    method InvokeTask(zone: ZoneId, t: TaskId, body: seq<Action>, throws: bool, swallow: bool)
      returns (threw: bool)
      requires Valid() && t in tasks
      requires Fits(body)
      modifies this
      ensures Valid() && Follows(old(tasks), tasks) && delegates.Keys == old(delegates).Keys
      ensures var r := EffectOf(ancestors, old(tasks), RunTask(zone, t, body, throws, swallow));
              tasks == r.tasks && threw == r.threw && Kept(old(View()), View(), r.unfinished)
      ensures Active(zone, old(tasks)[t]) && old(tasks)[t].state.Scheduled? ==> Settled(tasks[t], t in holders)
      ensures var e := old(tasks)[t];
              e.zone != Some(zone) || !(e.state.Scheduled? || e.state.Running?) ==>
                && tasks == old(tasks) && View() == old(View())
                && (threw <==> e.zone != Some(zone) || !e.state.NotScheduled? || e.kind.MicroTask?)
      decreases body, 2
    {
      hide Consistent, AllExact, Follows, EffectOf, EffectOfAll, Kept, Finished, Known;
      var e := tasks[t];
      ghost var before := View();
      NoStep(tasks, t);
      KeptAsIs(before);
      ConsistentParts(tasks, holders, delegates, t);
      RunEffect(ancestors, tasks, zone, t, body, throws, swallow);
      if e.zone != Some(zone) { return true; }
      if e.state == NotScheduled && e.kind != MicroTask { return false; }
      var outer := e.state != Running;
      if outer {
        var ok := TransitionTo(t, Running, {Scheduled});
        if !ok { return true; }
      }
      Enter(t, old(tasks));
      ghost var entered := tasks;
      threw := RunEntered(zone, t, outer, body, throws, swallow);
      FollowsTransitive(old(tasks), entered, tasks);
    }

    /** The callback of a running task in its own frame, and what follows it. */
    method RunEntered(zone: ZoneId, t: TaskId, outer: bool, body: seq<Action>, throws: bool, swallow: bool)
      returns (threw: bool)
      requires Valid() && t in tasks
      requires Fits(body)
      modifies this
      ensures Valid() && Follows(old(tasks), tasks) && delegates.Keys == old(delegates).Keys
      ensures var r := RunEnds(EffectOfAll(ancestors, old(tasks), body), t, outer, throws, swallow);
              tasks == r.tasks && threw == r.threw && Kept(old(View()), View(), r.unfinished)
      ensures outer ==> Settled(tasks[t], t in holders)
      decreases body, 1
    {
      hide Consistent, Follows, EffectOfAll, Kept, Finished, RunEnds, Known;
      ghost var r := EffectOfAll(ancestors, tasks, body);
      var saved := current;
      current, frames := Some(t), frames + [zone];
      threw := Perform(body);
      ghost var called := tasks;
      threw := (threw || throws) && !swallow;
      FollowsKeepsKeys(old(tasks), called);
      var ok := FinishTask(t, outer);
      FollowsTransitive(old(tasks), called, tasks);
      UnfoldRunEnds(r, t, outer, throws, swallow);
      KeptAround(old(View()), zone, Some(t), View(), r.unfinished);
      if !ok { return true; }
      current, frames := saved, frames[..|frames| - 1];
    }

    /** `runCount++`, in a task that has just been set running or has been running before. */
    method Enter(t: TaskId, ghost before: Tasks)
      requires Consistent(before, holders, delegates) && t in before
      requires before[t].state.Scheduled? || before[t].state.Running?
      requires tasks == before[t := before[t].(state := Running)]
      modifies `tasks
      ensures tasks == before[t := Entered(before[t])]
      ensures tasks[t].state.Running? && tasks[t].runCount == before[t].runCount + 1
      ensures Valid() && Follows(before, tasks)
      ensures tasks.Keys == before.Keys
    {
      hide Consistent, AllExact, Follows;
      ConsistentParts(before, holders, delegates, t);
      tasks := tasks[t := tasks[t].(runCount := tasks[t].runCount + 1)];
      assert tasks == before[t := Entered(before[t])];
      SameCounts(before, holders, delegates, t, tasks[t]);
      Replaced(before, holders, delegates, holders, delegates, t, tasks[t]);
      Stepped(before, t, tasks[t]);
    }

    /** The `finally` block of `runTask`, up to the transition; false stands for its error. */
    method FinishTask(t: TaskId, outer: bool) returns (ok: bool)
      requires Valid() && t in tasks
      modifies `tasks, `delegates, `holders
      ensures Valid() && Follows(old(tasks), tasks) && delegates.Keys == old(delegates).Keys
      ensures var (e, fine) := Finished(old(tasks)[t], outer);
              tasks == old(tasks)[t := e] && ok == fine
      ensures outer ==> Settled(tasks[t], t in holders)
      ensures var e := old(tasks)[t];
              if e.state.NotScheduled? || e.state.Unknown? then ok && tasks[t] == e
              else if OneShot(e) then
                && (ok <==> e.delegates.Some? && (outer ==> e.state.Running?))
                && tasks[t].runCount == 0 && tasks[t].delegates.None?
                && tasks[t].state == if ok && outer then NotScheduled else e.state
              else
                && (ok <==> outer ==> e.state.Running?)
                && tasks[t] == e.(state := if outer then Scheduled else e.state)
    {
      hide Consistent, AllExact, Follows, Counted;
      var e := tasks[t];
      NoStep(tasks, t);
      ConsistentParts(tasks, holders, delegates, t);
      if e.state == NotScheduled || e.state == Unknown { return true; }
      ok := true;
      if e.kind == EventTask || e.periodic {
        if outer {
          ok := TransitionTo(t, Scheduled, {Running});
        }
        SameCounts(old(tasks), holders, delegates, t, tasks[t]);
      } else {
        tasks := tasks[t := tasks[t].(runCount := 0)];
        ok := ReleaseCounts(t, old(tasks));
        if !ok {
          SameCounts(old(tasks), holders, delegates, t, tasks[t]);
        } else {
          if outer {
            ok := TransitionTo(t, NotScheduled, {Running, NotScheduled});
          }
          ReturnCounts(old(tasks), old(holders), old(delegates), delegates, t, tasks[t]);
        }
      }
      assert tasks == old(tasks)[t := tasks[t]];
      Replaced(old(tasks), old(holders), old(delegates), holders, delegates, t, tasks[t]);
      Stepped(old(tasks), t, tasks[t]);
    }

    /** One operation of a callback; true stands for a thrown exception. */
    method PerformOne(a: Action) returns (threw: bool)
      requires Valid()
      requires KnownAction(a, tasks.Keys, delegates.Keys)
      modifies this
      ensures Valid() && Follows(old(tasks), tasks) && delegates.Keys == old(delegates).Keys
      ensures var r := EffectOf(ancestors, old(tasks), a);
              tasks == r.tasks && threw == r.threw && Kept(old(View()), View(), r.unfinished)
      decreases a
    {
      match a
      case Schedule(zone, t, outcome) => threw := ScheduleTask(zone, t, outcome);
      case Cancel(zone, t, succeeds) => threw := CancelTask(zone, t, succeeds);
      case RunTask(zone, t, body, throws, swallow) => threw := InvokeTask(zone, t, body, throws, swallow);
      case Run(zone, body, throws) =>
        threw := PerformIn(zone, body);
        threw := threw || throws;
      case RunGuarded(zone, body, throws, swallow) =>
        threw := PerformIn(zone, body);
        threw := (threw || throws) && !swallow;
      case Try(action) =>
        threw := PerformOne(action);
        threw := false;
    }

    /** The frame that `run` and `runGuarded` put around a callback. */
    method PerformIn(zone: ZoneId, body: seq<Action>) returns (threw: bool)
      requires Valid() && Fits(body)
      modifies this
      ensures Valid() && Follows(old(tasks), tasks) && delegates.Keys == old(delegates).Keys
      ensures var r := EffectOfAll(ancestors, old(tasks), body);
              tasks == r.tasks && threw == r.threw && Kept(old(View()), View(), r.unfinished)
      decreases body, 1
    {
      frames := frames + [zone];
      threw := Perform(body);
      KeptAround(old(View()), zone, old(current), View(), EffectOfAll(ancestors, old(tasks), body).unfinished);
      frames := frames[..|frames| - 1];
    }

    /** A callback. Zone frames and current task are those before exactly when no `finally` block
        of a run on the way has thrown. */
    method Perform(body: seq<Action>) returns (threw: bool)
      requires Valid() && Fits(body)
      modifies this
      ensures Valid() && Follows(old(tasks), tasks) && delegates.Keys == old(delegates).Keys
      ensures var r := EffectOfAll(ancestors, old(tasks), body);
              tasks == r.tasks && threw == r.threw && Kept(old(View()), View(), r.unfinished)
      ensures frames == old(frames) && current == old(current) <==>
                EffectOfAll(ancestors, old(tasks), body).unfinished == 0
      ensures Executed(ancestors, old(tasks), body) ==
              Machine(tasks, threw, EffectOfAll(ancestors, old(tasks), body).unfinished)
      decreases body, 0
    {
      hide Executed;
      ghost var r := EffectOfAll(ancestors, tasks, body);
      EffectIsExecuted(ancestors, tasks, body);
      if body == [] { return false; }
      assert KnownAction(body[0], tasks.Keys, delegates.Keys);
      threw := PerformOne(body[0]);
      if !threw {
        ghost var middle, now := View(), tasks;
        threw := Perform(body[1..]);
        FollowsTransitive(old(tasks), now, tasks);
        KeptTransitive(old(View()), middle, View(), EffectOf(ancestors, old(tasks), body[0]).unfinished,
                       EffectOfAll(ancestors, now, body[1..]).unfinished);
      }
      RestoredExactly(old(View()), View(), r.unfinished);
    }
  }
}
