/** ZoneAwarePromise of zone.js (module `pDpN`, functions `P`, `C`, `j`, `Z` and `then`). Promises
    are kept in a table by identity; each operation updates the records in place, as the source
    updates the promise objects. */
module PromiseTable {
  import opened Common

  type Id = nat

  datatype State = Unresolved | Resolved | Rejected | RejectedNoCatch

  /** A value as promise resolution sees it: a promise, an object with a callable `then` (which
      calls back, and may end by throwing), an object whose `then` cannot be read, or anything else. */
  datatype Value =
    | Plain(n: int)
    | OfPromise(id: Id)
    | Thenable(script: Script)
    | BadThen(error: Value)

  /** What a foreign `then` does: call back with values, and return or throw. */
  datatype Script = Return | Throw(error: Value) | Call(fulfil: bool, value: Value, rest: Script)

  /** `reactions` are the promises returned by `then` that wait for this one; `parent` is what a
      `finally` promise passes on. */
  datatype Promise = Promise(state: State, value: Value, reactions: seq<Id>, isFinally: bool,
                             parent: Option<(State, Value)>)

  /** A microtask: the reaction of `promise` that settles `target`. */
  datatype Job = Job(promise: Id, target: Id)

  datatype Guard = Guard(called: bool, promise: Id)

  type Table = map<Id, Promise>

  /** A first reaction turns rejected-without-catch into rejected. */
  function HandledState(state: State): State {
    if state.RejectedNoCatch? then Rejected else state
  }

  predicate Settled(p: Promise) {
    !p.state.Unresolved?
  }

  /** The targets of the jobs of one promise, in queue order. */
  function JobsOf(queue: seq<Job>, p: Id): seq<Id> {
    if queue == [] then []
    else
      var front, last := queue[..|queue| - 1], queue[|queue| - 1];
      if last.promise == p then JobsOf(front, p) + [last.target] else JobsOf(front, p)
  }

  lemma JobsOfAppend(queue: seq<Job>, job: Job, p: Id)
    ensures JobsOf(queue + [job], p) == JobsOf(queue, p) + (if job.promise == p then [job.target] else [])
  {
    assert (queue + [job])[..|queue|] == queue;
  }

  predicate Storable(state: State, value: Value) {
    && !value.BadThen?
    && (state.Resolved? ==> value.Plain?)
  }

  /** Reactions wait while the promise is unresolved; once it is settled all of them, and those
      registered later, have been scheduled exactly once, in the order of their registration. */
  ghost predicate PromiseOk(p: Promise, registered: seq<Id>, jobs: seq<Id>) {
    && (if Settled(p) then p.reactions == [] && jobs == registered && Storable(p.state, p.value)
        else p.reactions == registered && jobs == [])
    && (p.parent.Some? ==> (p.parent.value.0.Resolved? || p.parent.value.0.Rejected?)
                           && Storable(p.parent.value.0, p.parent.value.1))
  }

  /** The list holds exactly the promises rejected without catch that have not been reported yet;
      a promise is listed once, and reported once at most. */
  ghost predicate UncaughtOk(table: Table, uncaught: seq<Id>, reported: seq<Id>) {
    && Distinct(uncaught) && Distinct(reported)
    && (forall p :: p in uncaught ==> p in table && table[p].state.RejectedNoCatch? && p !in reported)
    && (forall p :: p in reported ==> p in table && (table[p].state.RejectedNoCatch? || table[p].state.Rejected?))
    && (forall p :: p in table && table[p].state.RejectedNoCatch? ==> p in uncaught || p in reported)
  }

  ghost predicate Consistent(table: Table, registered: map<Id, seq<Id>>, queue: seq<Job>) {
    && registered.Keys == table.Keys
    && (forall p :: p in table ==> PromiseOk(table[p], registered[p], JobsOf(queue, p)))
    && (forall k :: 0 <= k < |queue| ==> queue[k].promise in table)
  }

  ghost predicate GuardsOk(table: Table, guards: map<nat, Guard>) {
    forall g :: g in guards ==> guards[g].promise in table && Ready(table[guards[g].promise])
  }

  /** A step that changes the record of one promise and schedules jobs of it. */
  lemma UpdateConsistent(table: Table, registered: map<Id, seq<Id>>, queue: seq<Job>, e: Id, p: Promise,
                         reg: seq<Id>, targets: seq<Id>)
    requires Consistent(table, registered, queue) && e in table
    requires PromiseOk(p, reg, JobsOf(queue, e) + targets)
    ensures Consistent(table[e := p], registered[e := reg], queue + JobsFor(e, targets))
  {
    var table', registered', queue' := table[e := p], registered[e := reg], queue + JobsFor(e, targets);
    forall q | q in table' ensures PromiseOk(table'[q], registered'[q], JobsOf(queue', q)) {
      JobsOfMany(queue, e, targets, q);
      assert q in table && PromiseOk(table[q], registered[q], JobsOf(queue, q));
    }
    forall k | 0 <= k < |queue'| ensures queue'[k].promise in table' {
      assert k < |queue| ==> queue[k].promise in table;
    }
  }

  /** The record of a promise that settles: `P`'s assignments, also for `finally` promises. */
  function SettledRecord(p: Promise, o: State, s: Value): Promise
    requires Ready(p)
  {
    if p.isFinally && o.Resolved? then p.(state := p.parent.value.0, value := p.parent.value.1, reactions := [])
    else if o.Rejected? && p.reactions == [] then p.(state := RejectedNoCatch, value := s)
    else p.(state := o, value := s, reactions := [])
  }

  /** The rejection that is not listed although nobody waits for it. */
  lemma PassedOnIsUnlisted(s: Value)
    ensures var p := Promise(Unresolved, Plain(0), [], true, Some((Rejected, s)));
            SettledRecord(p, Resolved, Plain(1)).state == Rejected && p.reactions == []
  {
  }

  lemma SettledRecordOk(p: Promise, o: State, s: Value, registered: seq<Id>, jobs: seq<Id>)
    requires PromiseOk(p, registered, jobs) && Ready(p) && !Settled(p)
    requires (o.Resolved? || o.Rejected?) && Storable(o, s)
    ensures var p' := SettledRecord(p, o, s);
            Keeps(p, p') && Settled(p') && PromiseOk(p', registered, jobs + p.reactions)
  {
  }

  /** A promise that was not rejected without catch changes; if it is now, it is listed. */
  lemma UpdateUncaught(table: Table, uncaught: seq<Id>, reported: seq<Id>, e: Id, p: Promise)
    requires UncaughtOk(table, uncaught, reported) && (e in table ==> Keeps(table[e], p))
    requires e in table ==> !table[e].state.RejectedNoCatch?
    ensures UncaughtOk(table[e := p], if p.state.RejectedNoCatch? then uncaught + [e] else uncaught, reported)
  {
    assert e !in uncaught;
    var uncaught' := if p.state.RejectedNoCatch? then uncaught + [e] else uncaught;
    forall q | q in table[e := p] && table[e := p][q].state.RejectedNoCatch? ensures q in uncaught' || q in reported {
      if q == e { assert uncaught'[|uncaught|] == e; } else { assert q in uncaught || q in reported; }
    }
  }

  /** A rejection without catch becomes a handled one and leaves the list. */
  lemma HandledUncaught(table: Table, uncaught: seq<Id>, reported: seq<Id>, e: Id, rest: seq<Id>)
    requires UncaughtOk(table, uncaught, reported) && e in table && table[e].state.RejectedNoCatch?
    requires Distinct(rest) && forall p :: p in rest <==> p in uncaught && p != e
    ensures UncaughtOk(table[e := table[e].(state := Rejected)], rest, reported)
  {
  }

  lemma ReportedUncaught(table: Table, uncaught: seq<Id>, reported: seq<Id>)
    requires UncaughtOk(table, uncaught, reported) && uncaught != []
    ensures UncaughtOk(table, uncaught[1..], reported + [uncaught[0]])
  {
    assert uncaught == [uncaught[0]] + uncaught[1..];
    assert uncaught[0] in uncaught;
    forall p | p in table && table[p].state.RejectedNoCatch?
      ensures p in uncaught[1..] || p in reported + [uncaught[0]]
    {
      assert p in uncaught || p in reported;
      assert p == uncaught[0] ==> (reported + [uncaught[0]])[|reported|] == p;
    }
  }

  /** Of the promises that settle as rejected with no reaction waiting, all are listed as uncaught
      but one kind: a `finally` promise that passes a rejection on. */
  lemma ListedExactly(p: Promise, o: State, s: Value)
    requires Ready(p) && (o.Resolved? || o.Rejected?) && p.reactions == []
    requires p.parent.Some? ==> p.parent.value.0.Resolved? || p.parent.value.0.Rejected?
    ensures var p' := SettledRecord(p, o, s);
            p'.state.RejectedNoCatch? || p'.state.Rejected? ==>
              (p'.state.RejectedNoCatch? <==> !(p.isFinally && o.Resolved?))
  {
  }

  lemma RemovedAt(ids: seq<Id>, t: nat)
    requires Distinct(ids) && t < |ids|
    ensures var rest := ids[..t] + ids[t + 1..];
            Distinct(rest) && forall p :: p in rest <==> p in ids && p != ids[t]
  {
    var rest := ids[..t] + ids[t + 1..];
    assert forall i :: 0 <= i < |rest| ==> rest[i] == ids[if i < t then i else i + 1];
    forall p | p in ids && p != ids[t] ensures p in rest {
      var i :| 0 <= i < |ids| && ids[i] == p;
      assert rest[if i < t then i else i - 1] == p;
    }
  }

  lemma UpdateFollows(table: Table, guards: map<nat, Guard>, e: Id, p: Promise)
    requires e in table && Keeps(table[e], p)
    ensures Follows(table, table[e := p])
    ensures GuardsOk(table, guards) ==> GuardsOk(table[e := p], guards)
  {
  }

  /** A `finally` promise is settled only by its reaction, which first stores what to pass on. */
  predicate Ready(p: Promise) {
    p.isFinally ==> p.parent.Some?
  }

  /** The promises a value mentions exist. */
  predicate Known(s: Value, ids: set<Id>)
    decreases s
  {
    match s
    case Plain(_) => true
    case OfPromise(id) => id in ids
    case BadThen(u) => Known(u, ids)
    case Thenable(script) => KnownScript(script, ids)
  }

  predicate KnownScript(script: Script, ids: set<Id>)
    decreases script
  {
    match script
    case Return => true
    case Throw(u) => Known(u, ids)
    case Call(_, v, rest) => Known(v, ids) && KnownScript(rest, ids)
  }

  lemma KnownMore(s: Value, ids: set<Id>, more: set<Id>)
    requires Known(s, ids) && ids <= more
    ensures Known(s, more)
    decreases s
  {
    match s
    case Plain(_) =>
    case OfPromise(_) =>
    case BadThen(u) => KnownMore(u, ids, more);
    case Thenable(script) => KnownScriptMore(script, ids, more);
  }

  lemma KnownScriptMore(script: Script, ids: set<Id>, more: set<Id>)
    requires KnownScript(script, ids) && ids <= more
    ensures KnownScript(script, more)
    decreases script
  {
    match script
    case Return =>
    case Throw(u) => KnownMore(u, ids, more);
    case Call(_, v, rest) => KnownMore(v, ids, more); KnownScriptMore(rest, ids, more);
  }

  function JobsFor(p: Id, targets: seq<Id>): (jobs: seq<Job>)
    ensures |jobs| == |targets|
  {
    seq(|targets|, i requires 0 <= i < |targets| => Job(p, targets[i]))
  }

  lemma {:induction false} JobsOfMany(queue: seq<Job>, p: Id, targets: seq<Id>, q: Id)
    ensures JobsOf(queue + JobsFor(p, targets), q) == JobsOf(queue, q) + (if p == q then targets else [])
  {
    if targets == [] {
      assert queue + JobsFor(p, targets) == queue;
    } else {
      var front, last := targets[..|targets| - 1], targets[|targets| - 1];
      JobsOfMany(queue, p, front, q);
      assert queue + JobsFor(p, targets) == (queue + JobsFor(p, front)) + [Job(p, last)];
      JobsOfAppend(queue + JobsFor(p, front), Job(p, last), q);
    }
  }

  lemma {:induction false} NoJobs(queue: seq<Job>, ids: set<Id>, p: Id)
    requires (forall k :: 0 <= k < |queue| ==> queue[k].promise in ids) && p !in ids
    ensures JobsOf(queue, p) == []
  {
    if queue != [] { NoJobs(queue[..|queue| - 1], ids, p); }
  }

  /** What no operation undoes: a settled promise keeps its value, and its state except that
      rejected-without-catch may become rejected; a called guard stays called. */
  ghost predicate Keeps(p: Promise, p': Promise) {
    && p'.isFinally == p.isFinally && (p.parent.Some? ==> p'.parent.Some?)
    && (Settled(p) ==> p'.value == p.value && (p'.state == p.state || (p.state.RejectedNoCatch? && p'.state.Rejected?)))
  }

  ghost predicate Follows(before: Table, after: Table) {
    forall p :: p in before ==> p in after && Keeps(before[p], after[p])
  }

  /** Called guards stay called, and registered reactions stay registered, in order. */
  ghost predicate Grows(g: map<nat, Guard>, g': map<nat, Guard>, r: map<Id, seq<Id>>, r': map<Id, seq<Id>>) {
    && (forall k :: k in g ==> k in g' && g'[k].promise == g[k].promise && (g[k].called ==> g'[k].called))
    && (forall p :: p in r ==> p in r' && r[p] <= r'[p])
  }

  lemma GrowsTransitive(ga: map<nat, Guard>, gb: map<nat, Guard>, gc: map<nat, Guard>,
                        ra: map<Id, seq<Id>>, rb: map<Id, seq<Id>>, rc: map<Id, seq<Id>>)
    requires Grows(ga, gb, ra, rb) && Grows(gb, gc, rb, rc)
    ensures Grows(ga, gc, ra, rc)
  {
    forall k | k in ga ensures k in gc && gc[k].promise == ga[k].promise && (ga[k].called ==> gc[k].called) {
      assert k in gb && gb[k].promise == ga[k].promise;
    }
    forall p | p in ra ensures p in rc && ra[p] <= rc[p] {
      assert p in rb && ra[p] <= rb[p] && rb[p] <= rc[p];
    }
  }

  lemma FollowsTransitive(a: Table, b: Table, c: Table)
    requires Follows(a, b) && Follows(b, c)
    ensures Follows(a, c)
  {
    forall p | p in a ensures p in c && Keeps(a[p], c[p]) {
      assert p in b && Keeps(a[p], b[p]);
      assert Keeps(b[p], c[p]);
    }
  }

  // ---------------------------------------------------------------- the whole state

  ghost predicate Below(table: Table, guards: map<nat, Guard>, nextId: nat) {
    (forall p :: p in table ==> p < nextId) && (forall g :: g in guards ==> g < nextId)
  }

  datatype Moment = Moment(table: Table, guards: map<nat, Guard>, registered: map<Id, seq<Id>>, reported: seq<Id>)

  /** What a run never undoes: settled promises stay settled, called guards called, registered
      reactions registered, reported rejections reported. */
  ghost predicate Later(a: Moment, b: Moment) {
    && Follows(a.table, b.table) && Grows(a.guards, b.guards, a.registered, b.registered)
    && a.reported <= b.reported
  }

  lemma LaterTransitive(a: Moment, b: Moment, c: Moment)
    requires Later(a, b) && Later(b, c)
    ensures Later(a, c)
  {
    hide Follows, Grows;
    FollowsTransitive(a.table, b.table, c.table);
    GrowsTransitive(a.guards, b.guards, c.guards, a.registered, b.registered, c.registered);
  }

  lemma NotLater(a: Moment)
    ensures Later(a, a)
  {
  }

  lemma ReadyStill(a: Moment, b: Moment, e: Id)
    requires Later(a, b) && e in a.table && Ready(a.table[e])
    ensures e in b.table && Ready(b.table[e])
  {
    assert Keeps(a.table[e], b.table[e]);
  }

  lemma LaterAt(a: Moment, b: Moment, g: nat)
    requires Later(a, b) && g in a.guards
    ensures a.table.Keys <= b.table.Keys
    ensures g in b.guards && b.guards[g].promise == a.guards[g].promise && (a.guards[g].called ==> b.guards[g].called)
  {
  }

  ghost predicate Sound(table: Table, registered: map<Id, seq<Id>>, queue: seq<Job>, guards: map<nat, Guard>,
                        uncaught: seq<Id>, reported: seq<Id>, nextId: nat)
  {
    && Consistent(table, registered, queue) && GuardsOk(table, guards)
    && UncaughtOk(table, uncaught, reported) && Below(table, guards, nextId)
  }

  lemma SoundAt(table: Table, registered: map<Id, seq<Id>>, queue: seq<Job>, guards: map<nat, Guard>,
                uncaught: seq<Id>, reported: seq<Id>, nextId: nat, e: Id)
    requires Sound(table, registered, queue, guards, uncaught, reported, nextId) && e in table
    ensures e in registered && PromiseOk(table[e], registered[e], JobsOf(queue, e)) && e < nextId
    ensures registered[e := registered[e]] == registered && queue + JobsFor(e, []) == queue
    ensures table[e := table[e]] == table && Distinct(uncaught)
  {
  }

  lemma SoundNew(table: Table, registered: map<Id, seq<Id>>, queue: seq<Job>, guards: map<nat, Guard>,
                 uncaught: seq<Id>, reported: seq<Id>, nextId: nat, isFinally: bool)
    requires Sound(table, registered, queue, guards, uncaught, reported, nextId)
    ensures var table' := table[nextId := Promise(Unresolved, Plain(0), [], isFinally, None)];
            && nextId !in table
            && Later(Moment(table, guards, registered, reported),
                     Moment(table', guards, registered[nextId := []], reported))
            && Sound(table', registered[nextId := []], queue, guards, uncaught, reported, nextId + 1)
  {
    hide UncaughtOk, Keeps;
    NoJobs(queue, table.Keys, nextId);
    UpdateUncaught(table, uncaught, reported, nextId, Promise(Unresolved, Plain(0), [], isFinally, None));
    KeepsItself(table);
  }

  lemma KeepsItself(table: Table)
    ensures forall p :: p in table ==> Keeps(table[p], table[p])
  {
  }

  /** How the list of uncaught rejections changes with the record of one promise. */
  ghost predicate ListChange(before: Promise, after: Promise, e: Id, uncaught: seq<Id>, uncaught': seq<Id>) {
    if !before.state.RejectedNoCatch? then
      uncaught' == if after.state.RejectedNoCatch? then uncaught + [e] else uncaught
    else
      && after == before.(state := Rejected)
      && Distinct(uncaught') && forall p :: p in uncaught' <==> p in uncaught && p != e
  }

  /** One promise changes, and jobs of it are scheduled. */
  lemma SoundUpdate(table: Table, registered: map<Id, seq<Id>>, queue: seq<Job>, guards: map<nat, Guard>,
                    uncaught: seq<Id>, reported: seq<Id>, nextId: nat,
                    e: Id, p: Promise, reg: seq<Id>, targets: seq<Id>, uncaught': seq<Id>)
    requires Sound(table, registered, queue, guards, uncaught, reported, nextId) && e in table
    requires Keeps(table[e], p) && PromiseOk(p, reg, JobsOf(queue, e) + targets)
    requires ListChange(table[e], p, e, uncaught, uncaught') && (e in registered ==> registered[e] <= reg)
    ensures Sound(table[e := p], registered[e := reg], queue + JobsFor(e, targets), guards, uncaught', reported, nextId)
    ensures Later(Moment(table, guards, registered, reported),
                  Moment(table[e := p], guards, registered[e := reg], reported))
  {
    hide Consistent, GuardsOk, UncaughtOk, Follows, Keeps, PromiseOk, Grows;
    GrowsBy(guards, registered, e, reg);
    UpdateConsistent(table, registered, queue, e, p, reg, targets);
    UpdateFollows(table, guards, e, p);
    if table[e].state.RejectedNoCatch? {
      HandledUncaught(table, uncaught, reported, e, uncaught');
    } else {
      UpdateUncaught(table, uncaught, reported, e, p);
    }
  }

  lemma SoundGuard(table: Table, registered: map<Id, seq<Id>>, queue: seq<Job>, guards: map<nat, Guard>,
                   uncaught: seq<Id>, reported: seq<Id>, nextId: nat, e: Id)
    requires Sound(table, registered, queue, guards, uncaught, reported, nextId) && e in table && Ready(table[e])
    ensures nextId !in guards
    ensures Sound(table, registered, queue, guards[nextId := Guard(false, e)], uncaught, reported, nextId + 1)
    ensures Later(Moment(table, guards, registered, reported),
                  Moment(table, guards[nextId := Guard(false, e)], registered, reported))
  {
    hide Consistent, UncaughtOk;
  }

  lemma SoundClaim(table: Table, registered: map<Id, seq<Id>>, queue: seq<Job>, guards: map<nat, Guard>,
                   uncaught: seq<Id>, reported: seq<Id>, nextId: nat, g: nat)
    requires Sound(table, registered, queue, guards, uncaught, reported, nextId) && g in guards
    ensures guards[g].promise in table && Ready(table[guards[g].promise])
    ensures Sound(table, registered, queue, guards[g := Guard(true, guards[g].promise)], uncaught, reported, nextId)
    ensures Later(Moment(table, guards, registered, reported),
                  Moment(table, guards[g := Guard(true, guards[g].promise)], registered, reported))
  {
    hide Consistent, UncaughtOk;
  }

  lemma SoundReport(table: Table, registered: map<Id, seq<Id>>, queue: seq<Job>, guards: map<nat, Guard>,
                    uncaught: seq<Id>, reported: seq<Id>, nextId: nat)
    requires Sound(table, registered, queue, guards, uncaught, reported, nextId) && uncaught != []
    ensures Sound(table, registered, queue, guards, uncaught[1..], reported + [uncaught[0]], nextId)
    ensures Later(Moment(table, guards, registered, reported),
                  Moment(table, guards, registered, reported + [uncaught[0]]))
  {
    ReportedUncaught(table, uncaught, reported);
  }

  lemma GrowsBy(guards: map<nat, Guard>, registered: map<Id, seq<Id>>, e: Id, reg: seq<Id>)
    requires e in registered ==> registered[e] <= reg
    ensures Grows(guards, guards, registered, registered[e := reg])
  {
  }

  /** A bound on the resolution steps a value can cause. */
  function Weight(o: State, s: Value): nat
    decreases s
  {
    match s
    case Plain(_) => 0
    case OfPromise(_) => if o.Rejected? then 0 else 1
    case BadThen(u) => 1 + Weight(Rejected, u)
    case Thenable(script) => if o.Rejected? then 0 else 1 + ScriptWeight(script)
  }

  function ScriptWeight(script: Script): nat
    decreases script
  {
    match script
    case Return => 0
    case Throw(u) => 1 + Weight(Rejected, u)
    case Call(fulfil, v, rest) => 1 + Weight(if fulfil then Resolved else Rejected, v) + ScriptWeight(rest)
  }
}

module ZonePromise {
  import opened Common
  import opened PromiseTable

  /** "Promise resolved with itself". */
  const TYPE_ERROR := 0

  // ---------------------------------------------------------------- what a resolution does

  /** What resolving changes: the promises and the queue of reactions. */
  datatype Sight = Sight(table: Table, queue: seq<Job>)

  /** Resolving a promise with itself, or with a promise that was rejected with it, or with an
      object whose `then` throws, before it calls back, what would be circular as a rejection. */
  predicate Circular(table: Table, e: Id, o: State, s: Value)
    decreases s
  {
    || s == OfPromise(e)
    || (e in table && !Settled(table[e]) &&
        match s
        case Plain(_) => false
        case OfPromise(q) =>
          o.Resolved? && q in table && table[q].state in {Rejected, RejectedNoCatch} && table[q].value == OfPromise(e)
        case BadThen(u) => Circular(table, e, Rejected, u)
        case Thenable(script) => o.Resolved? && script.Throw? && Circular(table, e, Rejected, script.error))
  }

  /** The promise e is settled, and its reactions are scheduled in order. */
  function Stored(a: Sight, e: Id, o: State, s: Value): Sight
    requires e in a.table && Ready(a.table[e])
  {
    Sight(a.table[e := SettledRecord(a.table[e], o, s)], a.queue + JobsFor(e, a.table[e].reactions))
  }

  function WithHandled(a: Sight, q: Id): Sight
    requires q in a.table
  {
    a.(table := a.table[q := a.table[q].(state := HandledState(a.table[q].state))])
  }

  /** A new promise waits for q. */
  ghost predicate Waits(a: Sight, b: Sight, q: Id) {
    && q in a.table && b.queue == a.queue
    && exists target :: target !in a.table &&
         b.table == a.table[target := Promise(Unresolved, Plain(0), [], false, None)]
                           [q := a.table[q].(reactions := a.table[q].reactions + [target])]
  }

  /** What resolving e does when it does not throw: nothing to a settled promise; otherwise e takes
      the value, follows the settled or waits for the unsettled promise it is resolved with, or does
      what the first act of a foreign `then` makes it do. */
  ghost predicate Effect(a: Sight, b: Sight, e: Id, o: State, s: Value)
    decreases s, 0
  {
    && e in a.table && Ready(a.table[e])
    && if Settled(a.table[e]) then b == a
       else
         match s
         case Plain(_) => b == Stored(a, e, o, s)
         case BadThen(u) => Effect(a, b, e, Rejected, u)
         case OfPromise(q) =>
           if o.Rejected? then b == Stored(a, e, o, s)
           else
             && q in a.table && q != e
             && if Settled(a.table[q]) then
                  b == Stored(WithHandled(a, q), e, HandledState(a.table[q].state), a.table[q].value)
                else Waits(a, b, q)
         case Thenable(script) =>
           if o.Rejected? then b == Stored(a, e, o, s) else ScriptEffect(a, b, e, script)
  }

  ghost predicate ScriptEffect(a: Sight, b: Sight, e: Id, script: Script)
    decreases script, 0
  {
    match script
    case Return => b == a
    case Throw(u) => Effect(a, b, e, Rejected, u)
    case Call(fulfil, v, _) => CaughtEffect(a, b, e, if fulfil then Resolved else Rejected, v)
  }

  /** A circular resolution that throws has marked the rejection of another promise as handled at most. */
  function Thrown(a: Sight, e: Id, s: Value): Sight {
    if s.OfPromise? && s.id != e && s.id in a.table && e in a.table && !Settled(a.table[e]) then WithHandled(a, s.id)
    else a
  }

  /** With `Z` around it: a circular resolution rejects the promise with the type error. */
  ghost predicate CaughtEffect(a: Sight, b: Sight, e: Id, o: State, s: Value)
    decreases s, 1
  {
    if e in a.table && !Settled(a.table[e]) && Circular(a.table, e, o, s) then
      var c := Thrown(a, e, s);
      e in c.table && Ready(c.table[e]) && b == Stored(c, e, Rejected, Plain(TYPE_ERROR))
    else e in a.table && if Settled(a.table[e]) then b == a else Effect(a, b, e, o, s)
  }

  /** What a promise becomes: an ordinary one takes state and value, and is rejected without catch
      exactly when it is rejected and nobody waits for it; a `finally` promise that is resolved takes
      what it has stored. Nobody waits any more. */
  ghost predicate Takes(before: Promise, after: Promise, o: State, s: Value) {
    && after.reactions == []
    && if before.isFinally && o.Resolved? then before.parent == Some((after.state, after.value))
       else
         && after.value == s
         && (after.state.RejectedNoCatch? <==> o.Rejected? && before.reactions == [])
         && (!after.state.RejectedNoCatch? ==> after.state == o)
  }

  /** What a value comes to: an object whose `then` cannot be read stands for a rejection with the
      error, and a foreign `then` for what it does first. */
  function FirstAct(o: State, s: Value): (State, Value)
    decreases s
  {
    match s
    case BadThen(u) => FirstAct(Rejected, u)
    case Thenable(script) =>
      if o.Rejected? then (o, s)
      else
        (match script
         case Return => (o, s)
         case Throw(u) => FirstAct(Rejected, u)
         case Call(fulfil, v, _) => FirstAct(if fulfil then Resolved else Rejected, v))
    case _ => (o, s)
  }

  /** Promise q has been rejected with promise e. */
  predicate RejectedWith(table: Table, q: Id, e: Id) {
    q in table && table[q].state in {Rejected, RejectedNoCatch} && table[q].value == OfPromise(e)
  }

  /** What an unresolved promise e has become. */
  ghost predicate Becomes(a: Sight, b: Sight, e: Id, o: State, s: Value) {
    && e in a.table && e in b.table
    && var (o', s') := FirstAct(o, s);
       if s' == OfPromise(e) || (o'.Resolved? && s'.OfPromise? && RejectedWith(a.table, s'.id, e)) then
         Takes(a.table[e], b.table[e], Rejected, Plain(TYPE_ERROR)) && Scheduled(a, b, e)
       else if o'.Resolved? && s'.OfPromise? then
         && s'.id in a.table && s'.id in b.table
         && var q := a.table[s'.id];
            if q.state.Unresolved? then b.table[e] == a.table[e] && Waits(a, b, s'.id)
            else
              && b.table[s'.id].value == q.value && !b.table[s'.id].state.RejectedNoCatch?
              && Takes(a.table[e], b.table[e], if q.state.Resolved? then Resolved else Rejected, q.value)
              && Scheduled(a, b, e)
       else if o'.Resolved? && s'.Thenable? then b == a
       else Takes(a.table[e], b.table[e], o', s') && Scheduled(a, b, e)
  }

  ghost predicate Scheduled(a: Sight, b: Sight, e: Id)
    requires e in a.table
  {
    |b.queue| == |a.queue| + |a.table[e].reactions| && a.queue <= b.queue
    && forall i :: 0 <= i < |a.table[e].reactions| ==> b.queue[|a.queue| + i] == Job(e, a.table[e].reactions[i])
  }

  /** A resolution that does not throw, or whose exception is caught, gives the promise that. */
  lemma {:induction false} EffectMeans(a: Sight, b: Sight, e: Id, o: State, s: Value)
    requires Effect(a, b, e, o, s) && !Circular(a.table, e, o, s) && !Settled(a.table[e])
    requires o.Resolved? || o.Rejected?
    ensures Becomes(a, b, e, o, s)
    decreases s, 0
  {
    match s
    case Plain(_) =>
    case OfPromise(_) =>
    case BadThen(u) => EffectMeans(a, b, e, Rejected, u);
    case Thenable(script) =>
      if o.Resolved? {
        match script {
          case Return =>
          case Throw(u) => EffectMeans(a, b, e, Rejected, u);
          case Call(fulfil, v, _) => CaughtMeans(a, b, e, if fulfil then Resolved else Rejected, v);
        }
      }
  }

  lemma {:induction false} CaughtMeans(a: Sight, b: Sight, e: Id, o: State, s: Value)
    requires CaughtEffect(a, b, e, o, s) && !Settled(a.table[e])
    requires o.Resolved? || o.Rejected?
    ensures Becomes(a, b, e, o, s)
    decreases s, 1
  {
    if Circular(a.table, e, o, s) {
      CircularMeans(a.table, e, o, s);
    } else {
      EffectMeans(a, b, e, o, s);
    }
  }

  /** A circular resolution comes to the promise itself, or to one rejected with it. */
  lemma {:induction false} CircularMeans(table: Table, e: Id, o: State, s: Value)
    requires Circular(table, e, o, s) && (o.Resolved? || o.Rejected?)
    ensures var (o', s') := FirstAct(o, s);
            s' == OfPromise(e) || (o'.Resolved? && s'.OfPromise? && RejectedWith(table, s'.id, e))
    decreases s
  {
    match s
    case BadThen(u) => CircularMeans(table, e, Rejected, u);
    case Thenable(script) => if o.Resolved? { CircularMeans(table, e, Rejected, script.error); }
    case _ =>
  }

  datatype Op =
    | Construct
    | Chain(e: Id, isFinally: bool)            // then, catch, finally
    | Settling(e: Id, o: State, s: Value, caught: bool)  // resolve or reject, with any value
    | Late(g: nat, fulfil: bool, s: Value)     // a guarded callback is called later
    | Pass(e: Id, target: Id)                  // a finally reaction stores what it passes on
    | Drained                                  // an uncaught rejection is reported

  class Promises {
    var table: Table
    var queue: seq<Job>
    var guards: map<nat, Guard>
    var uncaught: seq<Id>
    ghost var reported: seq<Id>              // uncaught rejections that have been reported
    var nextId: nat                          // identities not in use
    ghost var registered: map<Id, seq<Id>>   // every reaction ever registered, per promise

    ghost predicate Valid()
      reads this
    {
      Sound(table, registered, queue, guards, uncaught, reported, nextId)
    }

    ghost function Seen(): Sight
      reads `table, `queue
    {
      Sight(table, queue)
    }

    ghost function Now(): Moment
      reads `table, `guards, `registered, `reported
    {
      Moment(table, guards, registered, reported)
    }

    constructor ()
      ensures Valid() && table == map[] && queue == []
    {
      reported := [];
      table, queue, guards, uncaught, nextId, registered := map[], [], map[], [], 0, map[];
    }

    /** `new this.constructor(null)`: an unresolved promise. */
    method New(isFinally: bool) returns (p: Id)
      requires Valid()
      modifies `table, `nextId, `registered
      ensures Valid() && p !in old(table) && p == old(nextId) && nextId == p + 1
      ensures table == old(table)[p := Promise(Unresolved, Plain(0), [], isFinally, None)]
      ensures registered == old(registered)[p := []] && Later(old(Now()), Now())
    {
      hide Sound, Later;
      SoundNew(table, registered, queue, guards, uncaught, reported, nextId, isFinally);
      p := nextId;
      nextId := nextId + 1;
      table := table[p := Promise(Unresolved, Plain(0), [], isFinally, None)];
      registered := registered[p := []];
    }

    /** `j`: a promise whose rejection nobody had handled gets its first reaction. */
    method Handled(e: Id)
      requires Valid() && e in table
      modifies `table, `uncaught
      ensures Valid() && Later(old(Now()), Now()) && table.Keys == old(table).Keys
      ensures table == old(table)[e := old(table)[e].(state := HandledState(old(table)[e].state))]
      ensures if old(table)[e].state.RejectedNoCatch? then table[e].state == Rejected && e !in uncaught
              else table == old(table) && uncaught == old(uncaught)
    {
      hide Sound, Later, JobsOf;
      SoundAt(table, registered, queue, guards, uncaught, reported, nextId, e);
      if table[e].state == RejectedNoCatch {
        ghost var listed := uncaught;
        RemoveUncaught(e);
        SoundUpdate(table, registered, queue, guards, listed, reported, nextId,
                    e, table[e].(state := Rejected), registered[e], [], uncaught);
        table := table[e := table[e].(state := Rejected)];
      } else {
        NotLater(Now());
      }
    }

    /** The loop of `j` over the uncaught rejections: it removes at an index and goes on after it,
        which is enough because the list holds a promise at most once. */
    method RemoveUncaught(e: Id)
      requires Distinct(uncaught)
      modifies `uncaught
      ensures Distinct(uncaught) && forall p :: p in uncaught <==> p in old(uncaught) && p != e
    {
      var t := 0;
      while t < |uncaught|
        invariant 0 <= t && Distinct(uncaught)
        invariant forall i :: 0 <= i < t && i < |uncaught| ==> uncaught[i] != e
        invariant e !in uncaught || uncaught == old(uncaught)
        invariant forall p :: p != e ==> (p in uncaught <==> p in old(uncaught))
        decreases |uncaught| - t
      {
        if uncaught[t] == e {
          RemovedAt(uncaught, t);
          uncaught := uncaught[..t] + uncaught[t + 1..];
        }
        t := t + 1;
      }
    }

    /** `C` on a settled promise: mark its rejection handled, and schedule the reaction. */
    method React(e: Id, target: Id)
      requires Valid() && e in table && Settled(table[e])
      modifies `table, `uncaught, `queue, `registered
      ensures Valid() && Later(old(Now()), Now()) && table.Keys == old(table).Keys
      ensures queue == old(queue) + [Job(e, target)]
      ensures registered == old(registered)[e := old(registered)[e] + [target]]
      ensures table == old(table)[e := old(table)[e].(state := HandledState(old(table)[e].state))]
    {
      hide Sound, Later, JobsOf;
      Handled(e);
      ghost var mid := Now();
      SoundAt(table, registered, queue, guards, uncaught, reported, nextId, e);
      SoundUpdate(table, registered, queue, guards, uncaught, reported, nextId,
                  e, table[e], registered[e] + [target], [target], uncaught);
      assert JobsFor(e, [target]) == [Job(e, target)];
      queue := queue + [Job(e, target)];
      registered := registered[e := registered[e] + [target]];
      LaterTransitive(old(Now()), mid, Now());
    }

    method Register(e: Id, target: Id)
      requires Valid() && e in table && !Settled(table[e])
      modifies `table, `registered
      ensures Valid() && Later(old(Now()), Now())
      ensures table == old(table)[e := old(table)[e].(reactions := old(table)[e].reactions + [target])]
      ensures registered == old(registered)[e := old(registered)[e] + [target]]
    {
      hide Sound, Later, JobsOf;
      var p := table[e].(reactions := table[e].reactions + [target]);
      SoundAt(table, registered, queue, guards, uncaught, reported, nextId, e);
      SoundUpdate(table, registered, queue, guards, uncaught, reported, nextId,
                  e, p, registered[e] + [target], [], uncaught);
      table := table[e := p];
      registered := registered[e := registered[e] + [target]];
    }

    /** `then` and `finally`: register a reaction, or schedule it at once when settled. */
    method Then(e: Id, isFinally: bool) returns (target: Id)
      requires Valid() && e in table
      modifies `table, `uncaught, `queue, `registered, `nextId
      ensures Valid() && Later(old(Now()), Now()) && target !in old(table)
      ensures table.Keys == old(table).Keys + {target}
      ensures registered == old(registered)[target := []][e := old(registered)[e] + [target]]
      ensures var p := old(table)[e]; var waiting := Promise(Unresolved, Plain(0), [], isFinally, None);
              table == old(table)[target := waiting]
                         [e := if Settled(p) then p.(state := HandledState(p.state))
                               else p.(reactions := p.reactions + [target])]
      ensures queue == old(queue) + if Settled(old(table)[e]) then [Job(e, target)] else []
      ensures !table[e].state.RejectedNoCatch?
    {
      hide Sound, Later;
      SoundAt(table, registered, queue, guards, uncaught, reported, nextId, e);
      target := New(isFinally);
      ghost var mid := Now();
      if table[e].state == Unresolved {
        Register(e, target);
      } else {
        React(e, target);
      }
      LaterTransitive(old(Now()), mid, Now());
    }

    /** The settling branch of `P`: store state and value, then schedule the reactions in order. */
    method Settle(e: Id, o: State, s: Value)
      requires Valid() && e in table && !Settled(table[e]) && Ready(table[e])
      requires (o.Resolved? || o.Rejected?) && Storable(o, s)
      modifies `table, `uncaught, `queue
      ensures e in table && Takes(old(table)[e], table[e], o, s) && Scheduled(old(Seen()), Seen(), e)
      ensures uncaught == old(uncaught) + if o.Rejected? && old(table)[e].reactions == [] then [e] else []
      ensures Valid() && Later(old(Now()), Now()) && Settled(table[e]) && table.Keys == old(table).Keys
      ensures queue == old(queue) + JobsFor(e, old(table)[e].reactions)
      ensures table == old(table)[e := SettledRecord(old(table)[e], o, s)]
    {
      hide Sound, Later, JobsOf;
      var p := table[e];
      var settled := SettledRecord(p, o, s);
      SoundAt(table, registered, queue, guards, uncaught, reported, nextId, e);
      SettledRecordOk(p, o, s, registered[e], JobsOf(queue, e));
      SoundUpdate(table, registered, queue, guards, uncaught, reported, nextId, e, settled, registered[e], p.reactions,
                  if settled.state.RejectedNoCatch? then uncaught + [e] else uncaught);
      ScheduleAll(e, p.reactions);
      if settled.state == RejectedNoCatch {
        uncaught := uncaught + [e];  // reported when the queue has drained
      }
      table := table[e := settled];
    }

    /** The loop of `P` over the waiting reactions. */
    method ScheduleAll(e: Id, a: seq<Id>)
      modifies `queue
      ensures queue == old(queue) + JobsFor(e, a)
    {
      assert JobsFor(e, a[..0]) == [] && queue + [] == queue;
      for t := 0 to |a|
        invariant queue == old(queue) + JobsFor(e, a[..t])
      {
        assert JobsFor(e, a[..t + 1]) == JobsFor(e, a[..t]) + [Job(e, a[t])];
        queue := queue + [Job(e, a[t])];
      }
      assert a[..|a|] == a;
    }

    /** `S`: a guard that lets one of several callbacks through, once. */
    method NewGuard(e: Id) returns (g: nat)
      requires Valid() && e in table && Ready(table[e])
      modifies `guards, `nextId
      ensures Valid() && g !in old(guards) && guards == old(guards)[g := Guard(false, e)]
      ensures Later(old(Now()), Now())
    {
      hide Sound, Later;
      SoundGuard(table, registered, queue, guards, uncaught, reported, nextId, e);
      g := nextId;
      nextId := nextId + 1;
      guards := guards[g := Guard(false, e)];
    }

    /** `P`: resolve (o == Resolved) or reject a promise with a value. It throws exactly when that
        is circular, and does nothing to a settled promise. */
    method Resolve(e: Id, o: State, s: Value) returns (threw: bool)
      requires Valid() && e in table && Ready(table[e]) && (o.Resolved? || o.Rejected?)
      requires o.Resolved? ==> Known(s, table.Keys)
      modifies this
      ensures Valid() && Later(old(Now()), Now())
      ensures threw == Circular(old(table), e, o, s)
      ensures if threw then Seen() == Thrown(old(Seen()), e, s) else Effect(old(Seen()), Seen(), e, o, s)
      ensures !threw && !Settled(old(table)[e]) ==> Becomes(old(Seen()), Seen(), e, o, s)
      ensures s == OfPromise(e) || Settled(old(table)[e]) ==> Seen() == old(Seen()) && registered == old(registered)
      decreases Weight(o, s), 0
    {
      hide Sound, Later, Becomes, Takes, Scheduled;
      NotLater(Now());
      if s == OfPromise(e) { return true; }
      threw := false;
      if table[e].state != Unresolved { return; }
      match s {
        case BadThen(u) =>
          threw := ResolveGuarded(e, u);
        case OfPromise(q) =>
          if o == Rejected {
            Settle(e, o, s);
          } else if table[q].state != Unresolved {
            SoundAt(table, registered, queue, guards, uncaught, reported, nextId, q);
            Handled(q);
            ghost var mid := Now();
            threw := Resolve(e, table[q].state, table[q].value);
            LaterTransitive(old(Now()), mid, Now());
          } else {
            AdoptPending(e, q);
          }
        case Thenable(script) =>
          if o == Rejected {
            Settle(e, o, s);
          } else {
            threw := RunThenable(e, script);
          }
        case Plain(_) => Settle(e, o, s);
      }
      if !threw { EffectMeans(old(Seen()), Seen(), e, o, s); }
    }

    /** Reject with an error, under a guard nobody else holds. */
    method ResolveGuarded(e: Id, u: Value) returns (threw: bool)
      requires Valid() && e in table && Ready(table[e])
      modifies this
      ensures Valid() && Later(old(Now()), Now())
      ensures threw == Circular(old(table), e, Rejected, u)
      ensures if threw then Seen() == Thrown(old(Seen()), e, u) else Effect(old(Seen()), Seen(), e, Rejected, u)
      decreases Weight(Rejected, u), 1
    {
      threw := Resolve(e, Rejected, u);
    }

    /** `Z`: resolve, and reject with the error when that throws. */
    method ResolveCatching(e: Id, o: State, s: Value)
      requires Valid() && e in table && Ready(table[e]) && (o.Resolved? || o.Rejected?)
      requires o.Resolved? ==> Known(s, table.Keys)
      modifies this
      ensures Valid() && Later(old(Now()), Now())
      ensures CaughtEffect(old(Seen()), Seen(), e, o, s)
      ensures !Settled(old(table)[e]) ==> Becomes(old(Seen()), Seen(), e, o, s)
      decreases Weight(o, s), 2
    {
      hide Sound, Later, Becomes, Takes, Scheduled;
      var threw := Resolve(e, o, s);
      ghost var mid := Now();
      if threw {
        ReadyStill(old(Now()), mid, e);
        threw := Resolve(e, Rejected, Plain(TYPE_ERROR));
        LaterTransitive(old(Now()), mid, Now());
      }
      if !Settled(old(table)[e]) { CaughtMeans(old(Seen()), Seen(), e, o, s); }
    }

    method Claim(g: nat) returns (first: bool)
      requires Valid() && g in guards
      modifies `guards
      ensures Valid() && first == !old(guards)[g].called
      ensures guards == old(guards)[g := Guard(true, old(guards)[g].promise)]
      ensures Later(old(Now()), Now())
      ensures guards[g].promise in table && Ready(table[guards[g].promise])
    {
      hide Sound, Later;
      SoundClaim(table, registered, queue, guards, uncaught, reported, nextId, g);
      first := !guards[g].called;
      guards := guards[g := guards[g].(called := true)];
    }

    /** A guarded callback, called by foreign code at any time. */
    method CallOnce(g: nat, fulfil: bool, s: Value)
      requires Valid() && g in guards && (fulfil ==> Known(s, table.Keys))
      modifies this
      ensures Valid() && Later(old(Now()), Now())
      ensures if old(guards)[g].called then Seen() == old(Seen())
              else CaughtEffect(old(Seen()), Seen(), old(guards)[g].promise, if fulfil then Resolved else Rejected, s)
      ensures !old(guards)[g].called && !Settled(old(table)[old(guards)[g].promise]) ==>
                Becomes(old(Seen()), Seen(), old(guards)[g].promise, if fulfil then Resolved else Rejected, s)
      ensures g in guards && guards[g] == Guard(true, old(guards)[g].promise)
      decreases Weight(if fulfil then Resolved else Rejected, s), 3
    {
      hide Sound, Later, Becomes;
      var first := Claim(g);
      ghost var mid := Now();
      NotLater(mid);
      if first {
        ResolveCatching(guards[g].promise, if fulfil then Resolved else Rejected, s);
      }
      LaterAt(mid, Now(), g);
      LaterTransitive(old(Now()), mid, Now());
    }

    /** Adopt an unresolved promise: register a reaction that will resolve this one. */
    method AdoptPending(e: Id, q: Id)
      requires Valid() && e in table && q in table && e != q && !Settled(table[e]) && !Settled(table[q])
      requires Ready(table[e])
      modifies this
      ensures Valid() && Later(old(Now()), Now())
      ensures Waits(old(Seen()), Seen(), q)
    {
      hide Sound, Later;
      var g := NewGuard(e);
      ghost var mid := Now();
      var target := Then(q, false);
      LaterTransitive(old(Now()), mid, Now());
    }

    method RunThenable(e: Id, script: Script) returns (threw: bool)
      requires Valid() && e in table && Ready(table[e]) && KnownScript(script, table.Keys)
      modifies this
      ensures Valid() && Later(old(Now()), Now())
      ensures threw == (script.Throw? && Circular(old(table), e, Rejected, script.error))
      ensures if threw then Seen() == Thrown(old(Seen()), e, script.error)
              else ScriptEffect(old(Seen()), Seen(), e, script)
      decreases ScriptWeight(script), 5
    {
      hide Sound, Later;
      var g := NewGuard(e);
      ghost var mid := Now();
      threw := RunScript(g, script);
      LaterTransitive(old(Now()), mid, Now());
    }

    /** A foreign `then` runs: its callbacks share one guard with the error path. */
    method RunScript(g: nat, script: Script) returns (threw: bool)
      requires Valid() && g in guards && KnownScript(script, table.Keys)
      modifies this
      ensures Valid() && Later(old(Now()), Now())
      ensures var e := old(guards)[g].promise;
              && threw == (script.Throw? && !old(guards)[g].called && Circular(old(table), e, Rejected, script.error))
              && if old(guards)[g].called then Seen() == old(Seen())
                 else if threw then Seen() == Thrown(old(Seen()), e, script.error)
                 else ScriptEffect(old(Seen()), Seen(), e, script)
      decreases ScriptWeight(script), 4
    {
      hide Sound, Later;
      NotLater(Now());
      match script
      case Return => threw := false;
      case Throw(u) =>
        threw := CallOnceRaw(g, u);
      case Call(fulfil, s, rest) =>
        CallOnce(g, fulfil, s);
        ghost var mid := Now();
        LaterAt(old(Now()), mid, g);
        KnownScriptMore(rest, old(table).Keys, table.Keys);
        threw := RunScript(g, rest);
        LaterTransitive(old(Now()), mid, Now());
    }

    /** The error path: reject under the guard, without catching. */
    method CallOnceRaw(g: nat, u: Value) returns (threw: bool)
      requires Valid() && g in guards
      modifies this
      ensures Valid() && Later(old(Now()), Now())
      ensures var e := old(guards)[g].promise;
              && threw == (!old(guards)[g].called && Circular(old(table), e, Rejected, u))
              && if old(guards)[g].called then Seen() == old(Seen())
                 else if threw then Seen() == Thrown(old(Seen()), e, u)
                 else Effect(old(Seen()), Seen(), e, Rejected, u)
      decreases Weight(Rejected, u), 3
    {
      hide Sound, Later;
      var first := Claim(g);
      ghost var mid := Now();
      NotLater(mid);
      threw := false;
      if first {
        threw := Resolve(guards[g].promise, Rejected, u);
      }
      LaterAt(mid, Now(), g);
      LaterTransitive(old(Now()), mid, Now());
    }

    /** The reaction of a `finally` promise stores what the settled promise passes on. */
    method PassOn(e: Id, target: Id)
      requires Valid() && e in table && target in table
      requires (table[e].state.Resolved? || table[e].state.Rejected?) && !Settled(table[target])
      modifies `table
      ensures Valid() && Later(old(Now()), Now())
      ensures table == old(table)[target := old(table)[target].(parent := Some((table[e].state, table[e].value)))]
    {
      hide Sound, Later, JobsOf;
      var p := table[target].(parent := Some((table[e].state, table[e].value)));
      SoundAt(table, registered, queue, guards, uncaught, reported, nextId, e);
      SoundAt(table, registered, queue, guards, uncaught, reported, nextId, target);
      SoundUpdate(table, registered, queue, guards, uncaught, reported, nextId,
                  target, p, registered[target], [], uncaught);
      table := table[target := p];
    }

    /** `microtaskDrainDone` takes one uncaught rejection to report it. */
    method Report()
      requires Valid() && uncaught != []
      modifies `uncaught, `reported
      ensures Valid() && Later(old(Now()), Now())
      ensures uncaught == old(uncaught)[1..] && reported == old(reported) + [old(uncaught)[0]]
    {
      hide Sound, Later;
      SoundReport(table, registered, queue, guards, uncaught, reported, nextId);
      reported := reported + [uncaught[0]];
      uncaught := uncaught[1..];
    }

    /** One operation on promises that exist; an operation that does not apply is skipped. */
    method Perform(op: Op)
      requires Valid()
      modifies this
      ensures Valid() && Later(old(Now()), Now())
    {
      hide Sound, Later, Circular;
      NotLater(Now());
      match op
      case Construct => var _ := New(false);
      case Chain(e, isFinally) => if e in table { var _ := Then(e, isFinally); }
      case Settling(e, o, s, caught) =>
        if e in table && Ready(table[e]) && (o.Resolved? || o.Rejected?) && Known(s, table.Keys) {
          if caught { ResolveCatching(e, o, s); } else { var _ := Resolve(e, o, s); }
        }
      case Late(g, fulfil, s) => if g in guards && Known(s, table.Keys) { CallOnce(g, fulfil, s); }
      case Pass(e, target) =>
        if e in table && target in table && table[e].state in {Resolved, Rejected} && !Settled(table[target]) {
          PassOn(e, target);
        }
      case Drained => if uncaught != [] { Report(); }
    }

    /** A whole run: a promise settles at most once and keeps its value, and every reaction that was
        registered is scheduled exactly once, in order, when its promise is settled. */
    method Run(ops: seq<Op>)
      requires Valid()
      modifies this
      ensures Valid() && Later(old(Now()), Now())
    {
      hide Sound, Later;
      NotLater(Now());
      for i := 0 to |ops|
        invariant Valid() && Later(old(Now()), Now())
      {
        ghost var mid := Now();
        Perform(ops[i]);
        LaterTransitive(old(Now()), mid, Now());
      }
    }
  }
}
