/** The webpack runtime of spring/rest/my-app: chunks arrive before or after the runtime starts,
    deferred entries wait for their chunks, and `require` caches a module before it runs it. */
module Chunks {
  type ModuleId = nat
  type ChunkId = nat

  /** What a module body does: require another module (catching its exception or not), or throw. */
  datatype Statement = Require(id: ModuleId) | TryRequire(id: ModuleId) | Throw
  type Body = seq<Statement>

  /** An entry module and the chunks it waits for. */
  datatype Deferred = Deferred(entry: ModuleId, chunks: seq<ChunkId>)

  datatype Chunk = Chunk(ids: seq<ChunkId>, modules: map<ModuleId, Body>, deferred: seq<Deferred>)

  predicate Ready(d: Deferred, loaded: set<ChunkId>) {
    forall f :: 0 <= f < |d.chunks| ==> d.chunks[f] in loaded
  }

  /** The chunk of the runtime itself counts as loaded. */
  function LoadedIds(chunks: seq<Chunk>): set<ChunkId> {
    if chunks == [] then {0}
    else LoadedIds(chunks[..|chunks| - 1]) + IdSet(chunks[|chunks| - 1].ids)
  }

  function IdSet(ids: seq<ChunkId>): set<ChunkId> {
    set c | c in ids
  }

  function AllDeferred(chunks: seq<Chunk>): seq<Deferred> {
    if chunks == [] then [] else AllDeferred(chunks[..|chunks| - 1]) + chunks[|chunks| - 1].deferred
  }

  lemma {:induction false} LastChunk(chunks: seq<Chunk>, chunk: Chunk)
    ensures LoadedIds(chunks + [chunk]) == LoadedIds(chunks) + IdSet(chunk.ids)
    ensures AllDeferred(chunks + [chunk]) == AllDeferred(chunks) + chunk.deferred
    ensures multiset(AllDeferred(chunks + [chunk])) == multiset(AllDeferred(chunks)) + multiset(chunk.deferred)
  {
    assert (chunks + [chunk])[..|chunks|] == chunks;
  }

  /** The entries that must have been started once the chunks have arrived, with multiplicity. */
  ghost predicate StartedExactly(started: seq<Deferred>, chunks: seq<Chunk>) {
    forall d :: multiset(started)[d] == if Ready(d, LoadedIds(chunks)) then multiset(AllDeferred(chunks))[d] else 0
  }

  /** Every deferred entry of the chunks has been started or still waits, and only entries whose
      chunks are loaded have been started. */
  ghost predicate Accounts(started: seq<Deferred>, waiting: seq<Deferred>, loaded: set<ChunkId>, chunks: seq<Chunk>) {
    && loaded == LoadedIds(chunks)
    && multiset(started) + multiset(waiting) == multiset(AllDeferred(chunks))
    && (forall k :: 0 <= k < |started| ==> Ready(started[k], loaded))
  }

  lemma AccountsArrival(started: seq<Deferred>, waiting: seq<Deferred>, loaded: set<ChunkId>, chunks: seq<Chunk>,
                        chunk: Chunk)
    requires Accounts(started, waiting, loaded, chunks)
    ensures Accounts(started, waiting + chunk.deferred, loaded + IdSet(chunk.ids), chunks + [chunk])
  {
    LastChunk(chunks, chunk);
    assert multiset(waiting + chunk.deferred) == multiset(waiting) + multiset(chunk.deferred);
  }

  lemma AccountsStart(started: seq<Deferred>, waiting: seq<Deferred>, loaded: set<ChunkId>, chunks: seq<Chunk>, r: nat)
    requires Accounts(started, waiting, loaded, chunks) && r < |waiting| && Ready(waiting[r], loaded)
    ensures Accounts(started + [waiting[r]], waiting[..r] + waiting[r + 1..], loaded, chunks)
  {
    assert waiting == waiting[..r] + [waiting[r]] + waiting[r + 1..];
    assert multiset(waiting) == multiset(waiting[..r] + waiting[r + 1..]) + multiset{waiting[r]};
  }

  lemma {:induction false} MiddleChunk(a: seq<Chunk>, c: Chunk, b: seq<Chunk>)
    ensures LoadedIds(a + [c] + b) == LoadedIds(a + b) + IdSet(c.ids)
    ensures multiset(AllDeferred(a + [c] + b)) == multiset(AllDeferred(a + b)) + multiset(c.deferred)
    decreases |b|
  {
    hide LoadedIds, AllDeferred, IdSet;
    if b == [] {
      LastChunk(a, c);
      assert a + [c] + b == a + [c] && a + b == a;
    } else {
      var front, last := b[..|b| - 1], b[|b| - 1];
      MiddleChunk(a, c, front);
      LastChunk(a + [c] + front, last);
      LastChunk(a + front, last);
      Regrouped(a, c, b);
    }
  }

  lemma Regrouped(a: seq<Chunk>, c: Chunk, b: seq<Chunk>)
    requires b != []
    ensures a + [c] + b == (a + [c] + b[..|b| - 1]) + [b[|b| - 1]] && a + b == (a + b[..|b| - 1]) + [b[|b| - 1]]
  {
  }

  lemma WithoutOne(b: seq<Chunk>, i: nat)
    requires i < |b|
    ensures b == b[..i] + [b[i]] + b[i + 1..]
    ensures multiset(b[..i] + b[i + 1..]) == multiset(b) - multiset{b[i]}
  {
    assert b == b[..i] + [b[i]] + b[i + 1..];
    assert multiset(b) == multiset(b[..i] + b[i + 1..]) + multiset{b[i]};
  }

  lemma {:induction false} SameChunks(a: seq<Chunk>, b: seq<Chunk>)
    requires multiset(a) == multiset(b)
    ensures LoadedIds(a) == LoadedIds(b) && multiset(AllDeferred(a)) == multiset(AllDeferred(b))
    decreases |a|
  {
    hide *;
    if a == [] {
      assert |b| == |multiset(b)| == |multiset(a)| == 0;
    } else {
      var front, last := a[..|a| - 1], a[|a| - 1];
      var i := Occurrence(a, b);
      WithoutLast(a);
      WithoutOne(b, i);
      SameChunks(front, b[..i] + b[i + 1..]);
      MiddleChunk(b[..i], last, b[i + 1..]);
      LastChunk(front, last);
    }
  }

  lemma Occurrence(a: seq<Chunk>, b: seq<Chunk>) returns (i: nat)
    requires a != [] && multiset(a) == multiset(b)
    ensures i < |b| && b[i] == a[|a| - 1]
  {
    assert a[|a| - 1] in multiset(b);
    i :| 0 <= i < |b| && b[i] == a[|a| - 1];
  }

  lemma WithoutLast(a: seq<Chunk>)
    requires a != []
    ensures a == a[..|a| - 1] + [a[|a| - 1]] && multiset(a[..|a| - 1]) == multiset(a) - multiset{a[|a| - 1]}
  {
    assert a == a[..|a| - 1] + [a[|a| - 1]];
    assert multiset(a) == multiset(a[..|a| - 1]) + multiset{a[|a| - 1]};
  }

  /** The arrival order of the chunks does not matter. */
  lemma OrderIndependent(a: seq<Chunk>, b: seq<Chunk>)
    requires multiset(a) == multiset(b)
    ensures LoadedIds(a) == LoadedIds(b) && multiset(AllDeferred(a)) == multiset(AllDeferred(b))
    ensures forall started :: StartedExactly(started, a) <==> StartedExactly(started, b)
  {
    hide LoadedIds, AllDeferred;
    SameChunks(a, b);
  }
}

/** What requiring modules and taking in chunks does, step by step. */
module Loading {
  import opened Common
  import opened Chunks

  type Modules = map<ModuleId, Body>
  type Cache = map<ModuleId, bool>  // the cached modules, with the flag `l`

  /** Caching only grows, and the flags of cached modules stay. */
  ghost predicate Extends(before: Cache, after: Cache) {
    forall m :: m in before ==> m in after && after[m] == before[m]
  }

  /** The number of modules that can still be loaded. */
  function Unloaded(modules: Modules, cache: Cache): nat {
    |modules.Keys - cache.Keys|
  }

  lemma MeasureShrinks(modules: Modules, before: Cache, after: Cache)
    requires Extends(before, after)
    ensures Unloaded(modules, after) <= Unloaded(modules, before)
  {
    SubsetSize(modules.Keys - after.Keys, modules.Keys - before.Keys);
  }

  lemma MeasureDrops(modules: Modules, cache: Cache, id: ModuleId)
    requires id in modules && id !in cache
    ensures Unloaded(modules, cache[id := false]) < Unloaded(modules, cache)
  {
    assert modules.Keys - cache[id := false].Keys == (modules.Keys - cache.Keys) - {id};
  }

  lemma {:induction false} SubsetSize(a: set<ModuleId>, b: set<ModuleId>)
    requires a <= b
    ensures |a| <= |b|
    decreases b
  {
    if x :| x in b {
      SubsetSize(a - {x}, b - {x});
      if x in a { assert |a - {x}| == |a| - 1; } else { assert a - {x} == a; }
    }
  }

  // ---------------------------------------------------------------- require

  /** Whether no exception gets out, the cache afterwards, the bodies run, in order, and the
      modules that were not in the table when they were first required. */
  datatype Outcome = Outcome(ok: bool, cache: Cache, log: seq<ModuleId>, missed: seq<ModuleId>)

  /** `l`: a module is cached before its body runs, and before it turns out to be absent. */
  function Load(modules: Modules, cache: Cache, id: ModuleId): (r: Outcome)
    ensures Extends(cache, r.cache) && id in r.cache
    decreases Unloaded(modules, cache), 0
  {
    if id in cache then Outcome(true, cache, [], [])
    else if id !in modules then Outcome(false, cache[id := false], [], [id])
    else
      MeasureDrops(modules, cache, id);
      var r := Execute(modules, cache[id := false], modules[id]);
      Outcome(r.ok, if r.ok then r.cache[id := true] else r.cache, [id] + r.log, r.missed)
  }

  /** The body of a module: its statements in order, up to the first exception it does not catch. */
  function Execute(modules: Modules, cache: Cache, body: Body): (r: Outcome)
    ensures Extends(cache, r.cache)
    decreases Unloaded(modules, cache), 1 + |body|
  {
    if body == [] then Outcome(true, cache, [], [])
    else if body[0].Throw? then Outcome(false, cache, [], [])
    else
      var first := Load(modules, cache, body[0].id);
      if body[0].Require? && !first.ok then first
      else
        MeasureShrinks(modules, cache, first.cache);
        var rest := Execute(modules, first.cache, body[1..]);
        rest.(log := first.log + rest.log, missed := first.missed + rest.missed)
  }

  /** The cases of `Load` and `Execute`. */
  lemma LoadCases(modules: Modules, cache: Cache, id: ModuleId)
    ensures id in cache ==> Load(modules, cache, id) == Outcome(true, cache, [], [])
    ensures id !in cache && id !in modules ==> Load(modules, cache, id) == Outcome(false, cache[id := false], [], [id])
    ensures id !in cache && id in modules ==>
              && Unloaded(modules, cache[id := false]) < Unloaded(modules, cache)
              && var r := Execute(modules, cache[id := false], modules[id]);
                 Load(modules, cache, id) ==
                 Outcome(r.ok, if r.ok then r.cache[id := true] else r.cache, [id] + r.log, r.missed)
  {
    hide Execute;
    if id !in cache && id in modules { MeasureDrops(modules, cache, id); }
  }

  lemma ExecuteCases(modules: Modules, cache: Cache, body: Body)
    ensures body == [] ==> Execute(modules, cache, body) == Outcome(true, cache, [], [])
    ensures body != [] && body[0].Throw? ==> Execute(modules, cache, body) == Outcome(false, cache, [], [])
    ensures body != [] && !body[0].Throw? ==>
              var first := Load(modules, cache, body[0].id);
              var rest := Execute(modules, first.cache, body[1..]);
              && Unloaded(modules, first.cache) <= Unloaded(modules, cache)
              && Execute(modules, cache, body) ==
                 if body[0].Require? && !first.ok then first
                 else rest.(log := first.log + rest.log, missed := first.missed + rest.missed)
  {
    hide Load;
    if body != [] && !body[0].Throw? { MeasureShrinks(modules, cache, Load(modules, cache, body[0].id).cache); }
  }

  lemma Regroup(a: seq<ModuleId>, b: seq<ModuleId>, c: seq<ModuleId>)
    ensures (a + b) + c == a + (b + c)
  {
  }

  /** The newly cached modules are those whose bodies have run and those that were absent; each is
      one or the other, once. */
  ghost predicate Once(before: Cache, log: seq<ModuleId>, missed: seq<ModuleId>, after: Cache) {
    && Distinct(log) && Distinct(missed) && (forall m :: m in log ==> m !in missed)
    && forall m :: m in log || m in missed <==> m in after && m !in before
  }

  /** Bodies run are in the table, and modules missed are not. */
  ghost predicate Seen(modules: Modules, log: seq<ModuleId>, missed: seq<ModuleId>) {
    (forall m :: m in log ==> m in modules) && forall m :: m in missed ==> m !in modules
  }

  predicate Requires(body: Body, id: ModuleId) {
    Statement.Require(id) in body || TryRequire(id) in body
  }

  /** What a module that finished loading in between requires has been cached. */
  ghost predicate Closed(modules: Modules, before: Cache, after: Cache) {
    forall m, d :: m in after && m !in before && after[m] && m in modules && Requires(modules[m], d) ==> d in after
  }

  lemma DistinctConcat(a: seq<ModuleId>, b: seq<ModuleId>)
    requires Distinct(a) && Distinct(b) && forall m :: m in a ==> m !in b
    ensures Distinct(a + b)
  {
    forall i, j | 0 <= i < j < |a + b| ensures (a + b)[i] != (a + b)[j] {
      if i < |a| <= j { assert a[i] in a && b[j - |a|] in b; }
    }
  }

  lemma OnceNext(a: Cache, log: seq<ModuleId>, missed: seq<ModuleId>, b: Cache,
                 log': seq<ModuleId>, missed': seq<ModuleId>, c: Cache)
    requires Once(a, log, missed, b) && Once(b, log', missed', c) && Extends(a, b) && Extends(b, c)
    ensures Once(a, log + log', missed + missed', c)
  {
    hide Distinct;
    DistinctConcat(log, log');
    DistinctConcat(missed, missed');
  }

  lemma OnceBegins(cache: Cache, id: ModuleId, log: seq<ModuleId>, missed: seq<ModuleId>, after: Cache)
    requires id !in cache && Once(cache[id := false], log, missed, after) && Extends(cache[id := false], after)
    ensures Once(cache, [id] + log, missed, after) && Once(cache, [id] + log, missed, after[id := true])
  {
    hide Distinct;
    assert id in cache[id := false];
    DistinctOne(id);
    DistinctConcat([id], log);
  }

  lemma DistinctOne(id: ModuleId)
    ensures Distinct([id]) && Distinct<ModuleId>([])
  {
  }

  lemma SeenNext(modules: Modules, log: seq<ModuleId>, missed: seq<ModuleId>,
                 log': seq<ModuleId>, missed': seq<ModuleId>)
    requires Seen(modules, log, missed) && Seen(modules, log', missed')
    ensures Seen(modules, log + log', missed + missed')
  {
  }

  lemma SeenBegins(modules: Modules, id: ModuleId, log: seq<ModuleId>, missed: seq<ModuleId>)
    requires Seen(modules, log, missed) && id in modules
    ensures Seen(modules, [id] + log, missed)
  {
  }

  lemma ClosedNext(modules: Modules, a: Cache, b: Cache, c: Cache)
    requires Closed(modules, a, b) && Closed(modules, b, c) && Extends(a, b) && Extends(b, c)
    ensures Closed(modules, a, c) && Extends(a, c)
  {
    forall m, d | m in c && m !in a && c[m] && m in modules && Requires(modules[m], d) ensures d in c {
      if m in b { assert b[m]; }
    }
  }

  lemma ClosedBegins(modules: Modules, cache: Cache, id: ModuleId, after: Cache, ok: bool)
    requires id !in cache && id in modules && Extends(cache[id := false], after)
    requires Closed(modules, cache[id := false], after) && (ok ==> forall d :: Requires(modules[id], d) ==> d in after)
    ensures Closed(modules, cache, if ok then after[id := true] else after)
  {
    assert id in cache[id := false];
  }

  lemma RequiresFirst(body: Body)
    requires body != []
    ensures forall d :: Requires(body, d) ==>
              body[0] == Statement.Require(d) || body[0] == TryRequire(d) || Requires(body[1..], d)
  {
    assert body == [body[0]] + body[1..];
  }

  /** Loading, of any module in any table, ends, runs the body of each newly cached module once
      unless the module is absent, and caches all that a finished module requires. */
  lemma {:induction false} LoadIsSound(modules: Modules, cache: Cache, id: ModuleId)
    ensures var r := Load(modules, cache, id);
            && Once(cache, r.log, r.missed, r.cache) && Seen(modules, r.log, r.missed)
            && Closed(modules, cache, r.cache)
    decreases Unloaded(modules, cache), 0
  {
    hide Once, Closed, Extends, Execute, Requires, Seen;
    Unchanged(modules, cache);
    if id !in cache && id !in modules {
      NothingLoaded(modules, cache, id);
    } else if id !in cache {
      EmptyModule(modules, cache, id);
      MeasureDrops(modules, cache, id);
      var r := Execute(modules, cache[id := false], modules[id]);
      ExecuteIsSound(modules, cache[id := false], modules[id]);
      OnceBegins(cache, id, r.log, r.missed, r.cache);
      SeenBegins(modules, id, r.log, r.missed);
      ClosedBegins(modules, cache, id, r.cache, r.ok);
    }
  }

  lemma {:induction false} ExecuteIsSound(modules: Modules, cache: Cache, body: Body)
    ensures var r := Execute(modules, cache, body);
            && Once(cache, r.log, r.missed, r.cache) && Seen(modules, r.log, r.missed)
            && Closed(modules, cache, r.cache)
            && (r.ok ==> forall d :: Requires(body, d) ==> d in r.cache)
    decreases Unloaded(modules, cache), 1 + |body|
  {
    hide *;
    Unchanged(modules, cache);
    ExecuteCases(modules, cache, body);
    NothingRequired(body);
    if body != [] && !body[0].Throw? {
      var first := Load(modules, cache, body[0].id);
      LoadIsSound(modules, cache, body[0].id);
      if !(body[0].Require? && !first.ok) {
        ExecuteIsSound(modules, first.cache, body[1..]);
        RestIsSound(modules, cache, first, body);
      }
    }
  }

  lemma RestIsSound(modules: Modules, cache: Cache, first: Outcome, body: Body)
    requires body != [] && !body[0].Throw? && body[0].id in first.cache
    requires Once(cache, first.log, first.missed, first.cache) && Seen(modules, first.log, first.missed)
    requires Closed(modules, cache, first.cache) && Extends(cache, first.cache)
    requires var rest := Execute(modules, first.cache, body[1..]);
             && Once(first.cache, rest.log, rest.missed, rest.cache) && Seen(modules, rest.log, rest.missed)
             && Closed(modules, first.cache, rest.cache)
             && (rest.ok ==> forall d :: Requires(body[1..], d) ==> d in rest.cache)
    ensures var rest := Execute(modules, first.cache, body[1..]);
            && Once(cache, first.log + rest.log, first.missed + rest.missed, rest.cache)
            && Seen(modules, first.log + rest.log, first.missed + rest.missed)
            && Closed(modules, cache, rest.cache)
            && (rest.ok ==> forall d :: Requires(body, d) ==> d in rest.cache)
  {
    hide *;
    var rest := Execute(modules, first.cache, body[1..]);
    OnceNext(cache, first.log, first.missed, first.cache, rest.log, rest.missed, rest.cache);
    SeenNext(modules, first.log, first.missed, rest.log, rest.missed);
    ClosedNext(modules, cache, first.cache, rest.cache);
    RequiresFirst(body);
    CachedStill(first.cache, rest.cache, body[0].id);
  }

  lemma NothingLoaded(modules: Modules, cache: Cache, id: ModuleId)
    requires id !in cache && id !in modules
    ensures Once(cache, [], [id], cache[id := false]) && Seen(modules, [], [id])
    ensures Closed(modules, cache, cache[id := false])
  {
  }

  lemma EmptyModule(modules: Modules, cache: Cache, id: ModuleId)
    requires id !in cache
    ensures Extends(cache, cache[id := false])
  {
  }

  lemma Unchanged(modules: Modules, cache: Cache)
    ensures Once(cache, [], [], cache) && Seen(modules, [], [])
    ensures Closed(modules, cache, cache) && Extends(cache, cache)
  {
  }

  lemma CachedStill(before: Cache, after: Cache, id: ModuleId)
    requires Extends(before, after) && id in before
    ensures id in after
  {
  }

  lemma NothingRequired(body: Body)
    ensures body == [] ==> forall d :: !Requires(body, d)
  {
  }

  /** A module that was not cached is marked as loaded exactly if it has loaded without an exception. */
  lemma LoadMarks(modules: Modules, cache: Cache, id: ModuleId)
    requires id !in cache
    ensures var r := Load(modules, cache, id); id in r.cache && r.cache[id] == r.ok
  {
    hide Execute;
    if id in modules {
      MeasureDrops(modules, cache, id);
      assert id in cache[id := false];
    }
  }

  /** A statement alone: a module is required, an exception of it caught or not, or one is thrown. */
  lemma OneStatement(modules: Modules, cache: Cache, id: ModuleId)
    ensures Execute(modules, cache, [Statement.Require(id)]) == Load(modules, cache, id)
    ensures Execute(modules, cache, [TryRequire(id)]) == Load(modules, cache, id).(ok := true)
    ensures !Execute(modules, cache, [Throw]).ok && Execute(modules, cache, [Throw]).cache == cache
  {
    hide Load;
    var l := Load(modules, cache, id);
    ExecuteCases(modules, cache, [Statement.Require(id)]);
    ExecuteCases(modules, cache, [TryRequire(id)]);
    ExecuteCases(modules, l.cache, []);
    assert [Statement.Require(id)][1..] == [] && [TryRequire(id)][1..] == [];
    assert l.log + [] == l.log && l.missed + [] == l.missed;
  }

  /** Statements follow one another, and none after the first exception that is not caught has any effect. */
  lemma {:induction false} StatementsInOrder(modules: Modules, cache: Cache, a: Body, b: Body)
    ensures var first := Execute(modules, cache, a);
            var second := Execute(modules, first.cache, b);
            Execute(modules, cache, a + b) ==
            if !first.ok then first
            else second.(log := first.log + second.log, missed := first.missed + second.missed)
    decreases |a|
  {
    hide *;
    ExecuteCases(modules, cache, a);
    if a == [] {
      assert a + b == b;
      RegroupNone(Execute(modules, cache, b));
    } else {
      ExecuteCases(modules, cache, a + b);
      assert (a + b)[1..] == a[1..] + b && (a + b)[0] == a[0];
      if !a[0].Throw? {
        var first := Load(modules, cache, a[0].id);
        StatementsInOrder(modules, first.cache, a[1..], b);
        var middle := Execute(modules, first.cache, a[1..]);
        var last := Execute(modules, middle.cache, b);
        Regroup(first.log, middle.log, last.log);
        Regroup(first.missed, middle.missed, last.missed);
      }
    }
  }

  lemma RegroupNone(r: Outcome)
    ensures r.(log := [] + r.log, missed := [] + r.missed) == r
  {
  }

  // ---------------------------------------------------------------- when require cannot fail

  /** A body that does not throw and requires only the given modules. */
  ghost predicate Sound(body: Body, ids: set<ModuleId>) {
    forall i :: 0 <= i < |body| ==> !body[i].Throw? && body[i].id in ids
  }

  /** Modules of the table that do not throw and require nothing but one another. */
  ghost predicate SelfContained(modules: Modules, ids: set<ModuleId>) {
    ids <= modules.Keys && forall m :: m in ids ==> Sound(modules[m], ids)
  }

  /** All that a module can reach is in the table, and none of it throws. */
  ghost predicate Supported(modules: Modules, id: ModuleId) {
    exists ids: set<ModuleId> :: id in ids && SelfContained(modules, ids)
  }

  /** A supported module loads without an exception and misses nothing, whatever has been cached,
      cycles included. */
  lemma {:induction false} LoadSucceeds(modules: Modules, cache: Cache, id: ModuleId, ids: set<ModuleId>)
    requires id in ids && SelfContained(modules, ids)
    ensures Load(modules, cache, id).ok && Load(modules, cache, id).missed == []
    decreases Unloaded(modules, cache), 0
  {
    hide Execute, Extends, Sound;
    if id !in cache {
      MeasureDrops(modules, cache, id);
      ExecuteSucceeds(modules, cache[id := false], modules[id], ids);
    }
  }

  lemma {:induction false} ExecuteSucceeds(modules: Modules, cache: Cache, body: Body, ids: set<ModuleId>)
    requires SelfContained(modules, ids) && Sound(body, ids)
    ensures Execute(modules, cache, body).ok && Execute(modules, cache, body).missed == []
    decreases Unloaded(modules, cache), 1 + |body|
  {
    hide *;
    ExecuteCases(modules, cache, body);
    SoundFirst(body, ids);
    if body != [] {
      LoadSucceeds(modules, cache, body[0].id, ids);
      ExecuteSucceeds(modules, Load(modules, cache, body[0].id).cache, body[1..], ids);
    }
  }

  lemma SoundFirst(body: Body, ids: set<ModuleId>)
    ensures body != [] && Sound(body, ids) ==> !body[0].Throw? && body[0].id in ids && Sound(body[1..], ids)
  {
  }

  /** No module catches the exception of another one. */
  ghost predicate NoCatch(modules: Modules) {
    forall m :: m in modules ==> Uncaught(modules[m])
  }

  ghost predicate Uncaught(body: Body) {
    forall i :: 0 <= i < |body| ==> !body[i].TryRequire?
  }

  /** What has been cached in between is in the table, does not throw and requires only what is cached. */
  ghost predicate Healthy(modules: Modules, before: Cache, after: Cache) {
    forall m :: m in after && m !in before ==> m in modules && Sound(modules[m], after.Keys)
  }

  lemma HealthyNext(modules: Modules, a: Cache, b: Cache, c: Cache)
    requires Healthy(modules, a, b) && Healthy(modules, b, c) && Extends(a, b) && Extends(b, c)
    ensures Healthy(modules, a, c)
  {
    assert b.Keys <= c.Keys;
    forall m | m in c && m !in a ensures m in modules && Sound(modules[m], c.Keys) {
      if m in b { assert Sound(modules[m], b.Keys); }
    }
  }

  lemma HealthyBegins(modules: Modules, cache: Cache, id: ModuleId, after: Cache)
    requires id !in cache && id in modules && Extends(cache[id := false], after)
    requires Healthy(modules, cache[id := false], after) && Sound(modules[id], after.Keys)
    ensures Healthy(modules, cache, after[id := true])
  {
    assert id in cache[id := false];
    assert after[id := true].Keys == after.Keys;
  }

  lemma HealthyAlready(modules: Modules, cache: Cache)
    ensures Healthy(modules, cache, cache)
  {
  }

  /** Where nothing is caught, a load without an exception has found all it reaches. */
  lemma {:induction false} LoadIsHealthy(modules: Modules, cache: Cache, id: ModuleId)
    requires NoCatch(modules) && Load(modules, cache, id).ok
    ensures Healthy(modules, cache, Load(modules, cache, id).cache)
    decreases Unloaded(modules, cache), 0
  {
    hide Execute, Extends, Healthy, Sound;
    HealthyAlready(modules, cache);
    if id !in cache {
      MeasureDrops(modules, cache, id);
      ExecuteIsHealthy(modules, cache[id := false], modules[id]);
      HealthyBegins(modules, cache, id, Execute(modules, cache[id := false], modules[id]).cache);
    }
  }

  lemma {:induction false} ExecuteIsHealthy(modules: Modules, cache: Cache, body: Body)
    requires NoCatch(modules) && Uncaught(body) && Execute(modules, cache, body).ok
    ensures var r := Execute(modules, cache, body); Healthy(modules, cache, r.cache) && Sound(body, r.cache.Keys)
    decreases Unloaded(modules, cache), 1 + |body|
  {
    hide *;
    HealthyAlready(modules, cache);
    ExecuteCases(modules, cache, body);
    UncaughtFirst(body);
    if body == [] {
      SoundRest(body, cache.Keys);
    } else {
      var first := Load(modules, cache, body[0].id);
      LoadIsHealthy(modules, cache, body[0].id);
      ExecuteIsHealthy(modules, first.cache, body[1..]);
      var after := Execute(modules, first.cache, body[1..]).cache;
      HealthyNext(modules, cache, first.cache, after);
      CachedStill(first.cache, after, body[0].id);
      SoundRest(body, after.Keys);
    }
  }

  lemma UncaughtFirst(body: Body)
    ensures body != [] && Uncaught(body) ==> !body[0].TryRequire? && Uncaught(body[1..])
  {
  }

  lemma SoundRest(body: Body, ids: set<ModuleId>)
    ensures body == [] ==> Sound(body, ids)
    ensures body != [] && !body[0].Throw? && body[0].id in ids && Sound(body[1..], ids) ==> Sound(body, ids)
  {
    if body != [] { assert body == [body[0]] + body[1..]; }
  }

  /** Where nothing is caught, a first load succeeds exactly for the supported modules. */
  lemma LoadSucceedsExactly(modules: Modules, id: ModuleId)
    requires NoCatch(modules)
    ensures Load(modules, map[], id).ok <==> Supported(modules, id)
  {
    if Load(modules, map[], id).ok {
      LoadIsHealthy(modules, map[], id);
      assert SelfContained(modules, Load(modules, map[], id).cache.Keys);
    }
    if Supported(modules, id) {
      var ids: set<ModuleId> :| id in ids && SelfContained(modules, ids);
      LoadSucceeds(modules, map[], id, ids);
    }
  }

  // ---------------------------------------------------------------- the page

  datatype Page = Page(modules: Modules, cache: Cache, loaded: set<ChunkId>, waiting: seq<Deferred>,
                       started: seq<Deferred>, log: seq<ModuleId>, missed: seq<ModuleId>)

  function Blank(modules: Modules): Page {
    Page(modules, map[], {0}, [], [], [], [])
  }

  /** `u.splice(r, 1)`, then require the entry module. */
  function StartAt(p: Page, r: nat): (Page, bool)
    requires r < |p.waiting|
  {
    var l := Load(p.modules, p.cache, p.waiting[r].entry);
    (p.(cache := l.cache, waiting := p.waiting[..r] + p.waiting[r + 1..], started := p.started + [p.waiting[r]],
        log := p.log + l.log, missed := p.missed + l.missed), l.ok)
  }

  /** `t` from position r on: start each waiting entry whose chunks have all been loaded, up to the
      first that throws. */
  function Check(p: Page, r: nat): (Page, bool)
    requires r <= |p.waiting|
    decreases |p.waiting| - r
  {
    if r == |p.waiting| then (p, true)
    else if !Ready(p.waiting[r], p.loaded) then Check(p, r + 1)
    else
      var (p', ok) := StartAt(p, r);
      if ok then Check(p', r) else (p', false)
  }

  /** `r`, up to the check. */
  function TakeIn(p: Page, chunk: Chunk): Page {
    p.(loaded := p.loaded + IdSet(chunk.ids), modules := p.modules + chunk.modules,
       waiting := p.waiting + chunk.deferred)
  }

  function Arrive(p: Page, chunk: Chunk): (Page, bool) {
    Check(TakeIn(p, chunk), 0)
  }

  /** Chunks arrive one after the other, also after one whose callback has thrown; the flag tells
      whether none has. */
  function ArriveAll(p: Page, chunks: seq<Chunk>): (Page, bool)
    decreases |chunks|
  {
    if chunks == [] then (p, true)
    else
      var (p', ok) := Arrive(p, chunks[0]);
      var (p'', oks) := ArriveAll(p', chunks[1..]);
      (p'', ok && oks)
  }

  /** The startup loop: up to the first chunk that throws; how many have been taken in. */
  function Replay(p: Page, chunks: seq<Chunk>): (r: (Page, nat, bool))
    ensures r.1 <= |chunks| && (r.2 ==> r.1 == |chunks|)
    decreases |chunks|
  {
    if chunks == [] then (p, 0, true)
    else
      var (p', ok) := Arrive(p, chunks[0]);
      if !ok then (p', 1, false)
      else
        var (p'', n, oks) := Replay(p', chunks[1..]);
        (p'', 1 + n, oks)
  }

  /** A page that loads: some chunks before the runtime starts, the others after it. */
  datatype Visit = Visit(page: Page, taken: nat, recording: bool, smooth: bool)

  function VisitPage(modules: Modules, early: seq<Chunk>, late: seq<Chunk>): (v: Visit)
    ensures v.taken <= |early| && (v.recording ==> v.taken == |early|)
  {
    var (p, taken, recording) := Replay(Blank(modules), early);
    var (p', checked) := if recording then Check(p, 0) else (p, false);
    var (p'', oks) := ArriveAll(p', late);
    Visit(p'', taken, recording, checked && oks)
  }

  // ---------------------------------------------------------------- what survives every exception

  /** Only ready entries have been started, none more often than deferred, and none is lost; every
      cached module has run its body once or was absent when it was first required. */
  ghost predicate PageOk(p: Page, chunks: seq<Chunk>) {
    && Accounts(p.started, p.waiting, p.loaded, chunks)
    && Once(map[], p.log, p.missed, p.cache) && (forall m :: m in p.log ==> m in p.modules)
    && (forall k :: 0 <= k < |p.started| ==> p.started[k].entry in p.cache)
  }

  /** The body of a started entry has run exactly once, unless the entry's module was required
      before it was there; then it has not run and never will. */
  lemma EntryHasRun(p: Page, chunks: seq<Chunk>, d: Deferred)
    requires PageOk(p, chunks) && d in p.started
    ensures multiset(p.log)[d.entry] == if d.entry in p.missed then 0 else 1
  {
    Occurrences(p.log, d.entry);
    var k :| 0 <= k < |p.started| && p.started[k] == d;
    assert d.entry in p.cache;
  }

  lemma {:induction false} Occurrences(s: seq<ModuleId>, m: ModuleId)
    requires Distinct(s)
    ensures multiset(s)[m] == if m in s then 1 else 0
  {
    if s != [] {
      var front, last := s[..|s| - 1], s[|s| - 1];
      assert s == front + [last];
      Occurrences(front, m);
      forall i | 0 <= i < |front| ensures front[i] != last { assert front[i] == s[i]; }
    }
  }

  predicate Quiescent(p: Page) {
    forall k :: 0 <= k < |p.waiting| ==> !Ready(p.waiting[k], p.loaded)
  }

  /** Nothing missed is forgotten, and what is newly missed is not in the table. */
  ghost predicate MissedSince(p: Page, p': Page) {
    && (forall m :: m in p.missed ==> m in p'.missed)
    && forall m :: m in p'.missed ==> m in p.missed || m !in p'.modules
  }

  /** The waiting entries whose chunks are loaded, or the others, in order. */
  function Which(waiting: seq<Deferred>, loaded: set<ChunkId>, ready: bool): seq<Deferred> {
    if waiting == [] then []
    else (if Ready(waiting[0], loaded) == ready then [waiting[0]] else []) + Which(waiting[1..], loaded, ready)
  }

  /** Without an exception a check starts the ready entries in the order in which they wait, and keeps
      the others in theirs. */
  lemma {:induction false} CheckStartsInOrder(p: Page, r: nat)
    requires r <= |p.waiting| && Check(p, r).1
    ensures var p' := Check(p, r).0;
            && p'.started == p.started + Which(p.waiting[r..], p.loaded, true)
            && p'.waiting == p.waiting[..r] + Which(p.waiting[r..], p.loaded, false)
    decreases |p.waiting| - r
  {
    hide Load, Ready;
    if r == |p.waiting| {
      assert p.started + [] == p.started && p.waiting[..r] + [] == p.waiting;
    } else {
      var d, rest := p.waiting[r], p.waiting[r + 1..];
      assert p.waiting[r..][1..] == rest;
      if !Ready(d, p.loaded) {
        CheckStartsInOrder(p, r + 1);
        WaitingNext(p.waiting, r, Which(rest, p.loaded, false));
        assert [] + Which(rest, p.loaded, true) == Which(rest, p.loaded, true);
      } else {
        var p' := StartAt(p, r).0;
        assert p'.waiting[r..] == rest && p'.waiting[..r] == p.waiting[..r];
        CheckStartsInOrder(p', r);
        StartedNext(p.started, d, Which(rest, p.loaded, true));
        assert [] + Which(rest, p.loaded, false) == Which(rest, p.loaded, false);
      }
    }
  }

  lemma WaitingNext(waiting: seq<Deferred>, r: nat, rest: seq<Deferred>)
    requires r < |waiting|
    ensures waiting[..r + 1] + rest == waiting[..r] + ([waiting[r]] + rest)
  {
  }

  lemma StartedNext(started: seq<Deferred>, d: Deferred, rest: seq<Deferred>)
    ensures (started + [d]) + rest == started + ([d] + rest)
  {
  }

  /** Entries that wait come before those a chunk brings. */
  lemma ArriveStartsInOrder(p: Page, chunk: Chunk)
    requires Arrive(p, chunk).1
    ensures var p', all := Arrive(p, chunk).0, p.waiting + chunk.deferred;
            && p'.started == p.started + Which(all, p.loaded + IdSet(chunk.ids), true)
            && p'.waiting == Which(all, p.loaded + IdSet(chunk.ids), false)
  {
    hide Check, Which;
    CheckStartsInOrder(TakeIn(p, chunk), 0);
    var waiting := TakeIn(p, chunk).waiting;
    assert waiting[0..] == waiting && waiting[..0] == [];
  }

  lemma FromNothing(cache: Cache)
    ensures Extends(map[], cache)
  {
  }

  lemma StartKeeps(p: Page, r: nat, chunks: seq<Chunk>)
    requires PageOk(p, chunks) && r < |p.waiting| && Ready(p.waiting[r], p.loaded)
    ensures PageOk(StartAt(p, r).0, chunks)
    ensures MissedSince(p, StartAt(p, r).0)
  {
    hide Accounts, Load, Once, Closed;
    var l := Load(p.modules, p.cache, p.waiting[r].entry);
    LoadIsSound(p.modules, p.cache, p.waiting[r].entry);
    AccountsStart(p.started, p.waiting, p.loaded, chunks, r);
    FromNothing(p.cache);
    OnceNext(map[], p.log, p.missed, p.cache, l.log, l.missed, l.cache);
  }

  lemma {:induction false} CheckKeeps(p: Page, r: nat, chunks: seq<Chunk>)
    requires PageOk(p, chunks) && r <= |p.waiting|
    requires forall k :: 0 <= k < r ==> !Ready(p.waiting[k], p.loaded)
    ensures var (p', ok) := Check(p, r);
            && PageOk(p', chunks) && (ok ==> Quiescent(p')) && p'.modules == p.modules && MissedSince(p, p')
    decreases |p.waiting| - r
  {
    hide PageOk;
    if r == |p.waiting| {
    } else if !Ready(p.waiting[r], p.loaded) {
      CheckKeeps(p, r + 1, chunks);
    } else {
      StartKeeps(p, r, chunks);
      var (p', ok) := StartAt(p, r);
      if ok { CheckKeeps(p', r, chunks); }
    }
  }

  /** A module is newly missed only while it is not in the table. */
  lemma ArriveKeeps(p: Page, chunk: Chunk, chunks: seq<Chunk>)
    requires PageOk(p, chunks)
    ensures var (p', ok) := Arrive(p, chunk);
            && PageOk(p', chunks + [chunk]) && (ok ==> Quiescent(p'))
            && p'.modules == p.modules + chunk.modules && MissedSince(p, p')
  {
    AccountsArrival(p.started, p.waiting, p.loaded, chunks, chunk);
    CheckKeeps(TakeIn(p, chunk), 0, chunks + [chunk]);
  }

  lemma {:induction false} ArriveAllKeeps(p: Page, more: seq<Chunk>, chunks: seq<Chunk>)
    requires PageOk(p, chunks)
    ensures var (p', ok) := ArriveAll(p, more);
            PageOk(p', chunks + more) && (ok && (more != [] || Quiescent(p)) ==> Quiescent(p'))
    decreases |more|
  {
    hide PageOk, Quiescent, Arrive;
    if more == [] {
      assert chunks + more == chunks;
    } else {
      ArriveKeeps(p, more[0], chunks);
      ArriveAllKeeps(Arrive(p, more[0]).0, more[1..], chunks + [more[0]]);
      assert chunks + [more[0]] + more[1..] == chunks + more;
    }
  }

  /** The startup loop is an arrival of the chunks it has taken in. */
  lemma {:induction false} ReplayIsArrival(p: Page, chunks: seq<Chunk>)
    ensures var (p', n, ok) := Replay(p, chunks);
            && ArriveAll(p, chunks[..n]) == (p', ok)
            && (ok <==> ArriveAll(p, chunks).1)
    decreases |chunks|
  {
    hide Arrive;
    if chunks == [] {
    } else {
      var (p', ok) := Arrive(p, chunks[0]);
      var n := Replay(p, chunks).1;
      assert chunks[..n][0] == chunks[0];
      if ok {
        ReplayIsArrival(p', chunks[1..]);
        assert chunks[..n][1..] == chunks[1..][..n - 1];
      } else {
        assert chunks[..1][1..] == [];
        assert ArriveAll(p', []) == (p', true);
      }
    }
  }

  lemma {:induction false} ArriveAllConcat(p: Page, a: seq<Chunk>, b: seq<Chunk>)
    ensures var (p', oks) := ArriveAll(p, a);
            ArriveAll(p, a + b) == (ArriveAll(p', b).0, oks && ArriveAll(p', b).1)
    decreases |a|
  {
    hide Arrive;
    if a == [] {
      assert a + b == b;
    } else {
      ArriveAllConcat(Arrive(p, a[0]).0, a[1..], b);
      assert (a + b)[1..] == a[1..] + b;
    }
  }

  lemma BlankIsOk(modules: Modules)
    ensures PageOk(Blank(modules), []) && Quiescent(Blank(modules))
  {
  }

  lemma {:induction false} QuietCheck(p: Page, r: nat)
    requires Quiescent(p) && r <= |p.waiting|
    ensures Check(p, r) == (p, true)
    decreases |p.waiting| - r
  {
    if r < |p.waiting| { QuietCheck(p, r + 1); }
  }

  /** Whatever throws: a page that loads has taken in the first early chunks and all late ones, has
      started only entries that are ready, none more often than deferred, and has run no body twice. */
  lemma VisitIsSafe(modules: Modules, early: seq<Chunk>, late: seq<Chunk>)
    ensures var v := VisitPage(modules, early, late);
            PageOk(v.page, early[..v.taken] + late)
  {
    hide PageOk, Quiescent, Check, ArriveAll, Replay;
    var (p, taken, recording) := Replay(Blank(modules), early);
    BlankIsOk(modules);
    ReplayIsArrival(Blank(modules), early);
    ArriveAllKeeps(Blank(modules), early[..taken], []);
    assert [] + early[..taken] == early[..taken];
    if recording { CheckFromStart(p, early[..taken]); }
    var p' := if recording then Check(p, 0).0 else p;
    ArriveAllKeeps(p', late, early[..taken]);
  }

  lemma CheckFromStart(p: Page, chunks: seq<Chunk>)
    requires PageOk(p, chunks)
    ensures PageOk(Check(p, 0).0, chunks)
  {
    CheckKeeps(p, 0, chunks);
  }

  /** No exception gets out exactly when none would if the chunks arrived one after the other; the
      page is then the same, and the chunks that come late are recorded. */
  lemma SmoothExactly(modules: Modules, early: seq<Chunk>, late: seq<Chunk>)
    ensures var v := VisitPage(modules, early, late);
            && (v.smooth <==> ArriveAll(Blank(modules), early + late).1)
            && (v.smooth ==> v.recording && v.page == ArriveAll(Blank(modules), early + late).0)
            && (v.smooth ==> Quiescent(v.page))
  {
    hide PageOk, Quiescent, Check, ArriveAll, Replay;
    var (p, taken, recording) := Replay(Blank(modules), early);
    BlankIsOk(modules);
    ReplayIsArrival(Blank(modules), early);
    ArriveAllConcat(Blank(modules), early, late);
    ArriveAllKeeps(Blank(modules), early + late, []);
    if recording {
      assert early[..taken] == early;
      ArriveAllKeeps(Blank(modules), early, []);
      QuietCheck(p, 0);
    }
  }

  /** The entries started are exactly those whose chunks have arrived, each as often as it was
      deferred, if and only if no ready entry is left waiting. */
  lemma StartedExactlyWhenQuiet(p: Page, chunks: seq<Chunk>)
    requires PageOk(p, chunks)
    ensures StartedExactly(p.started, chunks) <==> Quiescent(p)
  {
    forall d ensures multiset(p.started)[d] + multiset(p.waiting)[d] == multiset(AllDeferred(chunks))[d] {
      assert (multiset(p.started) + multiset(p.waiting))[d] == multiset(AllDeferred(chunks))[d];
    }
    forall d ensures multiset(p.started)[d] > 0 ==> Ready(d, p.loaded) {
      if multiset(p.started)[d] > 0 { assert d in p.started; }
    }
    if Quiescent(p) {
      forall d ensures multiset(p.waiting)[d] > 0 ==> !Ready(d, p.loaded) {
        if multiset(p.waiting)[d] > 0 { assert d in p.waiting; }
      }
    } else {
      var k :| 0 <= k < |p.waiting| && Ready(p.waiting[k], p.loaded);
      assert p.waiting[k] in multiset(p.waiting);
    }
  }

  // ---------------------------------------------------------------- when nothing can throw

  /** The module table after the chunks: a later chunk replaces the modules it brings. */
  function Merged(modules: Modules, chunks: seq<Chunk>): Modules {
    if chunks == [] then modules else Merged(modules, chunks[..|chunks| - 1]) + chunks[|chunks| - 1].modules
  }

  /** All that the ready entries of the chunks can reach has arrived, and none of it throws. */
  ghost predicate ProvidedNow(modules: Modules, chunks: seq<Chunk>) {
    forall d :: d in AllDeferred(chunks) && Ready(d, LoadedIds(chunks)) ==> Supported(Merged(modules, chunks), d.entry)
  }

  /** This holds whenever some of the chunks have arrived. */
  ghost predicate Provided(modules: Modules, chunks: seq<Chunk>) {
    forall k :: 0 <= k <= |chunks| ==> ProvidedNow(modules, chunks[..k])
  }

  lemma {:induction false} CheckSucceeds(p: Page, r: nat)
    requires r <= |p.waiting|
    requires forall k :: 0 <= k < |p.waiting| && Ready(p.waiting[k], p.loaded) ==>
               Supported(p.modules, p.waiting[k].entry)
    ensures Check(p, r).1 && Check(p, r).0.missed == p.missed
    decreases |p.waiting| - r
  {
    hide Supported;
    if r == |p.waiting| {
    } else if !Ready(p.waiting[r], p.loaded) {
      CheckSucceeds(p, r + 1);
    } else {
      SupportedSucceeds(p.modules, p.cache, p.waiting[r].entry);
      CheckSucceeds(StartAt(p, r).0, r);
    }
  }

  lemma SupportedSucceeds(modules: Modules, cache: Cache, id: ModuleId)
    requires Supported(modules, id)
    ensures Load(modules, cache, id).ok && Load(modules, cache, id).missed == []
  {
    var ids: set<ModuleId> :| id in ids && SelfContained(modules, ids);
    LoadSucceeds(modules, cache, id, ids);
  }

  lemma WaitingWasDeferred(p: Page, chunks: seq<Chunk>)
    requires PageOk(p, chunks)
    ensures p.loaded == LoadedIds(chunks) && forall k :: 0 <= k < |p.waiting| ==> p.waiting[k] in AllDeferred(chunks)
  {
    forall k | 0 <= k < |p.waiting| ensures p.waiting[k] in AllDeferred(chunks) {
      assert p.waiting[k] in multiset(p.waiting);
      assert p.waiting[k] in multiset(AllDeferred(chunks));
    }
  }

  lemma TakeInKeeps(p: Page, chunk: Chunk, chunks: seq<Chunk>)
    requires PageOk(p, chunks)
    ensures PageOk(TakeIn(p, chunk), chunks + [chunk])
  {
    AccountsArrival(p.started, p.waiting, p.loaded, chunks, chunk);
  }

  lemma ArriveSucceeds(p: Page, chunk: Chunk, modules: Modules, chunks: seq<Chunk>)
    requires PageOk(p, chunks) && p.modules == Merged(modules, chunks)
    requires ProvidedNow(modules, chunks + [chunk])
    ensures Arrive(p, chunk).1 && Arrive(p, chunk).0.missed == p.missed
  {
    hide PageOk, Supported;
    MergedAppend(modules, chunks, chunk);
    TakeInKeeps(p, chunk, chunks);
    WaitingWasDeferred(TakeIn(p, chunk), chunks + [chunk]);
    CheckSucceeds(TakeIn(p, chunk), 0);
  }

  lemma MergedAppend(modules: Modules, chunks: seq<Chunk>, chunk: Chunk)
    ensures Merged(modules, chunks + [chunk]) == Merged(modules, chunks) + chunk.modules
  {
    assert (chunks + [chunk])[..|chunks|] == chunks;
  }

  lemma {:induction false} ProvidedFrom(modules: Modules, all: seq<Chunk>, p: Page, k: nat)
    requires Provided(modules, all) && k <= |all| && PageOk(p, all[..k]) && p.modules == Merged(modules, all[..k])
    ensures ArriveAll(p, all[k..]).1 && ArriveAll(p, all[k..]).0.missed == p.missed
    decreases |all| - k
  {
    hide PageOk, ProvidedNow;
    if k < |all| {
      assert ProvidedNow(modules, all[..k + 1]);
      assert all[..k + 1] == all[..k] + [all[k]];
      MergedAppend(modules, all[..k], all[k]);
      ArriveSucceeds(p, all[k], modules, all[..k]);
      ArriveKeeps(p, all[k], all[..k]);
      assert all[k..][1..] == all[k + 1..];
      ProvidedFrom(modules, all, Arrive(p, all[k]).0, k + 1);
    }
  }

  /** While all that the ready entries reach has arrived, and none of it throws, nothing throws and
      no module is missed, whichever chunks come before the start. */
  lemma ProvidedIsSmooth(modules: Modules, early: seq<Chunk>, late: seq<Chunk>)
    requires Provided(modules, early + late)
    ensures VisitPage(modules, early, late).smooth && VisitPage(modules, early, late).page.missed == []
  {
    hide PageOk, Provided;
    BlankIsOk(modules);
    assert (early + late)[..0] == [] && (early + late)[0..] == early + late;
    ProvidedFrom(modules, early + late, Blank(modules), 0);
    SmoothExactly(modules, early, late);
  }

  // ---------------------------------------------------------------- nothing less will do

  /** No chunk brings another body for a module that is there. */
  ghost predicate NoReplacing(modules: Modules, chunks: seq<Chunk>) {
    forall k, m :: 0 <= k < |chunks| && m in chunks[k].modules && m in Merged(modules, chunks[..k]) ==>
      Merged(modules, chunks[..k])[m] == chunks[k].modules[m]
  }

  ghost predicate NoCatchIn(modules: Modules, chunks: seq<Chunk>) {
    NoCatch(modules) && forall k :: 0 <= k < |chunks| ==> NoCatch(chunks[k].modules)
  }

  lemma HealthyIn(modules: Modules, more: Modules, cache: Cache)
    requires Healthy(modules, map[], cache) && forall m :: m in modules ==> m in more && more[m] == modules[m]
    ensures Healthy(more, map[], cache)
  {
  }

  lemma {:induction false} CheckIsHealthy(p: Page, r: nat)
    requires r <= |p.waiting| && NoCatch(p.modules) && Healthy(p.modules, map[], p.cache) && Check(p, r).1
    ensures Healthy(p.modules, map[], Check(p, r).0.cache) && Check(p, r).0.modules == p.modules
    decreases |p.waiting| - r
  {
    hide Healthy, Load;
    if r == |p.waiting| {
    } else if !Ready(p.waiting[r], p.loaded) {
      CheckIsHealthy(p, r + 1);
    } else {
      LoadIsHealthy(p.modules, p.cache, p.waiting[r].entry);
      FromNothing(p.cache);
      HealthyNext(p.modules, map[], p.cache, StartAt(p, r).0.cache);
      CheckIsHealthy(StartAt(p, r).0, r);
    }
  }

  /** A quiet page whose cache is healthy supports all its ready entries. */
  lemma QuietIsProvided(p: Page, modules: Modules, chunks: seq<Chunk>)
    requires PageOk(p, chunks) && Quiescent(p) && p.modules == Merged(modules, chunks)
    requires Healthy(p.modules, map[], p.cache)
    ensures ProvidedNow(modules, chunks)
  {
    assert SelfContained(p.modules, p.cache.Keys);
    forall d | d in AllDeferred(chunks) && Ready(d, LoadedIds(chunks)) ensures Supported(p.modules, d.entry) {
      StartedOrWaiting(p, chunks, d);
      if d in p.waiting {
        assert false;
      }
      var k :| 0 <= k < |p.started| && p.started[k] == d;
      assert d.entry in p.cache.Keys;
    }
  }

  lemma StartedOrWaiting(p: Page, chunks: seq<Chunk>, d: Deferred)
    requires PageOk(p, chunks) && d in AllDeferred(chunks)
    ensures d in p.started || d in p.waiting
  {
    assert d in multiset(AllDeferred(chunks));
    assert d in multiset(p.started) + multiset(p.waiting);
  }

  lemma {:induction false} SmoothFrom(modules: Modules, all: seq<Chunk>, p: Page, k: nat)
    requires k <= |all| && NoReplacing(modules, all) && NoCatchIn(modules, all)
    requires PageOk(p, all[..k]) && p.modules == Merged(modules, all[..k]) && NoCatch(p.modules)
    requires Healthy(p.modules, map[], p.cache) && ArriveAll(p, all[k..]).1
    ensures forall j :: k < j <= |all| ==> ProvidedNow(modules, all[..j])
    decreases |all| - k
  {
    hide PageOk, Healthy, ProvidedNow, Quiescent, Check;
    if k < |all| {
      var chunk := all[k];
      assert all[..k + 1] == all[..k] + [chunk];
      assert all[k..][0] == chunk && all[k..][1..] == all[k + 1..];
      MergedAppend(modules, all[..k], chunk);
      HealthyIn(p.modules, p.modules + chunk.modules, p.cache);
      CheckIsHealthy(TakeIn(p, chunk), 0);
      ArriveKeeps(p, chunk, all[..k]);
      var p' := Arrive(p, chunk).0;
      QuietIsProvided(p', modules, all[..k + 1]);
      SmoothFrom(modules, all, p', k + 1);
    }
  }

  /** Where nothing is caught and no module replaced, a page sees no exception exactly when, whenever
      some of the chunks have arrived, all that the ready entries reach is there and does not throw. */
  lemma SmoothIsProvided(modules: Modules, early: seq<Chunk>, late: seq<Chunk>)
    requires NoReplacing(modules, early + late) && NoCatchIn(modules, early + late)
    ensures VisitPage(modules, early, late).smooth <==> Provided(modules, early + late)
  {
    hide PageOk, ArriveAll;
    var all := early + late;
    if Provided(modules, all) { ProvidedIsSmooth(modules, early, late); }
    if VisitPage(modules, early, late).smooth {
      SmoothExactly(modules, early, late);
      BlankIsOk(modules);
      assert all[..0] == [] && all[0..] == all;
      SmoothFrom(modules, all, Blank(modules), 0);
      assert ProvidedNow(modules, all[..0]);
    }
  }

  // ---------------------------------------------------------------- every order of arrival

  ghost predicate Part(modules: Modules, table: Modules) {
    forall m :: m in modules ==> m in table && table[m] == modules[m]
  }

  /** All chunks agree with one table of bodies. */
  ghost predicate OneTable(modules: Modules, chunks: seq<Chunk>, table: Modules) {
    Part(modules, table) && forall c :: c in chunks ==> Part(c.modules, table)
  }

  /** Every chunk that records the id f brings the module. */
  ghost predicate Carries(chunks: seq<Chunk>, f: ChunkId, m: ModuleId) {
    f != 0 && forall c :: c in chunks && f in c.ids ==> m in c.modules
  }

  /** All that an entry reaches is there from the beginning or in the chunks the entry lists, and none
      of it throws. */
  ghost predicate ListsEnough(modules: Modules, chunks: seq<Chunk>, table: Modules, d: Deferred) {
    exists ids: set<ModuleId> :: d.entry in ids && SelfContained(table, ids) && Listed(modules, chunks, d, ids)
  }

  ghost predicate Listed(modules: Modules, chunks: seq<Chunk>, d: Deferred, ids: set<ModuleId>) {
    forall m :: m in ids ==> m in modules || exists f :: f in d.chunks && Carries(chunks, f, m)
  }

  lemma {:induction false} MergedIsPart(modules: Modules, chunks: seq<Chunk>, table: Modules)
    requires Part(modules, table) && forall c :: c in chunks ==> Part(c.modules, table)
    ensures Part(Merged(modules, chunks), table)
  {
    if chunks != [] {
      MergedIsPart(modules, chunks[..|chunks| - 1], table);
      assert chunks[|chunks| - 1] in chunks;
    }
  }

  lemma {:induction false} MergedHolds(modules: Modules, chunks: seq<Chunk>)
    ensures modules.Keys <= Merged(modules, chunks).Keys
    ensures forall c :: c in chunks ==> c.modules.Keys <= Merged(modules, chunks).Keys
  {
    if chunks != [] {
      var front, last := chunks[..|chunks| - 1], chunks[|chunks| - 1];
      MergedHolds(modules, front);
      assert chunks == front + [last];
    }
  }

  lemma {:induction false} LoadedBy(chunks: seq<Chunk>, f: ChunkId) returns (c: Chunk)
    requires f in LoadedIds(chunks) && f != 0
    ensures c in chunks && f in c.ids
  {
    var front, last := chunks[..|chunks| - 1], chunks[|chunks| - 1];
    if f in last.ids {
      c := last;
    } else {
      c := LoadedBy(front, f);
    }
  }

  lemma {:induction false} DeferredBefore(chunks: seq<Chunk>, k: nat, d: Deferred)
    requires k <= |chunks| && d in AllDeferred(chunks[..k])
    ensures d in AllDeferred(chunks)
    decreases |chunks| - k
  {
    if k < |chunks| {
      assert chunks[..k + 1][..k] == chunks[..k];
      DeferredBefore(chunks, k + 1, d);
    } else {
      assert chunks[..k] == chunks;
    }
  }

  /** What an entry lists is enough as soon as the chunks it lists have arrived. */
  lemma ReadyIsSupported(modules: Modules, chunks: seq<Chunk>, table: Modules, arrived: seq<Chunk>, d: Deferred)
    requires OneTable(modules, chunks, table) && (forall c :: c in arrived ==> c in chunks)
    requires ListsEnough(modules, chunks, table, d) && Ready(d, LoadedIds(arrived))
    ensures Supported(Merged(modules, arrived), d.entry)
  {
    hide SelfContained, LoadedIds, Merged;
    var ids: set<ModuleId> :| d.entry in ids && SelfContained(table, ids) && Listed(modules, chunks, d, ids);
    MergedIsPart(modules, arrived, table);
    MergedHolds(modules, arrived);
    forall m | m in ids ensures m in Merged(modules, arrived) {
      if m !in modules {
        var f :| f in d.chunks && Carries(chunks, f, m);
        var g :| 0 <= g < |d.chunks| && d.chunks[g] == f;
        var c := LoadedBy(arrived, f);
        assert c in chunks && m in c.modules;
      }
    }
    SelfContainedIn(Merged(modules, arrived), table, ids);
  }

  lemma SelfContainedIn(modules: Modules, table: Modules, ids: set<ModuleId>)
    requires SelfContained(table, ids) && Part(modules, table) && forall m :: m in ids ==> m in modules
    ensures SelfContained(modules, ids)
  {
  }

  lemma ListedIsProvided(modules: Modules, chunks: seq<Chunk>, table: Modules, all: seq<Chunk>)
    requires multiset(all) == multiset(chunks) && OneTable(modules, chunks, table)
    requires forall d :: d in AllDeferred(chunks) ==> ListsEnough(modules, chunks, table, d)
    ensures Provided(modules, all)
  {
    hide ListsEnough, LoadedIds, Merged, Supported, OneTable, AllDeferred;
    SameChunks(all, chunks);
    forall c | c in all ensures c in chunks { assert c in multiset(all); }
    forall k | 0 <= k <= |all| ensures ProvidedNow(modules, all[..k]) {
      forall d | d in AllDeferred(all[..k]) && Ready(d, LoadedIds(all[..k]))
        ensures Supported(Merged(modules, all[..k]), d.entry)
      {
        DeferredBefore(all, k, d);
        assert d in multiset(AllDeferred(all));
        assert d in AllDeferred(chunks);
        ReadyIsSupported(modules, chunks, table, all[..k], d);
      }
    }
  }

  /** When each entry lists the chunks it needs, then for every order of arrival and every split into
      chunks before and after the start there is no exception, exactly the entries whose chunks have
      arrived are started, each as often as deferred, and the body of each has run exactly once. */
  lemma EveryOrderWorks(modules: Modules, chunks: seq<Chunk>, table: Modules, early: seq<Chunk>, late: seq<Chunk>)
    requires multiset(early + late) == multiset(chunks) && OneTable(modules, chunks, table)
    requires forall d :: d in AllDeferred(chunks) ==> ListsEnough(modules, chunks, table, d)
    ensures var v := VisitPage(modules, early, late);
            && v.smooth && v.recording && StartedExactly(v.page.started, chunks)
            && forall d :: d in AllDeferred(chunks) && Ready(d, LoadedIds(chunks)) ==>
                 multiset(v.page.log)[d.entry] == 1
  {
    hide *;
    ListedIsProvided(modules, chunks, table, early + late);
    ProvidedIsSmooth(modules, early, late);
    SmoothExactly(modules, early, late);
    VisitIsSafe(modules, early, late);
    var v := VisitPage(modules, early, late);
    assert early[..v.taken] == early;
    StartedExactlyWhenQuiet(v.page, early + late);
    OrderIndependent(early + late, chunks);
    forall d | d in AllDeferred(chunks) && Ready(d, LoadedIds(chunks)) ensures multiset(v.page.log)[d.entry] == 1 {
      StartedWhenReady(v.page.started, chunks, d);
      EntryHasRun(v.page, early + late, d);
    }
  }

  lemma StartedWhenReady(started: seq<Deferred>, chunks: seq<Chunk>, d: Deferred)
    requires StartedExactly(started, chunks) && d in AllDeferred(chunks) && Ready(d, LoadedIds(chunks))
    ensures d in started
  {
    assert d in multiset(AllDeferred(chunks));
    assert multiset(started)[d] == multiset(AllDeferred(chunks))[d];
    assert d in multiset(started);
  }

  // ---------------------------------------------------------------- modules that come too late

  /** A module that is missed has been required during an arrival, when it was not in the table. */
  lemma {:induction false} MissedBeforeItCame(modules: Modules, chunks: seq<Chunk>, m: ModuleId) returns (k: nat)
    requires m in ArriveAll(Blank(modules), chunks).0.missed
    ensures k < |chunks| && m !in Merged(modules, chunks[..k + 1])
    ensures m !in ArriveAll(Blank(modules), chunks[..k]).0.missed
    ensures m in ArriveAll(Blank(modules), chunks[..k + 1]).0.missed
    decreases |chunks|
  {
    hide *;
    NothingArrived(modules);
    if chunks == [] {
      assert false;
    } else {
      var front, last := chunks[..|chunks| - 1], chunks[|chunks| - 1];
      assert chunks == front + [last] && chunks[..|chunks|] == chunks;
      if m in ArriveAll(Blank(modules), front).0.missed {
        k := MissedBeforeItCame(modules, front, m);
        assert front[..k] == chunks[..k] && front[..k + 1] == chunks[..k + 1];
      } else {
        k := |chunks| - 1;
        MissedLast(modules, front, last);
      }
    }
  }

  lemma NothingArrived(modules: Modules)
    ensures ArriveAll(Blank(modules), []).0.missed == []
  {
  }

  lemma MissedLast(modules: Modules, front: seq<Chunk>, last: Chunk)
    ensures var p, p' := ArriveAll(Blank(modules), front).0, ArriveAll(Blank(modules), front + [last]).0;
            && (forall m :: m in p.missed ==> m in p'.missed)
            && (forall m :: m in p'.missed ==> m in p.missed || m !in Merged(modules, front + [last]))
  {
    hide *;
    LastArrival(Blank(modules), front, last);
    ArrivedOk(modules, front);
    MergedAppend(modules, front, last);
    ArriveKeeps(ArriveAll(Blank(modules), front).0, last, front);
    MissedMeans(ArriveAll(Blank(modules), front).0, ArriveAll(Blank(modules), front + [last]).0);
  }

  lemma MissedMeans(p: Page, p': Page)
    requires MissedSince(p, p')
    ensures forall m :: m in p.missed ==> m in p'.missed
    ensures forall m :: m in p'.missed ==> m in p.missed || m !in p'.modules
  {
  }

  lemma ArrivedOk(modules: Modules, chunks: seq<Chunk>)
    ensures var p := ArriveAll(Blank(modules), chunks).0; PageOk(p, chunks) && p.modules == Merged(modules, chunks)
  {
    hide *;
    BlankIsOk(modules);
    ArriveAllKeeps(Blank(modules), chunks, []);
    assert [] + chunks == chunks;
    TableAfter(modules, chunks);
  }

  lemma {:induction false} MissedStays(modules: Modules, chunks: seq<Chunk>, k: nat, m: ModuleId)
    requires k <= |chunks| && m in ArriveAll(Blank(modules), chunks[..k]).0.missed
    ensures m in ArriveAll(Blank(modules), chunks).0.missed
    decreases |chunks| - k
  {
    hide *;
    if k < |chunks| {
      assert chunks[..k + 1] == chunks[..k] + [chunks[k]];
      MissedLast(modules, chunks[..k], chunks[k]);
      MissedStays(modules, chunks, k + 1, m);
    } else {
      assert chunks[..k] == chunks;
    }
  }

  /** At some time the module had been required and no chunk had brought it. */
  ghost predicate TooEarly(modules: Modules, chunks: seq<Chunk>, m: ModuleId) {
    exists k :: 0 <= k <= |chunks| && RequiredAbsent(modules, chunks[..k], m)
  }

  ghost predicate RequiredAbsent(modules: Modules, chunks: seq<Chunk>, m: ModuleId) {
    m in ArriveAll(Blank(modules), chunks).0.cache && m !in Merged(modules, chunks)
  }

  /** The modules missed are those required before they came. */
  lemma MissedExactly(modules: Modules, chunks: seq<Chunk>, m: ModuleId)
    ensures m in ArriveAll(Blank(modules), chunks).0.missed <==> TooEarly(modules, chunks, m)
  {
    hide ArriveAll, Merged;
    if m in ArriveAll(Blank(modules), chunks).0.missed {
      var k := MissedBeforeItCame(modules, chunks, m);
      ArrivedOk(modules, chunks[..k + 1]);
      assert RequiredAbsent(modules, chunks[..k + 1], m);
    }
    if TooEarly(modules, chunks, m) {
      var k :| 0 <= k <= |chunks| && RequiredAbsent(modules, chunks[..k], m);
      ArrivedOk(modules, chunks[..k]);
      MissedStays(modules, chunks, k, m);
    }
  }

  /** A page is that of the chunks it has taken in, one after the other. */
  lemma VisitIsArrival(modules: Modules, early: seq<Chunk>, late: seq<Chunk>)
    ensures var v := VisitPage(modules, early, late);
            v.page == ArriveAll(Blank(modules), early[..v.taken] + late).0
  {
    hide Check, ArriveAll, Replay, PageOk, Quiescent;
    var (p, taken, recording) := Replay(Blank(modules), early);
    ReplayIsArrival(Blank(modules), early);
    ArriveAllConcat(Blank(modules), early[..taken], late);
    if recording {
      BlankIsOk(modules);
      ArriveAllKeeps(Blank(modules), early[..taken], []);
      QuietCheck(p, 0);
    }
  }

  /** The body of a started entry has run exactly once if its module was not required before it came,
      and never otherwise. */
  lemma BodyRunsExactly(modules: Modules, early: seq<Chunk>, late: seq<Chunk>, d: Deferred)
    requires d in VisitPage(modules, early, late).page.started
    ensures var v := VisitPage(modules, early, late);
            multiset(v.page.log)[d.entry] == if TooEarly(modules, early[..v.taken] + late, d.entry) then 0 else 1
  {
    hide *;
    var v := VisitPage(modules, early, late);
    VisitIsSafe(modules, early, late);
    VisitIsArrival(modules, early, late);
    EntryHasRun(v.page, early[..v.taken] + late, d);
    MissedExactly(modules, early[..v.taken] + late, d.entry);
  }

  lemma LastArrival(p: Page, front: seq<Chunk>, last: Chunk)
    ensures ArriveAll(p, front + [last]).0 == Arrive(ArriveAll(p, front).0, last).0
    ensures ArriveAll(p, front + [last]).1 == (ArriveAll(p, front).1 && Arrive(ArriveAll(p, front).0, last).1)
  {
    hide Arrive;
    ArriveAllConcat(p, front, [last]);
    var p' := ArriveAll(p, front).0;
    assert [last][1..] == [];
    assert ArriveAll(Arrive(p', last).0, []) == (Arrive(p', last).0, true);
  }

  lemma {:induction false} TableAfter(modules: Modules, chunks: seq<Chunk>)
    ensures ArriveAll(Blank(modules), chunks).0.modules == Merged(modules, chunks)
  {
    hide Arrive;
    if chunks != [] {
      var front, last := chunks[..|chunks| - 1], chunks[|chunks| - 1];
      assert chunks == front + [last];
      TableAfter(modules, front);
      LastArrival(Blank(modules), front, last);
      ArriveTable(ArriveAll(Blank(modules), front).0, last);
    }
  }

  lemma ArriveTable(p: Page, chunk: Chunk)
    ensures Arrive(p, chunk).0.modules == p.modules + chunk.modules
  {
    CheckTable(TakeIn(p, chunk), 0);
  }

  lemma {:induction false} CheckTable(p: Page, r: nat)
    requires r <= |p.waiting|
    ensures Check(p, r).0.modules == p.modules
    decreases |p.waiting| - r
  {
    if r < |p.waiting| {
      if Ready(p.waiting[r], p.loaded) { CheckTable(StartAt(p, r).0, r); } else { CheckTable(p, r + 1); }
    }
  }

  /** An entry that another one requires, and catches, before its chunk arrives is started later on
      without an exception, but its body never runs. */
  lemma StartedButNotRun()
    ensures var a := Chunk([1], map[1 := [TryRequire(2)]], [Deferred(1, [1])]);
            var b := Chunk([2], map[2 := []], [Deferred(2, [2])]);
            var v := VisitPage(map[], [], [a, b]);
            && v.smooth && v.page.started == [Deferred(1, [1]), Deferred(2, [2])]
            && v.page.log == [1] && v.page.missed == [2]
  {
    hide Load, Check, Arrive, ArriveAll, VisitPage, Quiescent, IdSet;
    var a := Chunk([1], map[1 := [TryRequire(2)]], [Deferred(1, [1])]);
    var b := Chunk([2], map[2 := []], [Deferred(2, [2])]);
    SmoothExactly(map[], [], [a, b]);
    assert [] + [a, b] == [a, b] && [a] + [b] == [a, b] && [] + [a] == [a];
    LastArrival(Blank(map[]), [a], b);
    LastArrival(Blank(map[]), [], a);
    ArriveNone(Blank(map[]));
    var cache := map[1 := true, 2 := false];
    var p := Page(a.modules, cache, {0} + IdSet([1]), [], [Deferred(1, [1])], [1], [2]);
    TriesInVain(a.modules);
    assert Blank(map[]).modules + a.modules == a.modules;
    ArriveOne(Blank(map[]), a, Deferred(1, [1]), Outcome(true, cache, [1], [2]));
    assert Arrive(Blank(map[]), a).0 == p;
    assert ArriveAll(Blank(map[]), [] + [a]) == (p, true);
    LoadCases(a.modules + b.modules, cache, 2);
    ArriveOne(p, b, Deferred(2, [2]), Outcome(true, cache, [], []));
  }

  lemma ArriveNone(p: Page)
    ensures ArriveAll(p, []) == (p, true)
  {
  }

  /** A chunk whose only entry is ready, when nothing else waits. */
  lemma ArriveOne(p: Page, chunk: Chunk, d: Deferred, l: Outcome)
    requires p.waiting == [] && chunk.deferred == [d] && chunk.ids == d.chunks
    requires Load(p.modules + chunk.modules, p.cache, d.entry) == l && l.ok
    ensures Arrive(p, chunk) ==
            (Page(p.modules + chunk.modules, l.cache, p.loaded + IdSet(chunk.ids), [], p.started + [d],
                  p.log + l.log, p.missed + l.missed), true)
  {
    hide Load;
    var p' := TakeIn(p, chunk);
    assert p'.waiting == [d];
    assert forall f :: 0 <= f < |d.chunks| ==> d.chunks[f] in IdSet(chunk.ids);
    var p'' := StartAt(p', 0).0;
    assert p''.waiting == [];
    assert Check(p'', 0) == (p'', true);
  }

  lemma TriesInVain(modules: Modules)
    requires 1 in modules && modules[1] == [TryRequire(2)] && 2 !in modules
    ensures Load(modules, map[], 1) == Outcome(true, map[1 := true, 2 := false], [1], [2])
  {
    hide *;
    var body := modules[1];
    ExecuteCases(modules, map[1 := false], body);
    LoadCases(modules, map[1 := false], 2);
    ExecuteCases(modules, map[1 := false, 2 := false], body[1..]);
    LoadCases(modules, map[], 1);
  }

  // ---------------------------------------------------------------- what an exception costs

  lemma ThrowingEntry(p: Page, d: Deferred)
    requires p.waiting != [] && p.waiting[0] == d && Ready(d, p.loaded)
    requires d.entry !in p.cache && d.entry in p.modules && p.modules[d.entry] == [Throw]
    ensures var (p', ok) := Check(p, 0);
            !ok && p'.waiting == p.waiting[1..] && p'.started == p.started + [d] && p'.loaded == p.loaded
  {
    assert p.waiting[..0] + p.waiting[1..] == p.waiting[1..];
    assert !Execute(p.modules, p.cache[d.entry := false], [Throw]).ok;
    assert !StartAt(p, 0).1;
  }

  /** An entry that throws keeps a ready entry behind it from starting, for good when no chunk follows. */
  lemma EntryLeftWaiting()
    ensures var d, e := Deferred(1, [1]), Deferred(2, [1]);
            var v := VisitPage(map[1 := [Throw], 2 := []], [], [Chunk([1], map[], [d, e])]);
            v.page.started == [d] && v.page.waiting == [e] && Ready(e, v.page.loaded)
  {
    var d, e := Deferred(1, [1]), Deferred(2, [1]);
    var modules: Modules := map[1 := [Throw], 2 := []];
    var chunk := Chunk([1], map[], [d, e]);
    assert chunk.ids[0] in IdSet(chunk.ids);
    var p := TakeIn(Blank(modules), chunk);
    ThrowingEntry(p, d);
    QuietCheck(Blank(modules), 0);
    assert [chunk][1..] == [];
    assert ArriveAll(Blank(modules), [chunk]).0 == Check(p, 0).0;
  }

  /** An entry that throws during the startup loop leaves the early chunks behind it for good, and
      no later chunk is recorded. */
  lemma StartupBrokenOff(late: seq<Chunk>, behind: seq<Chunk>)
    ensures var first := Chunk([1], map[], [Deferred(1, [1])]);
            var v := VisitPage(map[1 := [Throw]], [first] + behind, late);
            v.taken == 1 && !v.recording
  {
    var modules: Modules := map[1 := [Throw]];
    var first := Chunk([1], map[], [Deferred(1, [1])]);
    assert first.ids[0] in IdSet(first.ids);
    ThrowingEntry(TakeIn(Blank(modules), first), Deferred(1, [1]));
    assert ([first] + behind)[0] == first;
  }
}
