/** The webpack runtime of spring/rest/my-app: chunks arrive before or after the runtime starts,
    deferred entries wait for their chunks, and `require` caches a module before it runs it. */
module WebpackRuntime {
  import opened Chunks
  import L = Loading

  class Runtime {
    var modules: L.Modules                 // `e`
    var cache: L.Cache                     // `n`, with the flag `l`
    var loaded: set<ChunkId>               // `o`: chunks recorded as loaded
    var deferred: seq<Deferred>            // `u`
    var shared: seq<Chunk>                 // `window.webpackJsonp`
    var recording: bool                    // `a` has been set
    ghost var log: seq<ModuleId>           // module bodies run, in order
    ghost var missed: seq<ModuleId>        // modules that were absent when first required
    ghost var started: seq<Deferred>       // entries started, in order

    ghost function View(): L.Page
      reads `modules, `cache, `loaded, `deferred, `log, `missed, `started
    {
      L.Page(modules, cache, loaded, deferred, started, log, missed)
    }

    constructor (modules: L.Modules)
      ensures View() == L.Blank(modules) && !recording && shared == []
    {
      this.modules, cache, loaded, deferred, shared, recording := modules, map[], {0}, [], [], false;
      log, missed, started := [], [], [];
    }

    /** `l`: the exports of a module; false stands for an exception. */
    method Load(id: ModuleId) returns (ok: bool)
      modifies `cache, `log, `missed
      ensures var r := L.Load(modules, old(cache), id);
              ok == r.ok && cache == r.cache && log == old(log) + r.log && missed == old(missed) + r.missed
      decreases L.Unloaded(modules, cache), 0
    {
      hide *;
      L.LoadCases(modules, cache, id);
      if id in cache { return true; }
      cache := cache[id := false];
      if id !in modules {
        missed := missed + [id];
        return false;
      }
      log := log + [id];
      ok := Execute(modules[id]);
      L.Regroup(old(log), [id], L.Execute(modules, old(cache)[id := false], modules[id]).log);
      if ok {
        cache := cache[id := true];
      }
    }

    method Execute(body: Body) returns (ok: bool)
      modifies `cache, `log, `missed
      ensures var r := L.Execute(modules, old(cache), body);
              ok == r.ok && cache == r.cache && log == old(log) + r.log && missed == old(missed) + r.missed
      decreases L.Unloaded(modules, cache), 1 + |body|
    {
      hide *;
      L.ExecuteCases(modules, cache, body);
      if body == [] { return true; }
      if body[0].Throw? { return false; }
      ok := Load(body[0].id);
      if body[0].Require? && !ok { return false; }
      ghost var first := L.Load(modules, old(cache), body[0].id);
      ok := Execute(body[1..]);
      ghost var rest := L.Execute(modules, first.cache, body[1..]);
      L.Regroup(old(log), first.log, rest.log);
      L.Regroup(old(missed), first.missed, rest.missed);
    }

    /** `t`: start each waiting entry whose chunks have all been loaded. */
    method CheckDeferred() returns (ok: bool)
      modifies `cache, `log, `missed, `deferred, `started
      ensures (View(), ok) == L.Check(old(View()), 0)
    {
      var r := 0;
      while r < |deferred|
        invariant 0 <= r <= |deferred| && L.Check(View(), r) == L.Check(old(View()), 0)
        decreases |deferred| - r
      {
        var t := deferred[r];
        var n := true;
        for f := 0 to |t.chunks|
          invariant n <==> forall g :: 0 <= g < f ==> t.chunks[g] in loaded
        {
          if t.chunks[f] !in loaded { n := false; }
        }
        if n {
          ok := StartEntry(r);
          if !ok { return; }
        } else {
          r := r + 1;
        }
      }
      ok := true;
    }

    /** `u.splice(r, 1)`, then require the entry module. */
    method StartEntry(r: nat) returns (ok: bool)
      requires r < |deferred|
      modifies `cache, `log, `missed, `deferred, `started
      ensures (View(), ok) == L.StartAt(old(View()), r)
    {
      var t := deferred[r];
      deferred := deferred[..r] + deferred[r + 1..];
      ok := Load(t.entry);
      started := started + [t];
    }

    /** `r`: the callback for an arriving chunk. */
    method Arrive(chunk: Chunk) returns (ok: bool)
      modifies `modules, `cache, `log, `missed, `deferred, `started, `loaded, `shared
      ensures (View(), ok) == L.Arrive(old(View()), chunk)
      ensures shared == old(shared) + if recording then [chunk] else []
    {
      MarkLoaded(chunk.ids);
      modules := modules + chunk.modules;
      if recording { shared := shared + [chunk]; }
      deferred := deferred + chunk.deferred;
      ok := CheckDeferred();
    }

    method MarkLoaded(ids: seq<ChunkId>)
      modifies `loaded
      ensures loaded == old(loaded) + IdSet(ids)
    {
      for c := 0 to |ids|
        invariant loaded == old(loaded) + IdSet(ids[..c])
      {
        assert ids[..c + 1] == ids[..c] + [ids[c]];
        loaded := loaded + {ids[c]};
      }
      assert ids[..|ids|] == ids;
    }

    /** The runtime script: replay a copy of the shared array, begin to record, check once more; an
        exception ends it. */
    method Start() returns (ok: bool, ghost taken: nat)
      requires !recording
      modifies this
      ensures shared == old(shared)
      ensures var (p, n, replayed) := L.Replay(old(View()), shared);
              && taken == n && recording == replayed
              && (View(), ok) == if replayed then L.Check(p, 0) else (p, false)
    {
      hide L.Check;
      var f := shared;
      taken := 0;
      for p := 0 to |f|
        invariant !recording && shared == f && taken == p
        invariant var (q, n, replayed) := L.Replay(View(), f[p..]);
                  L.Replay(old(View()), f) == (q, p + n, replayed)
      {
        assert f[p..][1..] == f[p + 1..] && f[p..][0] == f[p];
        taken := p + 1;
        ok := Arrive(f[p]);
        if !ok { return; }
      }
      recording := true;
      ok := CheckDeferred();
    }
  }

  /** A page that loads: some chunks are pushed on the shared array, the runtime starts, the others
      arrive; a page goes on after an exception. `smooth` tells that there was none. */
  method LoadPage(modules: L.Modules, early: seq<Chunk>, late: seq<Chunk>)
    returns (shared: seq<Chunk>, smooth: bool, ghost page: L.Page)
    ensures var v := L.VisitPage(modules, early, late);
            && page == v.page && smooth == v.smooth
            && shared == early + (if v.recording then late else [])
            && L.PageOk(page, early[..v.taken] + late)
    ensures smooth <==> L.ArriveAll(L.Blank(modules), early + late).1
    ensures smooth ==> shared == early + late && StartedExactly(page.started, early + late)
    ensures var taken := early[..L.VisitPage(modules, early, late).taken];
            forall d :: d in page.started ==>
              multiset(page.log)[d.entry] == if L.TooEarly(modules, taken + late, d.entry) then 0 else 1
    ensures L.Provided(modules, early + late) ==> smooth && page.missed == []
    ensures L.NoReplacing(modules, early + late) && L.NoCatchIn(modules, early + late) ==>
              (smooth <==> L.Provided(modules, early + late))
  {
    hide L.Replay, L.Check, L.ArriveAll, L.PageOk, L.Provided, L.NoReplacing, L.NoCatchIn, StartedExactly;
    var runtime := new Runtime(modules);
    for k := 0 to |early|
      invariant fresh(runtime) && runtime.shared == early[..k]
      invariant !runtime.recording && runtime.View() == L.Blank(modules)
    {
      runtime.shared := runtime.shared + [early[k]];
    }
    assert early[..|early|] == early;
    ghost var replayed;
    smooth, replayed := runtime.Start();
    ghost var middle, checked := runtime.View(), smooth;
    assert late[..0] == [];
    Nothing(middle);
    for k := 0 to |late|
      invariant fresh(runtime) && runtime.recording == L.Replay(L.Blank(modules), early).2
      invariant runtime.shared == early + if runtime.recording then late[..k] else []
      invariant runtime.View() == L.ArriveAll(middle, late[..k]).0
      invariant smooth == (checked && L.ArriveAll(middle, late[..k]).1)
    {
      OneMore(middle, late, k);
      var ok := runtime.Arrive(late[k]);
      smooth := smooth && ok;
    }
    assert late[..|late|] == late;
    shared, page := runtime.shared, runtime.View();
    L.VisitIsSafe(modules, early, late);
    L.SmoothExactly(modules, early, late);
    if L.Provided(modules, early + late) { L.ProvidedIsSmooth(modules, early, late); }
    if L.NoReplacing(modules, early + late) && L.NoCatchIn(modules, early + late) {
      L.SmoothIsProvided(modules, early, late);
    }
    ghost var taken := early[..L.VisitPage(modules, early, late).taken];
    forall d | d in page.started
      ensures multiset(page.log)[d.entry] == if L.TooEarly(modules, taken + late, d.entry) then 0 else 1
    {
      L.BodyRunsExactly(modules, early, late, d);
    }
    if smooth {
      assert early[..|early|] == early;
      L.StartedExactlyWhenQuiet(page, early + late);
    }
  }

  lemma Nothing(p: L.Page)
    ensures L.ArriveAll(p, []) == (p, true)
  {
  }

  lemma OneMore(p: L.Page, chunks: seq<Chunk>, k: nat)
    requires k < |chunks|
    ensures var (p', oks) := L.ArriveAll(p, chunks[..k]);
            L.ArriveAll(p, chunks[..k + 1]) == (L.Arrive(p', chunks[k]).0, oks && L.Arrive(p', chunks[k]).1)
    ensures chunks[..k + 1] == chunks[..k] + [chunks[k]]
  {
    hide L.Arrive;
    assert chunks[..k + 1] == chunks[..k] + [chunks[k]];
    L.ArriveAllConcat(p, chunks[..k], [chunks[k]]);
    Nothing(L.Arrive(L.ArriveAll(p, chunks[..k]).0, chunks[k]).0);
    assert [chunks[k]][1..] == [];
  }
}
