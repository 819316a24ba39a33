/** The insertion-ordered Map of core-js (webpack module `nIH4`): a doubly linked list of entries
    plus an index, with iterators and `forEach` that survive deletion between steps.

    `MapData` is the reference: section 23.1 of ECMA-262 10th edition keeps a list of records in
    insertion order, empties a record in place when it is deleted, and lets an iterator hold a
    position in that list. */
module MapData {
  import opened Common

  datatype Record<K, V> = Empty | Record(key: K, value: V)
  datatype Op<K, V> = Put(key: K, value: V) | Remove(key: K) | Clear
  datatype Cursor = At(position: nat) | Done

  predicate HasKey<K(==), V>(r: Record<K, V>, key: K) {
    r.Record? && r.key == key
  }

  /** The first position at or after i that satisfies HasKey, or |rs|. */
  function Find<K(==), V>(rs: seq<Record<K, V>>, key: K, i: nat := 0): (p: nat)
    requires i <= |rs|
    ensures i <= p <= |rs|
    ensures p < |rs| ==> HasKey(rs[p], key)
    ensures forall q :: i <= q < p ==> !HasKey(rs[q], key)
    decreases |rs| - i
  {
    if i == |rs| || HasKey(rs[i], key) then i else Find(rs, key, i + 1)
  }

  function Apply<K(==), V>(rs: seq<Record<K, V>>, op: Op<K, V>): seq<Record<K, V>> {
    match op
    case Put(key, value) =>
      var p := Find(rs, key);
      if p < |rs| then rs[p := Record(key, value)] else rs + [Record(key, value)]
    case Remove(key) =>
      var p := Find(rs, key);
      if p < |rs| then rs[p := Empty] else rs
    case Clear => seq(|rs|, _ => Empty)
  }

  function ApplyAll<K(==), V>(rs: seq<Record<K, V>>, ops: seq<Op<K, V>>): (rs': seq<Record<K, V>>)
    ensures |rs'| >= |rs|
    decreases |ops|
  {
    if ops == [] then rs else ApplyAll(Apply(rs, ops[0]), ops[1..])
  }

  /** The first live position at or after i, or |rs|. */
  function NextLive<K, V>(rs: seq<Record<K, V>>, i: nat): (p: nat)
    requires i <= |rs|
    ensures i <= p <= |rs|
    ensures p < |rs| ==> rs[p].Record?
    ensures forall q :: i <= q < p ==> rs[q].Empty?
    decreases |rs| - i
  {
    if i == |rs| || rs[i].Record? then i else NextLive(rs, i + 1)
  }

  ghost predicate CursorIn<K, V>(rs: seq<Record<K, V>>, c: Cursor) {
    c.At? ==> c.position <= |rs|
  }

  /** One iterator step: the position yielded, if any, and the cursor after it. */
  function Advance<K, V>(rs: seq<Record<K, V>>, c: Cursor): (r: (Option<nat>, Cursor))
    requires CursorIn(rs, c)
    ensures CursorIn(rs, r.1)
    ensures r.0.Some? ==> r.0.value < |rs| && rs[r.0.value].Record?
  {
    if c.Done? then (None, Done)
    else
      var p := NextLive(rs, c.position);
      if p < |rs| then (Some(p), At(p + 1)) else (None, Done)
  }

  /** No record at positions lo <= i < hi is live. */
  ghost predicate Gone<K, V>(rs: seq<Record<K, V>>, lo: int, hi: int) {
    forall i :: 0 <= i < |rs| && lo <= i < hi ==> rs[i].Empty?
  }

  function LiveCount<K, V>(rs: seq<Record<K, V>>): nat {
    if rs == [] then 0 else LiveCount(rs[..|rs| - 1]) + (if rs[|rs| - 1].Record? then 1 else 0)
  }

  lemma {:induction false} LiveCountUpdate<K, V>(rs: seq<Record<K, V>>, p: nat, r: Record<K, V>)
    requires p < |rs|
    ensures LiveCount(rs[p := r])
            == LiveCount(rs) + (if r.Record? then 1 else 0) - (if rs[p].Record? then 1 else 0)
  {
    var front := rs[..|rs| - 1];
    if p == |rs| - 1 {
      assert rs[p := r][..p] == front;
    } else {
      LiveCountUpdate(front, p, r);
      assert rs[p := r][..|rs| - 1] == front[p := r];
    }
  }

  lemma {:induction false} LiveCountZero<K, V>(rs: seq<Record<K, V>>)
    requires forall p :: 0 <= p < |rs| ==> rs[p].Empty?
    ensures LiveCount(rs) == 0
  {
    if rs != [] { LiveCountZero(rs[..|rs| - 1]); }
  }

  ghost predicate DistinctKeys<K, V>(rs: seq<Record<K, V>>) {
    forall p, q :: 0 <= p < q < |rs| && rs[p].Record? && rs[q].Record? ==> rs[p].key != rs[q].key
  }

  lemma ApplyKeepsDistinctKeys<K, V>(rs: seq<Record<K, V>>, op: Op<K, V>)
    requires DistinctKeys(rs)
    ensures DistinctKeys(Apply(rs, op))
  {
  }

  lemma DistinctKeysAfter<K, V>(rs: seq<Record<K, V>>, p: nat, r: Record<K, V>)
    requires DistinctKeys(rs) && p < |rs| && (r.Record? ==> HasKey(rs[p], r.key))
    ensures DistinctKeys(rs[p := r])
  {
  }

  lemma DistinctKeysAppend<K, V>(rs: seq<Record<K, V>>, r: Record<K, V>)
    requires DistinctKeys(rs) && r.Record? && Find(rs, r.key) == |rs|
    ensures DistinctKeys(rs + [r])
  {
  }

  lemma LiveCountAppend<K, V>(rs: seq<Record<K, V>>, r: Record<K, V>)
    requires r.Record?
    ensures LiveCount(rs + [r]) == LiveCount(rs) + 1
  {
    assert (rs + [r])[..|rs|] == rs;
  }

  lemma FindUnique<K, V>(rs: seq<Record<K, V>>, key: K, p: nat)
    requires DistinctKeys(rs) && p < |rs| && HasKey(rs[p], key)
    ensures Find(rs, key) == p
  {
  }

  /** A search that has reached lo is not stopped by removed records. */
  lemma FindSkipsGone<K, V>(rs: seq<Record<K, V>>, key: K, lo: nat, hi: nat)
    requires lo <= hi <= |rs| && lo <= Find(rs, key) && Gone(rs, lo, hi)
    ensures hi <= Find(rs, key)
  {
  }

  lemma FindStops<K, V>(rs: seq<Record<K, V>>, key: K, p: nat)
    requires p < |rs| && p <= Find(rs, key)
    ensures if HasKey(rs[p], key) then Find(rs, key) == p else p + 1 <= Find(rs, key)
  {
  }

  // ---------------------------------------------------------------- what a key reads back as

  /** A live record says that the key has the value. */
  ghost predicate Maps<K, V>(rs: seq<Record<K, V>>, key: K, value: V) {
    exists p :: 0 <= p < |rs| && rs[p] == Record(key, value)
  }

  /** The records other than those of a key are what and where they were. */
  ghost predicate OthersStay<K, V>(before: seq<Record<K, V>>, after: seq<Record<K, V>>, key: K) {
    && |before| <= |after|
    && (forall p :: 0 <= p < |before| && !HasKey(before[p], key) ==> after[p] == before[p])
    && (forall p :: 0 <= p < |after| && !HasKey(after[p], key) && after[p].Record? ==>
          p < |before| && before[p] == after[p])
  }

  /** After a value has been set for a key, that key has it and no other one. A key that was there
      keeps its place, a new one comes after all others. */
  lemma PutReadsBack<K, V>(rs: seq<Record<K, V>>, key: K, value: V)
    requires DistinctKeys(rs)
    ensures var rs' := Apply(rs, Put(key, value));
            && (forall v :: Maps(rs', key, v) <==> v == value)
            && OthersStay(rs, rs', key)
            && (forall p :: 0 <= p < |rs| && HasKey(rs[p], key) ==> |rs'| == |rs| && rs'[p] == Record(key, value))
            && ((forall p :: 0 <= p < |rs| ==> !HasKey(rs[p], key)) ==>
                  |rs'| == |rs| + 1 && rs'[|rs|] == Record(key, value))
  {
    var rs' := Apply(rs, Put(key, value));
    ApplyKeepsDistinctKeys(rs, Put(key, value));
    assert rs'[Find(rs, key)] == Record(key, value);
  }

  /** After a removal the key has no value, and nothing else has changed. */
  lemma RemoveForgets<K, V>(rs: seq<Record<K, V>>, key: K)
    requires DistinctKeys(rs)
    ensures var rs' := Apply(rs, Remove(key));
            (forall v :: !Maps(rs', key, v)) && OthersStay(rs, rs', key) && |rs'| == |rs|
  {
    ApplyKeepsDistinctKeys(rs, Op<K, V>.Remove(key));
  }

  lemma ClearForgets<K, V>(rs: seq<Record<K, V>>, key: K, value: V)
    ensures !Maps(Apply(rs, Clear), key, value)
  {
  }

  lemma OthersRead<K, V>(before: seq<Record<K, V>>, after: seq<Record<K, V>>, key: K, other: K, value: V)
    requires OthersStay(before, after, key) && other != key
    ensures Maps(after, other, value) <==> Maps(before, other, value)
  {
    if Maps(before, other, value) {
      var p :| 0 <= p < |before| && before[p] == Record(other, value);
      assert after[p] == before[p];
    }
    if Maps(after, other, value) {
      var p :| 0 <= p < |after| && after[p] == Record(other, value);
      assert before[p] == after[p];
    }
  }

  /** The value last set for a key, unless it has been removed or the map cleared since. */
  function LastSet<K(==), V>(ops: seq<Op<K, V>>, key: K): Option<V> {
    if ops == [] then None
    else
      var front := ops[..|ops| - 1];
      match ops[|ops| - 1]
      case Put(k, v) => if k == key then Some(v) else LastSet(front, key)
      case Remove(k) => if k == key then None else LastSet(front, key)
      case Clear => None
  }

  lemma {:induction false} ApplyAllLast<K, V>(rs: seq<Record<K, V>>, ops: seq<Op<K, V>>, op: Op<K, V>)
    ensures ApplyAll(rs, ops + [op]) == Apply(ApplyAll(rs, ops), op)
    decreases |ops|
  {
    hide Apply;
    if ops == [] {
      assert ([] + [op])[1..] == [];
      assert ApplyAll(Apply(rs, op), []) == Apply(rs, op);
    } else {
      ApplyAllLast(Apply(rs, ops[0]), ops[1..], op);
      assert (ops + [op])[1..] == ops[1..] + [op];
    }
  }

  lemma {:induction false} ApplyAllKeepsDistinctKeys<K, V>(rs: seq<Record<K, V>>, ops: seq<Op<K, V>>)
    requires DistinctKeys(rs)
    ensures DistinctKeys(ApplyAll(rs, ops))
    decreases |ops|
  {
    hide Apply, DistinctKeys;
    if ops != [] {
      ApplyKeepsDistinctKeys(rs, ops[0]);
      ApplyAllKeepsDistinctKeys(Apply(rs, ops[0]), ops[1..]);
    }
  }

  /** After any operations on an empty map every key has the value last set for it, and no other. */
  lemma {:induction false} ReadsBackLastSet<K, V>(ops: seq<Op<K, V>>, key: K, value: V)
    ensures Maps(ApplyAll([], ops), key, value) <==> LastSet(ops, key) == Some(value)
  {
    hide Apply, DistinctKeys, OthersStay, Maps;
    if ops == [] {
      NothingMaps(key, value);
    } else {
      var front, op := ops[..|ops| - 1], ops[|ops| - 1];
      var rs := ApplyAll<K, V>([], front);
      assert ops == front + [op];
      ApplyAllLast([], front, op);
      NoneTwice<K, V>();
      ApplyAllKeepsDistinctKeys<K, V>([], front);
      ReadsBackLastSet(front, key, value);
      match op {
        case Put(k, v) =>
          PutReadsBack(rs, k, v);
          if k != key { OthersRead(rs, Apply(rs, op), k, key, value); }
        case Remove(k) =>
          RemoveForgets(rs, k);
          if k != key { OthersRead(rs, Apply(rs, op), k, key, value); }
        case Clear => ClearForgets(rs, key, value);
      }
    }
  }

  lemma FoundHasValue<K, V>(rs: seq<Record<K, V>>, key: K)
    ensures Find(rs, key) < |rs| <==> exists v :: Maps(rs, key, v)
  {
    var p := Find(rs, key);
    if p < |rs| {
      assert Maps(rs, key, rs[p].value);
    }
    if v :| Maps(rs, key, v) {
      var q :| 0 <= q < |rs| && rs[q] == Record(key, v);
      assert HasKey(rs[q], key);
    }
  }

  lemma NothingMaps<K, V>(key: K, value: V)
    ensures !Maps([], key, value)
  {
  }

  lemma NoneTwice<K, V>()
    ensures DistinctKeys<K, V>([])
  {
  }

  /** The size of a map is the number of its live records. */
  lemma {:induction false} LiveCountIsCardinality<K, V>(rs: seq<Record<K, V>>)
    ensures LiveCount(rs) == |set p | 0 <= p < |rs| && rs[p].Record?|
  {
    var live := set p | 0 <= p < |rs| && rs[p].Record?;
    if rs != [] {
      var front, n := rs[..|rs| - 1], |rs| - 1;
      var before := set p | 0 <= p < |front| && front[p].Record?;
      LiveCountIsCardinality(front);
      assert live == if rs[n].Record? then before + {n} else before;
    }
  }

  // ---------------------------------------------------------------- runs of an iterator

  /** Between two iterator steps the map may change in any way. */
  datatype Event<K, V> = Change(op: Op<K, V>) | Step

  /** A traversal so far: positions yielded, and the key and value each had when it was yielded. */
  datatype Trace<K, V> = Trace(records: seq<Record<K, V>>, cursor: Cursor, yielded: seq<nat>, pairs: seq<(K, V)>)

  function Happen<K(==), V>(t: Trace<K, V>, event: Event<K, V>): (t': Trace<K, V>)
    requires CursorIn(t.records, t.cursor)
    ensures CursorIn(t'.records, t'.cursor)
  {
    match event
    case Change(op) => t.(records := Apply(t.records, op))
    case Step =>
      var (p, cursor) := Advance(t.records, t.cursor);
      if p.None? then t.(cursor := cursor)
      else
        var r := t.records[p.value];
        t.(cursor := cursor, yielded := t.yielded + [p.value], pairs := t.pairs + [(r.key, r.value)])
  }

  function Run<K(==), V>(t: Trace<K, V>, events: seq<Event<K, V>>): (t': Trace<K, V>)
    requires CursorIn(t.records, t.cursor)
    ensures CursorIn(t'.records, t'.cursor)
    decreases |events|
  {
    if events == [] then t else Run(Happen(t, events[0]), events[1..])
  }

  /** What holds of a trace between steps: the yielded positions increase and lie below the
      cursor, and every live position below the cursor has been yielded. */
  ghost predicate Faithful<K, V>(t: Trace<K, V>) {
    && CursorIn(t.records, t.cursor)
    && (forall i, j :: 0 <= i < j < |t.yielded| ==> t.yielded[i] < t.yielded[j])
    && (forall i :: 0 <= i < |t.yielded| ==> t.yielded[i] < |t.records|)
    && (t.cursor.At? ==>
          && (forall i :: 0 <= i < |t.yielded| ==> t.yielded[i] < t.cursor.position)
          && (forall p :: 0 <= p < t.cursor.position && t.records[p].Record? ==> p in t.yielded))
  }

  /** A live iteration yields each record at most once, in insertion order, and skips none that
      is still live when it is passed. */
  lemma {:induction false} LiveIteration<K, V>(t: Trace<K, V>, events: seq<Event<K, V>>)
    requires Faithful(t)
    ensures Faithful(Run(t, events))
    ensures t.yielded <= Run(t, events).yielded
    decreases |events|
  {
    if events != [] {
      HappenFaithful(t, events[0]);
      LiveIteration(Happen(t, events[0]), events[1..]);
    }
  }

  /** A change empties records or puts new ones at the end: none comes to life below the end. */
  lemma ChangeKeepsGone<K, V>(rs: seq<Record<K, V>>, op: Op<K, V>, p: nat)
    requires p < |rs|
    ensures p < |Apply(rs, op)| && (rs[p].Empty? ==> Apply(rs, op)[p].Empty?)
  {
  }

  lemma ChangeKeepsFaithful<K, V>(t: Trace<K, V>, op: Op<K, V>)
    requires Faithful(t)
    ensures CursorIn(Apply(t.records, op), t.cursor) && Faithful(t.(records := Apply(t.records, op)))
  {
    hide Apply;
    var rs := Apply(t.records, op);
    if t.cursor.At? && t.cursor.position > 0 { ChangeKeepsGone(t.records, op, t.cursor.position - 1); }
    forall i | 0 <= i < |t.yielded| ensures t.yielded[i] < |rs| {
      ChangeKeepsGone(t.records, op, t.yielded[i]);
    }
    if t.cursor.At? {
      forall p | 0 <= p < t.cursor.position && rs[p].Record? ensures p in t.yielded {
        ChangeKeepsGone(t.records, op, p);
      }
    }
  }

  lemma StepKeepsFaithful<K, V>(t: Trace<K, V>, p: nat)
    requires Faithful(t) && t.cursor.At? && p == NextLive(t.records, t.cursor.position) && p < |t.records|
    ensures Faithful(t.(cursor := Cursor.At(p + 1), yielded := t.yielded + [p],
                        pairs := t.pairs + [(t.records[p].key, t.records[p].value)]))
  {
    hide NextLive;
    var yielded := t.yielded + [p];
    forall q | 0 <= q < p + 1 && t.records[q].Record? ensures q in yielded {
      if q == p { assert yielded[|t.yielded|] == p; } else { assert q in t.yielded; }
    }
  }

  lemma HappenFaithful<K, V>(t: Trace<K, V>, event: Event<K, V>)
    requires Faithful(t)
    ensures Faithful(Happen(t, event)) && t.yielded <= Happen(t, event).yielded
    ensures forall p :: p in Happen(t, event).yielded[|t.yielded|..] ==> t.records[p].Record?
  {
    hide Faithful, Apply;
    InFaithful(t);
    match event
    case Change(op) => ChangeKeepsFaithful(t, op);
    case Step =>
      if t.cursor.At? {
        var p := NextLive(t.records, t.cursor.position);
        if p < |t.records| { StepKeepsFaithful(t, p); } else { DoneKeepsFaithful(t); }
      } else {
        assert Happen(t, event) == t;
      }
  }

  /** A step that yields adds the first live record at or after the cursor, as it stands; one that
      does not has found none there. */
  lemma StepYields<K, V>(t: Trace<K, V>)
    requires CursorIn(t.records, t.cursor) && t.cursor.At?
    ensures var t' := Happen(t, Step);
            && t'.records == t.records
            && if t'.cursor.Done? then
                 && t' == t.(cursor := Done)
                 && forall p :: t.cursor.position <= p < |t.records| ==> t.records[p].Empty?
               else
                 exists p, key, value ::
                   && t.cursor.position <= p < |t.records| && t.records[p] == Record(key, value)
                   && (forall q :: t.cursor.position <= q < p ==> t.records[q].Empty?)
                   && t' == Trace(t.records, At(p + 1), t.yielded + [p], t.pairs + [(key, value)])
  {
    var p := NextLive(t.records, t.cursor.position);
    if p < |t.records| { assert t.records[p] == Record(t.records[p].key, t.records[p].value); }
  }

  lemma InFaithful<K, V>(t: Trace<K, V>)
    requires Faithful(t)
    ensures CursorIn(t.records, t.cursor)
  {
  }

  lemma DoneKeepsFaithful<K, V>(t: Trace<K, V>)
    requires Faithful(t)
    ensures Faithful(t.(cursor := Done))
  {
  }

  /** At the step that exhausts an iterator every live record has been yielded. */
  lemma ExhaustionIsComplete<K, V>(t: Trace<K, V>, p: nat)
    requires Faithful(t) && t.cursor.At? && Happen(t, Step).cursor.Done?
    requires p < |t.records| && t.records[p].Record?
    ensures p in t.yielded
  {
    assert p < t.cursor.position;
  }

  /** An exhausted iterator stays exhausted whatever is added afterwards. */
  lemma {:induction false} DoneStaysDone<K, V>(t: Trace<K, V>, events: seq<Event<K, V>>)
    requires t.cursor.Done?
    ensures Run(t, events).cursor.Done? && Run(t, events).yielded == t.yielded
    decreases |events|
  {
    if events != [] { DoneStaysDone(Happen(t, events[0]), events[1..]); }
  }

  // ---------------------------------------------------------------- forEach

  /** The operations of the next call of the callback. */
  function Head<T>(script: seq<seq<T>>): seq<T> {
    if script == [] then [] else script[0]
  }

  function Rest<T>(script: seq<T>): (rest: seq<T>)
    ensures |rest| <= |script|
    ensures script != [] ==> |rest| < |script|
  {
    if script == [] then [] else script[1..]
  }

  /** The pairs `forEach` passes to a callback whose k-th call performs the operations script[k],
      after the pairs already seen, and the records it leaves. */
  function Visits<K(==), V>(seen: seq<(K, V)>, rs: seq<Record<K, V>>, i: nat, script: seq<seq<Op<K, V>>>):
      (seq<(K, V)>, seq<Record<K, V>>)
    requires i <= |rs|
    decreases |script|, |rs| - i
  {
    var p := NextLive(rs, i);
    if p == |rs| then (seen, rs)
    else Visits(seen + [(rs[p].key, rs[p].value)], ApplyAll(rs, Head(script)), p + 1, Rest(script))
  }

  /** Where a `forEach` that will visit `all` stands: what it has visited, and the next live position. */
  ghost predicate Round<K, V>(all: (seq<(K, V)>, seq<Record<K, V>>), seen: seq<(K, V)>, rs: seq<Record<K, V>>, i: nat,
                              script: seq<seq<Op<K, V>>>, p: nat)
  {
    i <= |rs| && p == NextLive(rs, i) && Visits(seen, rs, i, script) == all
  }

  lemma FirstRound<K, V>(rs: seq<Record<K, V>>, script: seq<seq<Op<K, V>>>)
    ensures Round(Visits([], rs, 0, script), [], rs, 0, script, NextLive(rs, 0))
  {
  }

  lemma LastRound<K, V>(all: (seq<(K, V)>, seq<Record<K, V>>), seen: seq<(K, V)>, rs: seq<Record<K, V>>, i: nat,
                        script: seq<seq<Op<K, V>>>, p: nat)
    requires Round(all, seen, rs, i, script, p) && p >= |rs|
    ensures all == (seen, rs)
  {
  }

  lemma NextRound<K, V>(all: (seq<(K, V)>, seq<Record<K, V>>), seen: seq<(K, V)>, rs: seq<Record<K, V>>, i: nat,
                        script: seq<seq<Op<K, V>>>, p: nat)
    requires Round(all, seen, rs, i, script, p) && p < |rs|
    ensures var rs' := ApplyAll(rs, Head(script));
            && rs[p].Record? && p + 1 <= |rs'|
            && Round(all, seen + [(rs[p].key, rs[p].value)], rs', p + 1, Rest(script), NextLive(rs', p + 1))
            && (|Rest(script)| < |script| || (|Rest(script)| == |script| && |rs'| - (p + 1) < |rs| - i && i < |rs|))
  {
    hide Apply;
  }

  function Changes<K, V>(ops: seq<Op<K, V>>): seq<Event<K, V>> {
    if ops == [] then [] else [Change(ops[0])] + Changes(ops[1..])
  }

  /** The same traversal as events of an iterator: a step, then the callback's changes. */
  function VisitEvents<K(==), V>(rs: seq<Record<K, V>>, i: nat, script: seq<seq<Op<K, V>>>): seq<Event<K, V>>
    requires i <= |rs|
    decreases |script|, |rs| - i
  {
    var p := NextLive(rs, i);
    if p == |rs| then [Step]
    else [Step] + (Changes(Head(script)) + VisitEvents(ApplyAll(rs, Head(script)), p + 1, Rest(script)))
  }

  lemma RunCons<K, V>(t: Trace<K, V>, event: Event<K, V>, rest: seq<Event<K, V>>)
    requires CursorIn(t.records, t.cursor)
    ensures Run(t, [event] + rest) == Run(Happen(t, event), rest)
  {
    assert ([event] + rest)[1..] == rest;
  }

  lemma {:induction false} RunChanges<K, V>(t: Trace<K, V>, ops: seq<Op<K, V>>, rest: seq<Event<K, V>>)
    requires CursorIn(t.records, t.cursor)
    ensures CursorIn(ApplyAll(t.records, ops), t.cursor)
    ensures Run(t, Changes(ops) + rest) == Run(t.(records := ApplyAll(t.records, ops)), rest)
    decreases |ops|
  {
    if ops == [] {
      assert Changes(ops) + rest == rest;
    } else {
      var tail := Changes(ops[1..]) + rest;
      assert Changes(ops) + rest == [Change(ops[0])] + tail;
      RunCons(t, Change(ops[0]), tail);
      RunChanges(Happen(t, Change(ops[0])), ops[1..], rest);
    }
  }

  lemma StepTo<K, V>(t: Trace<K, V>, p: nat)
    requires t.cursor.At? && t.cursor.position <= |t.records| && p == NextLive(t.records, t.cursor.position)
    ensures Happen(t, Step) ==
            if p == |t.records| then t.(cursor := Done)
            else t.(cursor := At(p + 1), yielded := t.yielded + [p],
                    pairs := t.pairs + [(t.records[p].key, t.records[p].value)])
  {
  }

  lemma VisitsEnd<K, V>(seen: seq<(K, V)>, rs: seq<Record<K, V>>, i: nat, script: seq<seq<Op<K, V>>>)
    requires i <= |rs| && NextLive(rs, i) == |rs|
    ensures Visits(seen, rs, i, script) == (seen, rs) && VisitEvents(rs, i, script) == [Step] + []
  {
  }

  lemma VisitsContinue<K, V>(seen: seq<(K, V)>, rs: seq<Record<K, V>>, i: nat, script: seq<seq<Op<K, V>>>, p: nat)
    requires i <= |rs| && p == NextLive(rs, i) && p < |rs|
    ensures var rs' := ApplyAll(rs, Head(script));
            && i <= p && p + 1 <= |rs'|
            && Visits(seen, rs, i, script) == Visits(seen + [(rs[p].key, rs[p].value)], rs', p + 1, Rest(script))
            && VisitEvents(rs, i, script) == [Step] + (Changes(Head(script)) + VisitEvents(rs', p + 1, Rest(script)))
            && (|Rest(script)| < |script| || (|Rest(script)| == |script| && |rs'| == |rs|))
  {
  }

  /** The traversal after the callback for position p. */
  function AfterVisit<K(==), V>(t: Trace<K, V>, p: nat, ops: seq<Op<K, V>>): (t': Trace<K, V>)
    requires p < |t.records| && t.records[p].Record?
    ensures t'.cursor.At? && t'.cursor.position <= |t'.records|
  {
    var r := t.records[p];
    Trace(ApplyAll(t.records, ops), Cursor.At(p + 1), t.yielded + [p], t.pairs + [(r.key, r.value)])
  }

  /** One round of `forEach`, as events and as visits. */
  lemma RoundIsEvents<K, V>(t: Trace<K, V>, script: seq<seq<Op<K, V>>>, p: nat)
    requires t.cursor.At? && t.cursor.position <= |t.records| && CursorIn(t.records, t.cursor)
    requires p == NextLive(t.records, t.cursor.position) && p < |t.records|
    ensures var t' := AfterVisit(t, p, Head(script));
            && CursorIn(t'.records, t'.cursor)
            && Run(t, VisitEvents(t.records, t.cursor.position, script))
               == Run(t', VisitEvents(t'.records, t'.cursor.position, Rest(script)))
            && Visits(t.pairs, t.records, t.cursor.position, script)
               == Visits(t'.pairs, t'.records, t'.cursor.position, Rest(script))
            && (|Rest(script)| < |script| || (|Rest(script)| == |script| && |t'.records| == |t.records|))
            && t.cursor.position <= p && t'.cursor.position == p + 1
  {
    hide Run, Visits, VisitEvents, ApplyAll, NextLive, Happen, Changes, Head, Rest;
    var t1 := Happen(t, Step);
    StepTo(t, p);
    VisitsContinue(t.pairs, t.records, t.cursor.position, script, p);
    var rest := VisitEvents(ApplyAll(t.records, Head(script)), p + 1, Rest(script));
    RunCons(t, Step, Changes(Head(script)) + rest);
    RunChanges(t1, Head(script), rest);
    assert t1.(records := ApplyAll(t.records, Head(script))) == AfterVisit(t, p, Head(script));
  }

  /** `forEach` is a live iteration: it visits exactly what an iterator would yield, to its end,
      and leaves the same records. */
  lemma {:induction false} ForEachIsIteration<K, V>(t: Trace<K, V>, script: seq<seq<Op<K, V>>>)
    requires t.cursor.At? && t.cursor.position <= |t.records|
    ensures CursorIn(t.records, t.cursor)
    ensures var t' := Run(t, VisitEvents(t.records, t.cursor.position, script));
            t'.cursor.Done? && (t'.pairs, t'.records) == Visits(t.pairs, t.records, t.cursor.position, script)
    decreases |script|, |t.records| - t.cursor.position
  {
    assert CursorIn(t.records, t.cursor);
    hide *;
    var p := NextLive(t.records, t.cursor.position);
    if p == |t.records| {
      StepTo(t, p);
      VisitsEnd(t.pairs, t.records, t.cursor.position, script);
      RunCons(t, Step, []);
      RunNone(Happen(t, Step));
    } else {
      RoundIsEvents(t, script, p);
      ForEachIsIteration(AfterVisit(t, p, Head(script)), Rest(script));
    }
  }

  lemma RunNone<K, V>(t: Trace<K, V>)
    requires CursorIn(t.records, t.cursor)
    ensures Run(t, []) == t
  {
  }
}

/** The shape of the linked list, on positions: `prev` and `next` of every entry ever created
    (-1 for none), and the two ends. */
module Links {
  import opened MapData

  datatype Links<K, V> = Links(records: seq<Record<K, V>>, prev: seq<int>, next: seq<int>, first: int, last: int)

  /** `prev` leads to an earlier entry, or to none, over removed entries only; a live entry's
      leads to a live one. This holds of removed entries too, and iterators rely on it. */
  ghost predicate PrevOk<K, V>(l: Links<K, V>, i: nat) {
    && i < |l.prev| == |l.records|
    && -1 <= l.prev[i] < i
    && Gone(l.records, l.prev[i] + 1, i)
    && (l.records[i].Record? && l.prev[i] >= 0 ==> l.records[l.prev[i]].Record?)
  }

  /** `next` of a live entry leads to the next live entry, or to none when there is none. */
  ghost predicate NextOk<K, V>(l: Links<K, V>, i: nat) {
    && i < |l.next| == |l.records|
    && -1 <= l.next[i] < |l.records|
    && (l.records[i].Record? ==>
          if l.next[i] < 0 then Gone(l.records, i + 1, |l.records|)
          else i < l.next[i] && l.records[l.next[i]].Record? && Gone(l.records, i + 1, l.next[i]))
  }

  ghost predicate EndsOk<K, V>(l: Links<K, V>) {
    && -1 <= l.first < |l.records|
    && -1 <= l.last < |l.records|
    && (if l.first < 0 then Gone(l.records, 0, |l.records|)
        else l.records[l.first].Record? && Gone(l.records, 0, l.first))
    && (if l.last < 0 then Gone(l.records, 0, |l.records|)
        else l.records[l.last].Record? && Gone(l.records, l.last + 1, |l.records|))
  }

  ghost predicate Ok<K, V>(l: Links<K, V>) {
    && |l.prev| == |l.next| == |l.records|
    && (forall i :: 0 <= i < |l.records| ==> PrevOk(l, i))
    && (forall i :: 0 <= i < |l.records| ==> NextOk(l, i))
    && EndsOk(l)
  }

  function Overwrite<K, V>(l: Links<K, V>, p: nat, r: Record<K, V>): Links<K, V>
    requires p < |l.records|
  {
    l.(records := l.records[p := r])
  }

  function Append<K, V>(l: Links<K, V>, r: Record<K, V>): Links<K, V>
    requires |l.next| == |l.records| && -1 <= l.last < |l.records|
  {
    var n := |l.records|;
    Links(l.records + [r], l.prev + [l.last],
          (if l.last >= 0 then l.next[l.last := n] else l.next) + [-1],
          if l.first < 0 then n else l.first, n)
  }

  /** Take the entry at p out of the chain of its neighbours; its own pointers stay. */
  function Unlink<K, V>(l: Links<K, V>, p: nat): Links<K, V>
    requires p < |l.records| == |l.prev| == |l.next|
    requires -1 <= l.prev[p] < |l.records| && -1 <= l.next[p] < |l.records|
  {
    var before, after := l.prev[p], l.next[p];
    Links(l.records[p := Empty],
          if after >= 0 then l.prev[after := before] else l.prev,
          if before >= 0 then l.next[before := after] else l.next,
          if l.first == p then after else l.first,
          if l.last == p then before else l.last)
  }

  lemma OverwriteOk<K, V>(l: Links<K, V>, p: nat, r: Record<K, V>)
    requires Ok(l) && p < |l.records| && l.records[p].Record? && r.Record?
    ensures Ok(Overwrite(l, p, r))
  {
    var l' := Overwrite(l, p, r);
    forall i | 0 <= i < |l.records| ensures PrevOk(l', i) && NextOk(l', i) {
      assert PrevOk(l, i) && NextOk(l, i);
    }
  }

  lemma AppendOk<K, V>(l: Links<K, V>, r: Record<K, V>)
    requires Ok(l) && r.Record?
    ensures Ok(Append(l, r))
  {
    var l' := Append(l, r);
    forall i | 0 <= i < |l'.records| ensures PrevOk(l', i) && NextOk(l', i) {
      if i < |l.records| {
        assert PrevOk(l, i) && NextOk(l, i);
        if l.records[i].Record? && i != l.last { assert l.next[i] >= 0; }
      }
    }
  }

  lemma OkAt<K, V>(l: Links<K, V>, p: int)
    requires Ok(l) && 0 <= p < |l.records|
    ensures PrevOk(l, p) && NextOk(l, p)
  {
  }

  lemma OkOrder<K, V>(l: Links<K, V>, p: nat)
    requires PrevOk(l, p) && NextOk(l, p) && l.records[p].Record?
    ensures -1 <= l.prev[p] < p && (l.next[p] < 0 || p < l.next[p])
  {
  }

  lemma OkEnds<K, V>(l: Links<K, V>)
    requires Ok(l)
    ensures |l.prev| == |l.next| == |l.records| && -1 <= l.first < |l.records| && -1 <= l.last < |l.records|
  {
  }

  /** Two live entries with nothing live between them point at each other. */
  lemma Neighbours<K, V>(l: Links<K, V>, i: nat, j: nat)
    requires PrevOk(l, j) && NextOk(l, i) && i < j
    requires l.records[i].Record? && l.records[j].Record?
    ensures l.next[i] == j <==> l.prev[j] == i
  {
  }

  lemma UnlinkPrev<K, V>(l: Links<K, V>, p: nat, i: nat)
    requires Ok(l) && p < |l.records| && l.records[p].Record? && i < |l.records|
    requires PrevOk(l, p) && NextOk(l, p) && PrevOk(l, i)
    ensures PrevOk(Unlink(l, p), i)
  {
    if p < i && l.records[i].Record? { Neighbours(l, p, i); }
  }

  lemma UnlinkNext<K, V>(l: Links<K, V>, p: nat, i: nat)
    requires Ok(l) && p < |l.records| && l.records[p].Record? && i < |l.records|
    requires PrevOk(l, p) && NextOk(l, p) && NextOk(l, i)
    ensures NextOk(Unlink(l, p), i)
  {
    if i < p && l.records[i].Record? { Neighbours(l, i, p); }
  }

  lemma UnlinkEnds<K, V>(l: Links<K, V>, p: nat)
    requires Ok(l) && p < |l.records| && l.records[p].Record?
    requires PrevOk(l, p) && NextOk(l, p)
    ensures EndsOk(Unlink(l, p))
  {
  }

  lemma UnlinkOk<K, V>(l: Links<K, V>, p: nat)
    requires Ok(l) && p < |l.records| && l.records[p].Record?
    requires PrevOk(l, p) && NextOk(l, p)
    ensures Ok(Unlink(l, p))
  {
    var l' := Unlink(l, p);
    forall i | 0 <= i < |l.records| ensures PrevOk(l', i) && NextOk(l', i) {
      UnlinkPrev(l, p, i);
      UnlinkNext(l, p, i);
    }
    UnlinkEnds(l, p);
  }

  /** `clear` at one entry: empty its record and cut it off from its predecessor. */
  function Cut<K, V>(l: Links<K, V>, c: nat): Links<K, V>
    requires c < |l.records| == |l.prev| == |l.next| && -1 <= l.prev[c] < |l.records|
  {
    l.(records := l.records[c := Empty], prev := l.prev[c := -1],
       next := if l.prev[c] >= 0 then l.next[l.prev[c] := -1] else l.next)
  }

  /** While `clear` walks the list of `before` and is about to handle position c (or is past the end). */
  ghost predicate Clearing<K, V>(before: Links<K, V>, l: Links<K, V>, c: int) {
    && |l.records| == |l.prev| == |l.next| == |before.records|
    && -1 <= c < |l.records|
    && Ok(before)
    && (if c < 0 then Gone(l.records, 0, |l.records|) else l.records[c].Record? && Gone(l.records, 0, c))
    && (forall i :: 0 <= i < |l.records| ==> -1 <= l.prev[i] < i && -1 <= l.next[i] < |l.records|)
    && (c >= 0 ==> forall i :: c <= i < |l.records| ==>
          l.records[i] == before.records[i] && l.prev[i] == before.prev[i] && l.next[i] == before.next[i])
  }

  lemma ClearingStarts<K, V>(l: Links<K, V>)
    requires Ok(l)
    ensures Clearing(l, l, l.first)
  {
    forall i | 0 <= i < |l.records| ensures -1 <= l.prev[i] < i && -1 <= l.next[i] < |l.records| {
      assert PrevOk(l, i) && NextOk(l, i);
    }
  }

  lemma ClearingAt<K, V>(before: Links<K, V>, l: Links<K, V>, c: nat)
    requires Clearing(before, l, c) && c < |l.records|
    ensures |l.records| == |l.prev| == |l.next| && l.records[c].Record?
    ensures -1 <= l.prev[c] < c && -1 <= l.next[c] < |l.records|
  {
  }

  lemma ClearingContinues<K, V>(before: Links<K, V>, l: Links<K, V>, c: nat)
    requires Clearing(before, l, c) && c < |l.records|
    ensures Clearing(before, Cut(l, c), l.next[c]) && Cut(l, c).next[c] == l.next[c]
    ensures l.next[c] < 0 || c < l.next[c]
  {
    assert NextOk(before, c);
  }

  lemma ClearingEnds<K, V>(before: Links<K, V>, l: Links<K, V>)
    requires Clearing(before, l, -1)
    ensures Ok(l.(first := -1, last := -1))
  {
    var l' := l.(first := -1, last := -1);
    forall i | 0 <= i < |l.records| ensures PrevOk(l', i) && NextOk(l', i) {
    }
  }

  /** From position i, walk back over removed entries. */
  function Back<K, V>(l: Links<K, V>, i: int): (j: int)
    requires -1 <= i < |l.records| == |l.prev|
    requires forall k :: 0 <= k < |l.records| ==> -1 <= l.prev[k] < k
    ensures -1 <= j <= i
  {
    if i < 0 || l.records[i].Record? then i else Back(l, l.prev[i])
  }

  lemma {:induction false} BackSkipsRemoved<K, V>(l: Links<K, V>, i: int)
    requires Ok(l) && -1 <= i < |l.records|
    requires forall k :: 0 <= k < |l.records| ==> -1 <= l.prev[k] < k
    ensures var j := Back(l, i); Gone(l.records, j + 1, i + 1) && (j >= 0 ==> l.records[j].Record?)
    decreases i
  {
    if i >= 0 && l.records[i].Empty? {
      assert PrevOk(l, i);
      BackSkipsRemoved(l, l.prev[i]);
    }
  }

  lemma PrevIsEarlier<K, V>(l: Links<K, V>)
    requires Ok(l)
    ensures forall k :: 0 <= k < |l.records| ==> -1 <= l.prev[k] < k
  {
    forall k | 0 <= k < |l.records| ensures -1 <= l.prev[k] < k { assert PrevOk(l, k); }
  }

  /** The entry after the nearest live predecessor is the next live entry of the reference list. */
  lemma SuccessorIsNextLive<K, V>(l: Links<K, V>, i: int, j: int)
    requires Ok(l) && -1 <= j <= i < |l.records|
    requires Gone(l.records, j + 1, i + 1) && (j >= 0 ==> l.records[j].Record?)
    ensures var s := if j >= 0 then l.next[j] else l.first;
            NextLive(l.records, i + 1) == if s < 0 then |l.records| else s
  {
    if j >= 0 { assert NextOk(l, j); }
  }
}

module LinkedMap {
  import opened Common
  import opened MapData
  import L = Links

  class Entry<K, V> {
    const key: K
    var value: V
    var previous: Entry?<K, V>
    var next: Entry?<K, V>
    var removed: bool
    ghost const pos: nat  // position of the entry's record in the reference list

    constructor (key: K, value: V, previous: Entry?<K, V>, ghost pos: nat)
      ensures this.key == key && this.value == value && this.previous == previous && this.pos == pos
      ensures next == null && !removed
    {
      this.key, this.value, this.previous, this.next, this.removed := key, value, previous, null, false;
      this.pos := pos;
    }
  }

  ghost predicate Extends<K, V>(a: seq<Entry<K, V>>, b: seq<Entry<K, V>>) {
    |a| <= |b| && forall i :: 0 <= i < |a| ==> b[i] == a[i]
  }

  /** Extending once more what already starts with `a`. */
  lemma ExtendsFurther<K, V>(a: seq<Entry<K, V>>, b: seq<Entry<K, V>>, c: seq<Entry<K, V>>)
    requires |a| <= |b| && (forall i :: 0 <= i < |a| ==> b[i] == a[i]) && Extends(b, c)
    ensures |a| <= |c| && forall i :: 0 <= i < |a| ==> c[i] == a[i]
  {
  }

  ghost predicate Holds<K, V>(hist: seq<Entry<K, V>>, records: seq<Record<K, V>>, e: Entry<K, V>, key: K) {
    e.pos < |hist| == |records| && hist[e.pos] == e && HasKey(records[e.pos], key)
  }

  /** The index holds exactly the live entries whose key has an index key. */
  ghost predicate IndexOk<K, V>(fast: K -> bool, index: map<K, Entry<K, V>>, hist: seq<Entry<K, V>>,
                                records: seq<Record<K, V>>)
  {
    && |hist| == |records|
    && (forall k :: k in index ==> fast(k) && Holds(hist, records, index[k], k))
    && (forall i :: 0 <= i < |hist| && records[i].Record? && fast(records[i].key) ==>
          records[i].key in index && index[records[i].key] == hist[i])
  }

  lemma IndexAppend<K, V>(fast: K -> bool, index: map<K, Entry<K, V>>, hist: seq<Entry<K, V>>,
                          records: seq<Record<K, V>>, e: Entry<K, V>, r: Record<K, V>)
    requires IndexOk(fast, index, hist, records)
    requires r.Record? && Find(records, r.key) == |records| && e.pos == |hist|
    ensures IndexOk(fast, if fast(r.key) then index[r.key := e] else index, hist + [e], records + [r])
  {
    forall k | k in index && k != r.key ensures Holds(hist + [e], records + [r], index[k], k) {
      assert Holds(hist, records, index[k], k);
    }
  }

  lemma IndexOverwrite<K, V>(fast: K -> bool, index: map<K, Entry<K, V>>, hist: seq<Entry<K, V>>,
                             records: seq<Record<K, V>>, p: nat, r: Record<K, V>)
    requires IndexOk(fast, index, hist, records)
    requires p < |records| && r.Record? && HasKey(records[p], r.key)
    ensures IndexOk(fast, index, hist, records[p := r])
  {
    forall k | k in index ensures Holds(hist, records[p := r], index[k], k) {
      assert Holds(hist, records, index[k], k);
    }
  }

  lemma IndexRemove<K, V>(fast: K -> bool, index: map<K, Entry<K, V>>, hist: seq<Entry<K, V>>,
                          records: seq<Record<K, V>>, p: nat)
    requires IndexOk(fast, index, hist, records) && DistinctKeys(records)
    requires p < |records| && records[p].Record?
    ensures IndexOk(fast, index - {records[p].key}, hist, records[p := Empty])
  {
    var rest := index - {records[p].key};
    forall k | k in rest ensures Holds(hist, records[p := Empty], rest[k], k) {
      assert Holds(hist, records, index[k], k);
    }
  }

  /** The internal state of one Map. Keys for which `fast` holds have an index key of their own;
      the others (frozen objects) are found by walking the list. */
  class State<K(==), V> {
    const fast: K -> bool
    var index: map<K, Entry<K, V>>
    var first: Entry?<K, V>
    var last: Entry?<K, V>
    var size: int
    ghost var hist: seq<Entry<K, V>>   // every entry ever created, in insertion order
    ghost var links: L.Links<K, V>     // the reference list and the shape of the linked list

    ghost function At(p: int): Entry?<K, V>
      reads `hist
    {
      if 0 <= p < |hist| then hist[p] else null
    }

    /** The fields of the entry at position i. */
    ghost predicate EntryOk(i: nat)
      reads `hist, `links, hist
    {
      && i < |hist| == |links.records| == |links.prev| == |links.next|
      && hist[i].pos == i
      && hist[i].removed == links.records[i].Empty?
      && (links.records[i].Record? ==> links.records[i] == Record(hist[i].key, hist[i].value))
      && -1 <= links.prev[i] < |hist|
      && -1 <= links.next[i] < |hist|
      && hist[i].previous == At(links.prev[i])
      && hist[i].next == At(links.next[i])
    }

    ghost predicate Represents()
      reads `hist, `links, `first, `last, hist
    {
      && L.Ok(links)
      && |hist| == |links.records|
      && (forall i :: 0 <= i < |hist| ==> EntryOk(i))
      && first == At(links.first)
      && last == At(links.last)
    }

    ghost predicate Valid()
      reads this, hist
    {
      && Represents() && IndexOk(fast, index, hist, links.records)
      && DistinctKeys(links.records) && size == LiveCount(links.records)
    }

    constructor (fast: K -> bool)
      ensures Valid() && hist == [] && links.records == [] && this.fast == fast
    {
      this.fast := fast;
      index, first, last, size := map[], null, null, 0;
      hist, links := [], L.Links([], [], [], -1, -1);
    }

    /** `y`, without an index key: walk the list. */
    method Scan(key: K) returns (e: Entry?<K, V>)
      requires Represents()
      ensures e == At(Find(links.records, key))
    {
      ghost var p := Find(links.records, key);
      ghost var i := links.first;
      e := first;
      FindSkipsGone(links.records, key, 0, if i < 0 then |hist| else i);
      while e != null
        invariant -1 <= i < |hist| && e == At(i)
        invariant if i < 0 then p == |hist| else links.records[i].Record? && i <= p
        decreases if i < 0 then 0 else |hist| - i
      {
        assert EntryOk(i) && L.NextOk(links, i);
        FindStops(links.records, key, i);
        if e.key == key {
          return;
        }
        FindSkipsGone(links.records, key, i + 1, if links.next[i] < 0 then |hist| else links.next[i]);
        e, i := e.next, links.next[i];
      }
    }

    /** `y`: look a key up in the index, or walk the list when it has no index key. */
    method GetEntry(key: K) returns (e: Entry?<K, V>)
      requires Valid()
      ensures e == At(Find(links.records, key))
    {
      if !fast(key) {
        e := Scan(key);
      } else if key in index {
        e := index[key];
        assert Holds(hist, links.records, e, key);
        FindUnique(links.records, key, e.pos);
      } else {
        e := null;
      }
    }

    /** `g`: overwrite the value of a live entry, or append a new entry. */
    method Put(key: K, value: V)
      requires Valid()
      modifies this, hist
      ensures Valid() && Extends(old(hist), hist) && forall i :: |old(hist)| <= i < |hist| ==> fresh(hist[i])
      ensures links.records == Apply(old(links.records), Op.Put(key, value))
      ensures (forall v :: Maps(links.records, key, v) <==> v == value)
      ensures OthersStay(old(links.records), links.records, key)
    {
      PutReadsBack(links.records, key, value);
      var e := GetEntry(key);
      assert e != null ==> EntryOk(Find(links.records, key));
      if e != null {
        Overwrite(e, value);
      } else {
        Append(key, value);
      }
    }

    method Overwrite(e: Entry<K, V>, value: V)
      requires Valid() && e.pos < |hist| && hist[e.pos] == e && links.records[e.pos].Record?
      modifies this`links, e`value
      ensures Valid() && links.records == old(links.records)[e.pos := Record(e.key, value)]
    {
      hide IndexOk, LiveCount, DistinctKeys, L.Ok;
      assert EntryOk(e.pos);
      DistinctKeysAfter(links.records, e.pos, Record(e.key, value));
      LiveCountUpdate(links.records, e.pos, Record(e.key, value));
      IndexOverwrite(fast, index, hist, links.records, e.pos, Record(e.key, value));
      L.OverwriteOk(links, e.pos, Record(e.key, value));
      e.value := value;
      links := L.Overwrite(links, e.pos, Record(e.key, value));
      forall i | 0 <= i < |hist| ensures EntryOk(i) {
        assert old(EntryOk(i));
      }
    }

    method Append(key: K, value: V)
      requires Valid() && Find(links.records, key) == |links.records|
      modifies this, hist
      ensures Valid() && Extends(old(hist), hist) && forall i :: |old(hist)| <= i < |hist| ==> fresh(hist[i])
      ensures links.records == old(links.records) + [Record(key, value)]
    {
      hide IndexOk, LiveCount, DistinctKeys, L.Ok, Find;
      LiveCountAppend(links.records, Record(key, value));
      DistinctKeysAppend(links.records, Record(key, value));
      var e := AppendLink(key, value);
      assert EntryOk(|hist| - 1);
      IndexAppend(fast, index, old(hist), old(links.records), e, Record(key, value));
      size := size + 1;
      if fast(key) { index := index[key := e]; }
    }

    method AppendLink(key: K, value: V) returns (e: Entry<K, V>)
      requires Represents()
      modifies this`first, this`last, this`hist, this`links, hist
      ensures Represents() && hist == old(hist) + [e] && fresh(e)
      ensures links == L.Append(old(links), Record(key, value))
    {
      hide L.Ok;
      L.OkEnds(links);
      L.AppendOk(links, Record(key, value));
      assert links.last >= 0 ==> EntryOk(links.last);
      var r := last;
      ghost var before := links;
      e := NewEntry(key, value, r);
      last := e;
      if first == null { first := e; }
      if r != null { SetNext(r, before.last, e, |before.records|); }
      assert links == L.Append(before, Record(key, value));
    }

    /** A new last entry that its predecessor does not point at yet. */
    method NewEntry(key: K, value: V, r: Entry?<K, V>) returns (e: Entry<K, V>)
      requires (forall i :: 0 <= i < |hist| ==> EntryOk(i)) && |links.prev| == |links.next| == |links.records| == |hist|
      requires -1 <= links.last < |hist| && r == At(links.last)
      modifies `hist, `links
      ensures hist == old(hist) + [e] && fresh(e)
      ensures forall i :: 0 <= i < |hist| ==> EntryOk(i)
      ensures var l := old(links); var n := |old(hist)|;
              links == L.Links(l.records + [Record(key, value)], l.prev + [l.last], l.next + [-1],
                               if l.first < 0 then n else l.first, n)
    {
      e := new Entry(key, value, r, |hist|);
      links := L.Links(links.records + [Record(key, value)], links.prev + [links.last], links.next + [-1],
                       if links.first < 0 then |hist| else links.first, |hist|);
      hist := hist + [e];
      forall i | 0 <= i < |hist| ensures EntryOk(i) {
        assert i < |hist| - 1 ==> old(EntryOk(i));
      }
    }

    method SetRemoved(ghost p: nat, e: Entry<K, V>)
      requires (forall i :: 0 <= i < |hist| ==> EntryOk(i)) && p < |hist| && e == hist[p]
      modifies `links, e`removed
      ensures forall i :: 0 <= i < |hist| ==> EntryOk(i)
      ensures old(EntryOk(p)) && links == old(links).(records := old(links).records[p := Empty])
    {
      assert EntryOk(p);
      e.removed := true;
      links := links.(records := links.records[p := Empty]);
      forall i | 0 <= i < |hist| ensures EntryOk(i) {
        assert old(EntryOk(i));
      }
    }

    method SetNext(e: Entry<K, V>, ghost p: int, n: Entry?<K, V>, ghost to: int)
      requires (forall i :: 0 <= i < |hist| ==> EntryOk(i)) && 0 <= p < |hist| && e == hist[p]
      requires -1 <= to < |hist| && n == At(to)
      modifies `links, e`next
      ensures forall i :: 0 <= i < |hist| ==> EntryOk(i)
      ensures old(EntryOk(p)) && links == old(links).(next := old(links).next[p := to])
    {
      assert EntryOk(p);
      e.next := n;
      links := links.(next := links.next[p := to]);
      forall i | 0 <= i < |hist| ensures EntryOk(i) {
        assert old(EntryOk(i));
      }
    }

    method SetPrevious(e: Entry<K, V>, ghost p: int, n: Entry?<K, V>, ghost to: int)
      requires (forall i :: 0 <= i < |hist| ==> EntryOk(i)) && 0 <= p < |hist| && e == hist[p]
      requires -1 <= to < |hist| && n == At(to)
      modifies `links, e`previous
      ensures forall i :: 0 <= i < |hist| ==> EntryOk(i)
      ensures old(EntryOk(p)) && links == old(links).(prev := old(links).prev[p := to])
    {
      assert EntryOk(p);
      e.previous := n;
      links := links.(prev := links.prev[p := to]);
      forall i | 0 <= i < |hist| ensures EntryOk(i) {
        assert old(EntryOk(i));
      }
    }

    /** `delete`. */
    method Remove(key: K) returns (found: bool)
      requires Valid()
      modifies this, hist
      ensures Valid() && hist == old(hist)
      ensures links.records == Apply(old(links.records), Op.Remove(key))
      ensures found <==> exists v :: Maps(old(links.records), key, v)
      ensures (forall v :: !Maps(links.records, key, v)) && OthersStay(old(links.records), links.records, key)
    {
      RemoveForgets(links.records, key);
      FoundHasValue(links.records, key);
      var e := GetEntry(key);
      found := e != null;
      if e != null {
        assert EntryOk(Find(links.records, key));
        Drop(e);
      }
    }

    method Drop(e: Entry<K, V>)
      requires Valid() && e.pos < |hist| && hist[e.pos] == e && links.records[e.pos].Record?
      modifies this, hist
      ensures Valid() && hist == old(hist)
      ensures e.pos < |old(links.records)| && links.records == old(links.records)[e.pos := Empty]
    {
      hide IndexOk, LiveCount, DistinctKeys, L.Ok;
      assert EntryOk(e.pos);
      LiveCountUpdate(links.records, e.pos, Empty);
      DistinctKeysAfter(links.records, e.pos, Empty);
      IndexRemove(fast, index, hist, links.records, e.pos);
      Unlink(e);
      index := index - {e.key};
      size := size - 1;
    }

    method Unlink(e: Entry<K, V>)
      requires Represents() && e.pos < |hist| && hist[e.pos] == e && links.records[e.pos].Record?
      modifies `first, `last, `links, hist
      ensures Represents()
      ensures e.pos < |old(links.records)| && links.records == old(links.records)[e.pos := Empty]
    {
      hide L.Ok, L.PrevOk, L.NextOk;
      ghost var p := e.pos;
      L.OkAt(links, p);
      L.OkEnds(links);
      L.OkOrder(links, p);
      assert EntryOk(p);
      assert links.first >= 0 ==> EntryOk(links.first);
      assert links.last >= 0 ==> EntryOk(links.last);
      L.UnlinkOk(links, p);
      var r, o := e.next, e.previous;
      BypassEntry(e, p);
      if first == e { first := r; }
      if last == e { last := o; }
    }

    method BypassEntry(e: Entry<K, V>, ghost p: nat)
      requires (forall i :: 0 <= i < |hist| ==> EntryOk(i)) && p < |hist| && e == hist[p] && EntryOk(p)
      requires links.prev[p] < p && (links.next[p] < 0 || p < links.next[p])
      modifies `links, hist
      ensures forall i :: 0 <= i < |hist| ==> EntryOk(i)
      ensures old(EntryOk(p)) && links == L.Unlink(old(links), p)
    {
      var r, o := e.next, e.previous;
      ghost var before, after := links.prev[p], links.next[p];
      SetRemoved(p, e);
      if o != null { SetNext(o, before, r, after); }
      if r != null { SetPrevious(r, after, o, before); }
      label Bypassed:
      links := links.(first := if links.first == p then after else links.first,
                      last := if links.last == p then before else links.last);
      forall i | 0 <= i < |hist| ensures EntryOk(i) {
        assert old@Bypassed(EntryOk(i));
      }
    }

    method Clear()
      requires Valid()
      modifies this, hist
      ensures Valid() && hist == old(hist)
      ensures links.records == Apply(old(links.records), Op.Clear)
      ensures forall k, v :: !Maps(links.records, k, v)
    {
      ghost var before := links;
      CutAll();
      label Cut:
      L.ClearingEnds(before, links);
      LiveCountZero(links.records);
      first, last, size := null, null, 0;
      links := links.(first := -1, last := -1);
      forall i | 0 <= i < |hist| ensures EntryOk(i) {
        assert old@Cut(EntryOk(i));
      }
    }

    method CutAll()
      requires Valid()
      modifies `index, `links, hist
      ensures L.Clearing(old(links), links, -1)
      ensures forall i :: 0 <= i < |hist| ==> EntryOk(i)
      ensures IndexOk(fast, index, hist, links.records) && DistinctKeys(links.records)
    {
      hide IndexOk, DistinctKeys, L.Ok, L.Clearing, LiveCount;
      ghost var before := links;
      ghost var c := links.first;
      var n := first;
      L.ClearingStarts(links);
      while n != null
        invariant n == At(c) && -1 <= c < |hist| == |links.records| && L.Clearing(before, links, c)
        invariant forall i :: 0 <= i < |hist| ==> EntryOk(i)
        invariant IndexOk(fast, index, hist, links.records) && DistinctKeys(links.records)
        decreases if c < 0 then 0 else |hist| - c
      {
        L.ClearingAt(before, links, c);
        L.ClearingContinues(before, links, c);
        DistinctKeysAfter(links.records, c, Empty);
        IndexRemove(fast, index, hist, links.records, c);
        assert EntryOk(c);
        index := index - {n.key};
        n := CutEntry(n, c);
        c := links.next[c];
      }
    }

    method CutEntry(n: Entry<K, V>, ghost c: nat) returns (next: Entry?<K, V>)
      requires (forall i :: 0 <= i < |hist| ==> EntryOk(i)) && c < |hist| && n == hist[c]
      requires EntryOk(c) && links.prev[c] < c
      modifies `links, hist
      ensures forall i :: 0 <= i < |hist| ==> EntryOk(i)
      ensures old(EntryOk(c)) && links == L.Cut(old(links), c) && next == At(links.next[c])
    {
      ghost var before := links.prev[c];
      SetRemoved(c, n);
      assert EntryOk(c);
      var o := n.previous;
      if o != null {
        SetNext(o, before, null, -1);
        SetPrevious(n, c, null, -1);
        assert EntryOk(c);
      }
      next := n.next;
    }

    method Has(key: K) returns (found: bool)
      requires Valid()
      ensures found <==> exists p :: 0 <= p < |links.records| && HasKey(links.records[p], key)
    {
      var e := GetEntry(key);
      found := e != null;
      assert found ==> HasKey(links.records[Find(links.records, key)], key);
    }

    method Get(key: K) returns (value: Option<V>)
      requires Valid()
      ensures var p := Find(links.records, key);
              value == if p < |links.records| then Some(links.records[p].value) else None
      ensures forall v :: value == Some(v) <==> Maps(links.records, key, v)
    {
      var e := GetEntry(key);
      assert e != null ==> EntryOk(Find(links.records, key));
      value := if e != null then Some(e.value) else None;
    }

    /** From an entry that may have been removed (or none), back to the nearest live predecessor
        and on to the entry after it. */
    method Successor(e: Entry?<K, V>) returns (n: Entry?<K, V>)
      requires Valid() && (e != null ==> e.pos < |hist| && hist[e.pos] == e)
      ensures n == At(NextLive(links.records, if e == null then 0 else e.pos + 1))
    {
      hide L.Ok, IndexOk, DistinctKeys, LiveCount, NextLive;
      assert e != null ==> EntryOk(e.pos);
      L.OkEnds(links);
      ghost var i := if e == null then -1 else e.pos;
      ghost var j := i;
      L.PrevIsEarlier(links);
      n := e;
      while n != null && n.removed
        invariant -1 <= j <= i && n == At(j) && L.Back(links, j) == L.Back(links, i)
        decreases j
      {
        assert EntryOk(j);
        n, j := n.previous, links.prev[j];
      }
      assert j >= 0 ==> EntryOk(j);
      L.BackSkipsRemoved(links, i);
      L.SuccessorIsNextLive(links, i, j);
      n := if n != null then n.next else first;
    }

    lemma SameLength()
      requires Valid()
      ensures |hist| == |links.records|
    {
    }

    method Perform(op: Op<K, V>)
      requires Valid()
      modifies this, hist
      ensures Valid() && Extends(old(hist), hist) && forall i :: |old(hist)| <= i < |hist| ==> fresh(hist[i])
      ensures links.records == Apply(old(links.records), op)
    {
      match op
      case Put(key, value) => Put(key, value);
      case Remove(key) => var _ := Remove(key);
      case Clear => Clear();
    }

    method PerformAll(ops: seq<Op<K, V>>)
      requires Valid()
      modifies this, hist
      ensures Valid() && Extends(old(hist), hist) && forall i :: |old(hist)| <= i < |hist| ==> fresh(hist[i])
      ensures links.records == ApplyAll(old(links.records), ops)
    {
      for k := 0 to |ops|
        invariant Valid() && Extends(old(hist), hist) && forall i :: |old(hist)| <= i < |hist| ==> fresh(hist[i])
        invariant ApplyAll(links.records, ops[k..]) == ApplyAll(old(links.records), ops)
      {
        Perform(ops[k]);
      }
    }

    /** One round of `forEach`: call the callback, then move on from the entry it was called for. */
    method Visit(e: Entry<K, V>, ops: seq<Op<K, V>>, ghost p: nat) returns (pair: (K, V), n: Entry?<K, V>)
      requires Valid() && At(p) == e && p < |links.records| && links.records[p].Record?
      modifies this, hist
      ensures Valid() && Extends(old(hist), hist) && forall i :: |old(hist)| <= i < |hist| ==> fresh(hist[i])
      ensures links.records == ApplyAll(old(links.records), ops)
      ensures pair == (old(links.records)[p].key, old(links.records)[p].value)
      ensures p + 1 <= |links.records| && n == At(NextLive(links.records, p + 1))
    {
      assert EntryOk(p);
      pair := (e.key, e.value);
      PerformAll(ops);
      n := Successor(e);
    }

    /** `forEach`, with a callback that performs script[k] in its k-th call. */
    method ForEach(script: seq<seq<Op<K, V>>>) returns (visited: seq<(K, V)>)
      requires Valid()
      modifies this, hist
      ensures Valid()
      ensures (visited, links.records) == Visits([], old(links.records), 0, script)
    {
      hide *;
      visited := [];
      var rest := script;
      var e := Successor(null);
      ghost var rs, i: nat, p: nat := links.records, 0, NextLive(links.records, 0);
      ghost var all := Visits([], rs, 0, script);
      FirstRound(rs, script);
      AtEnd(p);
      while e != null
        invariant Valid() && |old(hist)| <= |hist| && forall k :: 0 <= k < |old(hist)| ==> hist[k] == old(hist)[k]
        invariant forall k :: |old(hist)| <= k < |hist| ==> fresh(hist[k])
        invariant rs == links.records && e == At(p) && (e != null <==> p < |rs|)
        invariant Round(all, visited, rs, i, rest, p)
        decreases |rest|, |rs| - i
      {
        NextRound(all, visited, rs, i, rest, p);
        ghost var before := hist;
        var pair;
        pair, e := Visit(e, Head(rest), p);
        ExtendsFurther(old(hist), before, hist);
        rs, i := links.records, p + 1;
        visited, rest, p := visited + [pair], Rest(rest), NextLive(rs, i);
        AtEnd(p);
      }
      LastRound(all, visited, rs, i, rest, p);
    }

    lemma AtEnd(p: nat)
      requires Valid() && p <= |links.records|
      ensures At(p) == null <==> p == |links.records|
    {
    }
  }

  /** A Map iterator: `finished` once its target has been dropped. */
  class Iterator<K(==), V> {
    const state: State<K, V>
    var finished: bool
    var last: Entry?<K, V>

    ghost predicate Valid()
      reads this, state, state.hist
    {
      state.Valid() && (last != null ==> last.pos < |state.hist| && state.hist[last.pos] == last)
    }

    ghost function View(): Cursor
      reads this
    {
      if finished then Done else Cursor.At(if last == null then 0 else last.pos + 1)
    }

    constructor (state: State<K, V>)
      requires state.Valid()
      ensures Valid() && this.state == state && View() == Cursor.At(0)
    {
      this.state, finished, last := state, false, null;
    }

    method Next() returns (r: Option<(K, V)>)
      requires Valid()
      modifies this
      ensures Valid() && CursorIn(state.links.records, old(View()))
      ensures var (p, cursor) := Advance(state.links.records, old(View()));
              && View() == cursor
              && r == if p.None? then None
                      else Some((state.links.records[p.value].key, state.links.records[p.value].value))
    {
      hide L.Ok, IndexOk, DistinctKeys, LiveCount, NextLive;
      state.SameLength();
      var n := state.Successor(last);
      if !finished && n != null {
        last := n;
        assert state.EntryOk(NextLive(state.links.records, old(View()).position));
        r := Some((n.key, n.value));
      } else {
        finished, last := true, null;
        r := None;
      }
    }
  }

  /** A whole traversal of the linked map, with changes between the iterator's steps, yields what
      the reference traversal yields. */
  method Traverse<K(==), V>(state: State<K, V>, events: seq<Event<K, V>>) returns (pairs: seq<(K, V)>)
    requires state.Valid()
    modifies state, state.hist
    ensures state.Valid()
    ensures var t := Run(Trace(old(state.links.records), Cursor.At(0), [], []), events);
            state.links.records == t.records && pairs == t.pairs
  {
    var it := new Iterator(state);
    ghost var start := Trace<K, V>.Trace(state.links.records, Cursor.At(0), [], []);
    ghost var t := start;
    pairs := [];
    for k := 0 to |events|
      invariant it.Valid() && it.state == state && fresh(it)
      invariant forall i :: |old(state.hist)| <= i < |state.hist| ==> fresh(state.hist[i])
      invariant Extends(old(state.hist), state.hist)
      invariant state.links.records == t.records && it.View() == t.cursor && pairs == t.pairs
      invariant CursorIn(t.records, t.cursor) && Run(t, events[k..]) == Run(start, events)
    {
      assert events[k..][1..] == events[k + 1..];
      t := Happen(t, events[k]);
      match events[k]
      case Change(op) => state.Perform(op);
      case Step =>
        var r := it.Next();
        if r.Some? { pairs := pairs + [r.value]; }
    }
  }
}
