/** The in-place array moves of core-js: `copyWithin` (webpack module `4GtL`, section 22.1.3.3 of
    ECMA-262 10th edition) and `splice` (module `sQrk`, section 22.1.3.28).

    An array has holes: an index below `length` at which it has no property. A move copies a hole
    by deleting the target's property. */
module ArrayMoves {
  import opened Common

  const MAX_LENGTH := 9007199254740991
  const MAX_NEW_ARRAY := 4294967295

  function Min(a: int, b: int): int { if a < b then a else b }
  function Max(a: int, b: int): int { if a > b then a else b }

  /** The property at index i, or a hole. */
  function Cell<T>(cells: map<int, T>, i: int): Option<T> {
    if i in cells then Some(cells[i]) else None
  }

  lemma SameCells<T>(a: map<int, T>, b: map<int, T>)
    requires forall i :: Cell(a, i) == Cell(b, i)
    ensures a == b
  {
    forall i ensures (i in a <==> i in b) && (i in a ==> a[i] == b[i]) { assert Cell(a, i) == Cell(b, i); }
  }

  /** The index i stands for position r: from the front, or from the end when negative, and for the
      nearer end of the array when it lies outside. */
  predicate Denotes(i: int, r: int, length: nat) {
    || (0 <= i <= length && r == i)
    || (i < 0 <= length + i && r == length + i)
    || (length + i < 0 && r == 0)
    || (i > length && r == length)
  }

  /** `7Oj1`. */
  function RelativeIndex(i: int, length: nat): (r: nat)
    ensures r <= length && Denotes(i, r, length)
  {
    if i < 0 then Max(i + length, 0) else Min(i, length)
  }

  /** `after` is `before` with the cells at lo <= i < hi taken, as they were, from i - shift. */
  ghost predicate Moved<T>(before: map<int, T>, after: map<int, T>, lo: int, hi: int, shift: int) {
    forall i :: MovedAt(before, after, lo, hi, shift, i)
  }

  ghost predicate MovedAt<T>(before: map<int, T>, after: map<int, T>, lo: int, hi: int, shift: int, i: int) {
    Cell(after, i) == if lo <= i < hi then Cell(before, i - shift) else Cell(before, i)
  }

  function CopyCell<T>(cells: map<int, T>, to: int, from: int): map<int, T> {
    if from in cells then cells[to := cells[from]] else cells - {to}
  }

  lemma CopiedCell<T>(cells: map<int, T>, to: int, from: int, i: int)
    ensures Cell(CopyCell(cells, to, from), i) == Cell(cells, if i == to then from else i)
  {
  }

  lemma PutCell<T>(cells: map<int, T>, at: int, value: T)
    ensures forall i {:trigger Cell(cells[at := value], i)} ::
              Cell(cells[at := value], i) == if i == at then Some(value) else Cell(cells, i)
  {
  }

  lemma DropCell<T>(cells: map<int, T>, at: int)
    ensures forall i {:trigger Cell(cells - {at}, i)} ::
              Cell(cells - {at}, i) == if i == at then None else Cell(cells, i)
  {
  }

  /** Copying one more cell, at either end of what has been moved, from a place not yet overwritten. */
  lemma MoveOne<T>(before: map<int, T>, after: map<int, T>, lo: int, hi: int, shift: int, to: int)
    requires Moved(before, after, lo, hi, shift) && lo <= hi && (to == hi || to == lo - 1)
    requires !(lo <= to - shift < hi)
    ensures Moved(before, CopyCell(after, to, to - shift), Min(lo, to), Max(hi, to + 1), shift)
  {
    var after' := CopyCell(after, to, to - shift);
    var lo', hi' := Min(lo, to), Max(hi, to + 1);
    forall i ensures MovedAt(before, after', lo', hi', shift, i) {
      CopiedCell(after, to, to - shift, i);
      assert MovedAt(before, after, lo, hi, shift, if i == to then to - shift else i);
    }
  }

  /** The arguments of `copyWithin` resolved against a length: where to, where from and how many. */
  datatype Span = Span(to: nat, from: nat, count: nat)

  function Resolve(target: int, start: int, end: Option<int>, length: nat): (span: Span)
    ensures span.to + span.count <= length && span.from + span.count <= length
  {
    var to, from := RelativeIndex(target, length), RelativeIndex(start, length);
    var final := if end.None? then length else RelativeIndex(end.value, length);
    Span(to, from, Max(0, Min(final - from, length - to)))
  }

  /** The span by its meaning: as many cells as there are from `from` to the end position, and as fit
      after `to`. */
  ghost predicate SpanOf(target: int, start: int, end: Option<int>, length: nat, span: Span) {
    && Denotes(target, span.to, length) && Denotes(start, span.from, length)
    && exists final :: EndsAt(end, final, length) && span.count == Max(0, Min(final - span.from, length - span.to))
  }

  ghost predicate EndsAt(end: Option<int>, final: int, length: nat) {
    if end.None? then final == length else Denotes(end.value, final, length)
  }

  lemma ResolvesTo(target: int, start: int, end: Option<int>, length: nat, span: Span)
    ensures SpanOf(target, start, end, length, span) <==> span == Resolve(target, start, end, length)
  {
    var final := if end.None? then length else RelativeIndex(end.value, length);
    assert EndsAt(end, final, length);
  }

  /** An index counted from the end does what the position it stands for does. */
  lemma CountedFromTheEnd(target: int, start: int, end: Option<int>, length: nat, k: int)
    requires k < 0 <= length + k
    ensures Resolve(k, start, end, length) == Resolve(length + k, start, end, length)
    ensures Resolve(target, k, end, length) == Resolve(target, length + k, end, length)
    ensures Resolve(target, start, Some(k), length) == Resolve(target, start, Some(length + k), length)
    ensures 0 <= target <= length && 0 <= start <= length ==>
              && Resolve(target, start, end, length).to == target
              && Resolve(target, start, end, length).from == start
  {
  }

  /** The arguments `splice` was called with. */
  datatype Arguments<T> = NoArguments | Start(start: int) | Full(start: int, deleteCount: int, items: seq<T>)

  function Items<T>(args: Arguments<T>): seq<T> {
    if args.Full? then args.items else []
  }

  function From<T>(args: Arguments<T>, length: nat): (m: nat)
    ensures m <= length
    ensures if args.NoArguments? then m == 0 else Denotes(args.start, m, length)
  {
    if args.NoArguments? then 0 else RelativeIndex(args.start, length)
  }

  function DeleteCount<T>(args: Arguments<T>, length: nat): (r: nat)
    ensures From(args, length) + r <= length && Deletes(args, length - From(args, length), r)
  {
    match args
    case NoArguments => 0
    case Start(_) => length - From(args, length)
    case Full(_, deleteCount, _) => Min(Max(deleteCount, 0), length - From(args, length))
  }

  /** How many of the cells from the start on are removed: all, when no number is given, and none for a
      call without arguments. */
  predicate Deletes<T>(args: Arguments<T>, left: nat, r: nat) {
    match args
    case NoArguments => r == 0
    case Start(_) => r == left
    case Full(_, deleteCount, _) =>
      if deleteCount <= 0 then r == 0 else if deleteCount <= left then r == deleteCount else r == left
  }

  /** What a call of `splice` asks for: from where, and how many cells to remove. */
  predicate Asks<T>(args: Arguments<T>, length: nat, m: nat, r: nat) {
    && (if args.NoArguments? then m == 0 else Denotes(args.start, m, length))
    && m <= length && Deletes(args, length - m, r)
  }

  lemma AsksExactly<T>(args: Arguments<T>, length: nat, m: nat, r: nat)
    ensures Asks(args, length, m, r) <==> m == From(args, length) && r == DeleteCount(args, length)
  {
  }

  /** A start counted from the end does what the position it stands for does. */
  lemma SpliceFromTheEnd<T>(k: int, deleteCount: int, items: seq<T>, length: nat)
    requires k < 0 <= length + k
    ensures forall m, r :: Asks(Arguments<T>.Start(k), length, m, r) <==>
                           Asks(Arguments<T>.Start(length + k), length, m, r)
    ensures forall m, r :: Asks(Full(k, deleteCount, items), length, m, r) <==>
                           Asks(Full(length + k, deleteCount, items), length, m, r)
  {
  }

  datatype Outcome<T> = Removed(cells: map<int, T>, length: nat) | TypeError | RangeError

  /** What `splice` is for: `removed` cells starting at m replaced by `items`, everything after
      them moved to follow, and nothing left between the new end and the old one. */
  ghost predicate Spliced<T>(before: map<int, T>, after: map<int, T>, length: nat, m: nat, removed: nat, items: seq<T>)
  {
    var n := |items|;
    forall i {:trigger Cell(after, i)} :: Cell(after, i) ==
                if m <= i < m + n then Some(items[i - m])
                else if m + n <= i < length - removed + n then Cell(before, i - n + removed)
                else if length - removed + n <= i < length then None
                else Cell(before, i)
  }

  /** The slice `splice` returns, holes included. */
  ghost predicate IsSlice<T>(cells: map<int, T>, slice: map<int, T>, m: nat, count: nat) {
    forall i {:trigger Cell(slice, i)} :: Cell(slice, i) == if 0 <= i < count then Cell(cells, m + i) else None
  }

  ghost predicate Filled<T>(before: map<int, T>, after: map<int, T>, m: nat, items: seq<T>, count: nat)
    requires count <= |items|
  {
    forall i {:trigger Cell(after, i)} ::
      Cell(after, i) == if m <= i < m + count then Some(items[i - m]) else Cell(before, i)
  }

  ghost predicate Cleared<T>(before: map<int, T>, after: map<int, T>, lo: int, hi: int) {
    forall i {:trigger Cell(after, i)} :: Cell(after, i) == if lo <= i < hi then None else Cell(before, i)
  }

  lemma NothingMoved<T>(cells: map<int, T>, lo: int, hi: int, shift: int)
    requires hi <= lo || shift == 0
    ensures Moved(cells, cells, lo, hi, shift)
  {
  }

  lemma NothingCleared<T>(cells: map<int, T>, lo: int, hi: int)
    requires hi <= lo
    ensures Cleared(cells, cells, lo, hi)
  {
  }

  /** Moving the rest, clearing what is past the new end, then filling in the items is a splice. */
  lemma MoveClearFill<T>(before: map<int, T>, moved: map<int, T>, cleared: map<int, T>, after: map<int, T>,
                         length: nat, m: nat, removed: nat, items: seq<T>)
    requires m + removed <= length
    requires Moved(before, moved, m + |items|, length - removed + |items|, |items| - removed)
    requires Cleared(moved, cleared, length - removed + |items|, length)
    requires Filled(cleared, after, m, items, |items|)
    ensures Spliced(before, after, length, m, removed, items)
  {
    var n := |items|;
    forall i {:trigger Cell(after, i)}
      ensures Cell(after, i) ==
                if m <= i < m + n then Some(items[i - m])
                else if m + n <= i < length - removed + n then Cell(before, i - n + removed)
                else if length - removed + n <= i < length then None
                else Cell(before, i)
    {
      assert Cell(after, i) == if m <= i < m + n then Some(items[i - m]) else Cell(cleared, i);
      assert Cell(cleared, i) == if length - removed + n <= i < length then None else Cell(moved, i);
      assert MovedAt(before, moved, m + n, length - removed + n, n - removed, i);
    }
  }

  /** An object with indexed properties and a `length`. */
  class ArrayLike<T> {
    var cells: map<int, T>
    var length: nat

    ghost predicate Valid()
      reads `length
    {
      length <= MAX_LENGTH
    }

    constructor (cells: map<int, T>, length: nat)
      requires length <= MAX_LENGTH
      ensures Valid() && this.cells == cells && this.length == length
    {
      this.cells, this.length := cells, length;
    }

    method Move(to: int, from: int)
      modifies `cells
      ensures cells == CopyCell(old(cells), to, from)
    {
      if from in cells {
        cells := cells[to := cells[from]];
      } else {
        cells := cells - {to};
      }
    }

    /** Whatever the overlap, the result is what copying from a snapshot would give. */
    method CopyWithin(target: int, start: int, end: Option<int>)
      modifies `cells
      ensures var span := Resolve(target, start, end, length);
              && SpanOf(target, start, end, length, span)
              && Moved(old(cells), cells, span.to, span.to + span.count, span.to - span.from)
    {
      ResolvesTo(target, start, end, length, Resolve(target, start, end, length));
      var u: int, s: int := RelativeIndex(target, length), RelativeIndex(start, length);
      var l := Min((if end.None? then length else RelativeIndex(end.value, length)) - s, length - u);
      var p := 1;
      ghost var span, shift := Resolve(target, start, end, length), u - s;
      if s < u < s + l {
        p, s, u := -1, s + l - 1, u + l - 1;
      }
      hide Moved;
      ghost var lo, hi := if p == 1 then u else u + 1, if p == 1 then u else u + 1;
      NothingMoved(cells, lo, hi, shift);
      while l > 0
        invariant u - s == shift && lo <= hi && Moved(old(cells), cells, lo, hi, shift)
        invariant if p == 1 then lo == span.to && u == hi == span.to + span.count - Max(l, 0)
                  else p == -1 && 0 <= l && hi == span.to + span.count && u + 1 == lo == span.to + l
        invariant p == 1 ==> shift <= 0 || span.count <= shift
        invariant p == -1 ==> 0 < shift
      {
        l := l - 1;
        MoveOne(old(cells), cells, lo, hi, shift, u);
        Move(u, s);
        lo, hi := Min(lo, u), Max(hi, u + 1);
        u, s := u + p, s + p;
      }
    }

    method Slice(m: nat, count: nat) returns (slice: map<int, T>)
      ensures IsSlice(cells, slice, m, count)
    {
      slice := map[];
      for h := 0 to count
        invariant IsSlice(cells, slice, m, h)
      {
        if m + h in cells {
          PutCell(slice, h, cells[m + h]);
          slice := slice[h := cells[m + h]];
        }
      }
    }

    /** The rest moves towards the front. */
    method MoveDown(m: nat, removed: nat, added: nat)
      requires m + removed <= length && added < removed
      modifies `cells
      ensures Moved(old(cells), cells, m + added, length - removed + added, added - removed)
    {
      hide Moved;
      NothingMoved(cells, m + added, m + added, added - removed);
      for h := m to length - removed
        invariant Moved(old(cells), cells, m + added, h + added, added - removed)
      {
        MoveOne(old(cells), cells, m + added, h + added, added - removed, h + added);
        Move(h + added, h + removed);
      }
    }

    method ClearTail(newLength: nat)
      requires newLength <= length
      modifies `cells
      ensures Cleared(old(cells), cells, newLength, length)
    {
      for h := length downto newLength
        invariant Cleared(old(cells), cells, h, length)
      {
        DropCell(cells, h);
        cells := cells - {h};
      }
    }

    /** The rest moves away from the front, last cell first. */
    method MoveUp(m: nat, removed: nat, added: nat)
      requires m + removed <= length && removed < added
      modifies `cells
      ensures Moved(old(cells), cells, m + added, length - removed + added, added - removed)
    {
      hide Moved;
      NothingMoved(cells, length - removed + added, length - removed + added, added - removed);
      for h := length - removed downto m
        invariant Moved(old(cells), cells, h + added, length - removed + added, added - removed)
      {
        MoveOne(old(cells), cells, h + 1 + added, length - removed + added, added - removed, h + added);
        Move(h + added, h + removed);
      }
    }

    method Fill(m: nat, items: seq<T>)
      modifies `cells
      ensures Filled(old(cells), cells, m, items, |items|)
    {
      for h := 0 to |items|
        invariant Filled(old(cells), cells, m, items, h)
      {
        PutCell(cells, h + m, items[h]);
        cells := cells[h + m := items[h]];
      }
    }

    /** Move the cells after the removed ones to make room for `added` items. */
    method Shift(m: nat, removed: nat, added: nat) returns (ghost moved: map<int, T>)
      requires m + removed <= length
      modifies `cells
      ensures Moved(old(cells), moved, m + added, length - removed + added, added - removed)
      ensures Cleared(moved, cells, length - removed + added, length)
    {
      hide *;
      if added < removed {
        MoveDown(m, removed, added);
        moved := cells;
        ClearTail(length - removed + added);
      } else {
        if added > removed {
          MoveUp(m, removed, added);
        } else {
          NothingMoved(cells, m + added, length - removed + added, added - removed);
        }
        moved := cells;
        NothingCleared(cells, length - removed + added, length);
      }
    }

    method Rearrange(m: nat, removed: nat, items: seq<T>)
      requires m + removed <= length
      modifies `cells
      ensures Spliced(old(cells), cells, length, m, removed, items)
    {
      hide *;
      ghost var moved := Shift(m, removed, |items|);
      ghost var cleared := cells;
      Fill(m, items);
      MoveClearFill(old(cells), moved, cleared, cells, length, m, removed, items);
    }

    /** Errors come before any change. */
    method Splice(args: Arguments<T>) returns (outcome: Outcome<T>)
      requires Valid()
      modifies this
      ensures Valid()
      ensures Asks(args, old(length), From(args, old(length)), DeleteCount(args, old(length)))
      ensures var m, r, n := From(args, old(length)), DeleteCount(args, old(length)), |Items(args)|;
              if old(length) + n - r > MAX_LENGTH then
                outcome == TypeError && cells == old(cells) && length == old(length)
              else if r > MAX_NEW_ARRAY then
                outcome == RangeError && cells == old(cells) && length == old(length)
              else
                && outcome.Removed? && outcome.length == r && IsSlice(old(cells), outcome.cells, m, r)
                && length == old(length) - r + n
                && Spliced(old(cells), cells, old(length), m, r, Items(args))
    {
      hide Spliced, IsSlice;
      var m := if args.NoArguments? then 0 else RelativeIndex(args.start, length);
      var n, r := 0, 0;
      if args.Start? {
        r := length - m;
      } else if args.Full? {
        n, r := |args.items|, Min(Max(args.deleteCount, 0), length - m);
      }
      if length + n - r > MAX_LENGTH {
        return TypeError;
      }
      if r > MAX_NEW_ARRAY {
        return RangeError;
      }
      var slice := Slice(m, r);
      outcome := Removed(slice, r);
      Rearrange(m, r, Items(args));
      length := length - r + n;
    }
  }

  // ---------------------------------------------------------------- what the moves mean

  /** An array without holes, as a sequence. */
  ghost predicate Dense<T>(cells: map<int, T>, s: seq<T>) {
    forall i {:trigger Cell(cells, i)} :: Cell(cells, i) == if 0 <= i < |s| then Some(s[i]) else None
  }

  /** On an array without holes `copyWithin` overwrites one slice by another. */
  lemma CopyWithinIsSlices<T>(before: map<int, T>, after: map<int, T>, s: seq<T>, span: Span)
    requires Dense(before, s) && span.to + span.count <= |s| && span.from + span.count <= |s|
    requires Moved(before, after, span.to, span.to + span.count, span.to - span.from)
    ensures Dense(after, s[..span.to] + s[span.from..span.from + span.count] + s[span.to + span.count..])
  {
    var t := s[..span.to] + s[span.from..span.from + span.count] + s[span.to + span.count..];
    forall i ensures Cell(after, i) == if 0 <= i < |t| then Some(t[i]) else None {
      assert MovedAt(before, after, span.to, span.to + span.count, span.to - span.from, i);
    }
  }

  /** On an array without holes `splice` leaves prefix + items + suffix and returns the slice between them. */
  lemma SpliceIsSlices<T>(before: map<int, T>, after: map<int, T>, slice: map<int, T>, s: seq<T>,
                          m: nat, removed: nat, items: seq<T>)
    requires Dense(before, s) && m + removed <= |s|
    requires Spliced(before, after, |s|, m, removed, items) && IsSlice(before, slice, m, removed)
    ensures Dense(after, s[..m] + items + s[m + removed..])
    ensures Dense(slice, s[m..m + removed])
  {
    var t, n := s[..m] + items + s[m + removed..], |items|;
    forall i ensures Cell(after, i) == if 0 <= i < |t| then Some(t[i]) else None {
      assert Cell(after, i) ==
             if m <= i < m + n then Some(items[i - m])
             else if m + n <= i < |s| - removed + n then Cell(before, i - n + removed)
             else if |s| - removed + n <= i < |s| then None
             else Cell(before, i);
    }
    forall i ensures Cell(slice, i) == if 0 <= i < removed then Some(s[m..m + removed][i]) else None {
      assert Cell(slice, i) == if 0 <= i < removed then Cell(before, m + i) else None;
    }
  }

  /** `filler` takes the place of the holes when a returned slice is passed back as arguments. */
  function AsArguments<T>(slice: map<int, T>, length: nat, filler: T): (items: seq<T>)
    ensures |items| == length
    ensures forall i :: 0 <= i < length && i in slice ==> items[i] == slice[i]
    ensures forall i :: 0 <= i < length && i !in slice ==> items[i] == filler
  {
    seq(length, i requires 0 <= i => if i in slice then slice[i] else filler)
  }

  /** Splicing the returned slice back over the inserted items undoes a splice exactly when the
      slice has no hole (and the array no property in the cells a longer array passed over). */
  lemma SpliceUndone<T>(before: map<int, T>, after: map<int, T>, undone: map<int, T>, slice: map<int, T>,
                        length: nat, m: nat, removed: nat, items: seq<T>, filler: T)
    requires m + removed <= length
    requires Spliced(before, after, length, m, removed, items) && IsSlice(before, slice, m, removed)
    requires Spliced(after, undone, length - removed + |items|, m, |items|, AsArguments(slice, removed, filler))
    requires forall i :: length <= i ==> i !in before
    ensures undone == before <==> forall i :: m <= i < m + removed ==> i in before
  {
    hide Spliced, IsSlice;
    forall i {:trigger Cell(undone, i)}
      ensures Cell(undone, i) == if m <= i < m + removed && i !in before then Some(filler) else Cell(before, i)
    {
      SpliceUndoneAt(before, after, undone, slice, length, m, removed, items, filler, i);
    }
    if forall i :: m <= i < m + removed ==> i in before {
      SameCells(undone, before);
    } else {
      var i :| m <= i < m + removed && i !in before;
      assert Cell(undone, i) == Some(filler) && Cell(before, i) == None;
    }
  }

  /** The cell at i after a splice. */
  lemma SplicedCell<T>(before: map<int, T>, after: map<int, T>, length: nat, m: nat, removed: nat, items: seq<T>,
                       i: int)
    requires Spliced(before, after, length, m, removed, items)
    ensures Cell(after, i) ==
            if m <= i < m + |items| then Some(items[i - m])
            else if m + |items| <= i < length - removed + |items| then Cell(before, i - |items| + removed)
            else if length - removed + |items| <= i < length then None
            else Cell(before, i)
  {
  }

  lemma SliceCell<T>(cells: map<int, T>, slice: map<int, T>, m: nat, count: nat, i: int)
    requires IsSlice(cells, slice, m, count) && 0 <= i < count
    ensures Cell(slice, i) == Cell(cells, m + i)
  {
  }

  lemma SpliceUndoneAt<T>(before: map<int, T>, after: map<int, T>, undone: map<int, T>, slice: map<int, T>,
                          length: nat, m: nat, removed: nat, items: seq<T>, filler: T, i: int)
    requires m + removed <= length
    requires Spliced(before, after, length, m, removed, items) && IsSlice(before, slice, m, removed)
    requires Spliced(after, undone, length - removed + |items|, m, |items|, AsArguments(slice, removed, filler))
    requires Cell(before, i) == None || i < length
    ensures Cell(undone, i) == if m <= i < m + removed && i !in before then Some(filler) else Cell(before, i)
  {
    hide Spliced, IsSlice;
    var back := AsArguments(slice, removed, filler);
    SplicedCell(after, undone, length - removed + |items|, m, |items|, back, i);
    if m <= i < m + removed {
      SliceCell(before, slice, m, removed, i - m);
    } else if m + removed <= i < length {
      SplicedCell(before, after, length, m, removed, items, i - removed + |items|);
    } else {
      SplicedCell(before, after, length, m, removed, items, i);
    }
  }
}
