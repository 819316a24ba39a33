/** The ring buffer of data-structure/ring-buffer: a bounded FIFO in a fixed array of any
    capacity, zero included. */
module RingBuffer {
  function Min(a: nat, b: nat): nat {
    if a < b then a else b
  }

  /** Position i cells after start, around the end of an array of n cells. */
  function Wrap(start: nat, i: nat, n: nat): nat
    requires start <= n && i <= n
  {
    if start + i < n then start + i else start + i - n
  }

  /** The window of count cells from start, around the end. */
  function Window<T>(cells: seq<T>, start: nat, count: nat): (w: seq<T>)
    requires count <= |cells| && (start < |cells| || count == 0)
    ensures |w| == count
    decreases count
  {
    if count == 0 then [] else [cells[start]] + Window(cells, Wrap(start, 1, |cells|), count - 1)
  }

  /** Writing the cell after a window that is not full appends to it. */
  lemma {:induction false} WindowBack<T>(cells: seq<T>, start: nat, count: nat, x: T)
    requires count < |cells| && start < |cells|
    ensures var end := Wrap(start, count, |cells|);
            Window(cells[end := x], start, count + 1) == Window(cells, start, count) + [x]
    decreases count
  {
    var next := Wrap(start, 1, |cells|);
    if count == 0 {
      assert Window(cells[start := x], next, 0) == [];
    } else {
      WindowBack(cells, next, count - 1, x);
      assert Wrap(next, count - 1, |cells|) == Wrap(start, count, |cells|) != start;
    }
  }

  function WrappedSlice<T>(cells: seq<T>, start: nat, count: nat): seq<T>
    requires count <= |cells| && start < |cells|
  {
    if start + count <= |cells| then cells[start..start + count] else cells[start..] + cells[..start + count - |cells|]
  }

  lemma SliceFirst<T>(cells: seq<T>, start: nat, end: nat)
    requires start < end <= |cells|
    ensures cells[start..end] == [cells[start]] + cells[start + 1..end]
  {
  }

  lemma Regroup<T>(x: T, a: seq<T>, b: seq<T>)
    ensures ([x] + a) + b == [x] + (a + b)
  {
  }

  lemma SliceCons<T>(cells: seq<T>, start: nat, count: nat)
    requires 0 < count <= |cells| && start < |cells|
    ensures Wrap(start, 1, |cells|) < |cells|
    ensures WrappedSlice(cells, start, count)
            == [cells[start]] + WrappedSlice(cells, Wrap(start, 1, |cells|), count - 1)
  {
    var n := |cells|;
    if start + count <= n {
      SliceFirst(cells, start, start + count);
      if start + 1 == n { assert cells[n..n] == [] == cells[0..0]; }
    } else {
      SliceFirst(cells, start, n);
      assert cells[start..n] == cells[start..] && cells[start + 1..n] == cells[start + 1..];
      Regroup(cells[start], cells[start + 1..], cells[..start + count - n]);
      if start + 1 == n { assert [] + cells[..count - 1] == cells[0..count - 1]; }
    }
  }

  lemma WindowCons<T>(cells: seq<T>, start: nat, count: nat)
    requires count <= |cells| && start < |cells|
    ensures count == 0 ==> Window(cells, start, count) == [] == WrappedSlice(cells, start, count)
    ensures count > 0 ==>
              Wrap(start, 1, |cells|) < |cells| &&
              Window(cells, start, count) == [cells[start]] + Window(cells, Wrap(start, 1, |cells|), count - 1)
  {
  }

  /** The window is the wrapped slice of the array. */
  lemma {:induction false} WindowIsSlice<T>(cells: seq<T>, start: nat, count: nat)
    requires count <= |cells| && start < |cells|
    ensures Window(cells, start, count) == WrappedSlice(cells, start, count)
    decreases count
  {
    hide *;
    WindowCons(cells, start, count);
    if count > 0 {
      SliceCons(cells, start, count);
      WindowIsSlice(cells, Wrap(start, 1, |cells|), count - 1);
    }
  }

  /** After i reads, the rest of the old contents lies in the window. */
  ghost predicate Remains<T>(cells: seq<T>, readPos: nat, all: seq<T>, i: nat) {
    i <= |all| <= |cells| && readPos < |cells| && Window(cells, readPos, |all| - i) == all[i..]
  }

  lemma RemainsNext<T>(cells: seq<T>, readPos: nat, all: seq<T>, i: nat)
    requires Remains(cells, readPos, all, i) && i < |all|
    ensures cells[readPos] == all[i] && Remains(cells, Wrap(readPos, 1, |cells|), all, i + 1)
  {
    assert all[i..] == [all[i]] + all[i + 1..];
  }

  lemma RemainsAt<T>(cells: seq<T>, readPos: nat, all: seq<T>, i: nat)
    requires Remains(cells, readPos, all, i)
    ensures i <= |all| <= |cells| && readPos < |cells|
  {
  }

  lemma RemainsFirst<T>(cells: seq<T>, readPos: nat, count: nat)
    requires count <= |cells| && readPos < |cells|
    ensures Remains(cells, readPos, Window(cells, readPos, count), 0)
  {
  }

  lemma RemainsIs<T>(cells: seq<T>, readPos: nat, all: seq<T>, i: nat)
    requires Remains(cells, readPos, all, i)
    ensures i <= |all| <= |cells| && readPos < |cells| && Window(cells, readPos, |all| - i) == all[i..]
  {
  }

  lemma HoldsFirst<T>(cells: seq<T>, readPos: nat, count: nat, wbuf: seq<T>)
    requires count <= |cells| && readPos < |cells|
    ensures Holds(cells, readPos, Window(cells, readPos, count), wbuf, 0)
  {
    assert Window(cells, readPos, count) + wbuf[..0] == Window(cells, readPos, count);
  }

  lemma HoldsIs<T>(cells: seq<T>, readPos: nat, all: seq<T>, wbuf: seq<T>, i: nat)
    requires Holds(cells, readPos, all, wbuf, i)
    ensures i <= |wbuf| && |all| + i <= |cells| && readPos < |cells|
    ensures Window(cells, readPos, |all| + i) == all + wbuf[..i]
  {
  }

  /** After i writes, the window holds the old contents and what has been written. */
  ghost predicate Holds<T>(cells: seq<T>, readPos: nat, all: seq<T>, wbuf: seq<T>, i: nat) {
    && i <= |wbuf| && |all| + i <= |cells| && readPos < |cells|
    && Window(cells, readPos, |all| + i) == all + wbuf[..i]
  }

  lemma HoldsNext<T>(cells: seq<T>, readPos: nat, all: seq<T>, wbuf: seq<T>, i: nat)
    requires Holds(cells, readPos, all, wbuf, i) && i < |wbuf| && |all| + i < |cells|
    ensures Holds(cells[Wrap(readPos, |all| + i, |cells|) := wbuf[i]], readPos, all, wbuf, i + 1)
  {
    WindowBack(cells, readPos, |all| + i, wbuf[i]);
    assert all + wbuf[..i + 1] == (all + wbuf[..i]) + [wbuf[i]];
  }

  lemma Rejoin<T>(a: seq<T>, b: seq<T>, n: nat)
    requires n <= |b|
    ensures (a + b[..n]) + b[n..] == a + b
  {
  }

  class RingBuffer<T(0)> {
    const buffer: array<T>     // `_buffer`, of `_buffer_size` cells
    var elementCount: nat      // `_element_count`
    var readPos: nat           // `_rd_pos`
    var writePos: nat          // `_wr_pos`
    ghost var accepted: seq<T>   // everything `write` has taken
    ghost var delivered: seq<T>  // everything `read` has handed out

    ghost predicate Valid()
      reads this, buffer
    {
      && InRange()
      && delivered + Contents() == accepted
    }

    ghost predicate InRange()
      reads this
    {
      && elementCount <= buffer.Length
      && (if buffer.Length == 0 then readPos == writePos == 0
          else readPos < buffer.Length && writePos == Wrap(readPos, elementCount, buffer.Length))
    }

    ghost function Contents(): (s: seq<T>)
      reads this, buffer
      requires InRange()
      ensures |s| == elementCount
    {
      Window(buffer[..], readPos, elementCount)
    }

    constructor (size: nat)
      ensures Valid() && fresh(buffer) && buffer.Length == size
      ensures Contents() == [] && accepted == [] && delivered == []
    {
      buffer := new T[size];
      elementCount, readPos, writePos := 0, 0, 0;
      accepted, delivered := [], [];
    }

    /** `read`: the first min(toRead, count) elements, oldest first; they leave the buffer. */
    method Read(rbuf: array<T>, toRead: nat) returns (n: nat)
      requires Valid() && rbuf != buffer && toRead <= rbuf.Length
      modifies this, rbuf
      ensures Valid() && n == Min(toRead, |old(Contents())|)
      ensures rbuf[..n] == old(Contents())[..n] && rbuf[n..] == old(rbuf[n..])
      ensures Contents() == old(Contents())[n..]
      ensures accepted == old(accepted) && delivered == old(delivered) + rbuf[..n]
      ensures buffer[..] == old(buffer[..])
    {
      hide Remains, Window;
      if elementCount == 0 {
        assert Contents() == Contents()[0..] && rbuf[..0] == Contents()[..0] == [] && rbuf[0..] == rbuf[..];
        return 0;
      }
      ghost var all, before := Contents(), rbuf[..];
      RemainsFirst(buffer[..], readPos, elementCount);
      n := CopyOut(rbuf, toRead, all);
      RemainsIs(buffer[..], readPos, all, n);
      elementCount := elementCount - n;
      delivered := delivered + all[..n];
      Rejoin(old(delivered), all, n);
      assert rbuf[..n] == all[..n] && rbuf[n..] == before[n..];
    }

    /** The loop of `read`. */
    method CopyOut(rbuf: array<T>, toRead: nat, ghost all: seq<T>) returns (i: nat)
      requires rbuf != buffer && toRead <= rbuf.Length && elementCount == |all|
      requires Remains(buffer[..], readPos, all, 0) && writePos == Wrap(readPos, elementCount, buffer.Length)
      modifies `readPos, rbuf
      ensures i == Min(toRead, elementCount) && Remains(buffer[..], readPos, all, i)
      ensures readPos < buffer.Length && writePos == Wrap(readPos, elementCount - i, buffer.Length)
      ensures forall k :: 0 <= k < i ==> rbuf[k] == all[k]
      ensures forall k :: i <= k < rbuf.Length ==> rbuf[k] == old(rbuf[k])
    {
      hide Remains, Window;
      RemainsAt(buffer[..], readPos, all, 0);
      i := 0;
      while i != toRead && i != elementCount
        invariant 0 <= i <= toRead && i <= elementCount && readPos < buffer.Length && elementCount <= buffer.Length
        invariant Remains(buffer[..], readPos, all, i) && writePos == Wrap(readPos, elementCount - i, buffer.Length)
        invariant forall k :: 0 <= k < i ==> rbuf[k] == all[k]
        invariant forall k :: i <= k < rbuf.Length ==> rbuf[k] == old(rbuf[k])
        decreases elementCount - i
      {
        RemainsAt(buffer[..], readPos, all, i);
        RemainsNext(buffer[..], readPos, all, i);
        rbuf[i] := buffer[readPos];
        readPos := readPos + 1;
        if buffer.Length == readPos { readPos := 0; }
        i := i + 1;
      }
    }

    /** `write`: the first min(toWrite, free) elements join the buffer, in order. */
    method Write(wbuf: seq<T>, toWrite: nat) returns (n: nat)
      requires Valid() && toWrite <= |wbuf|
      modifies this, buffer
      ensures Valid() && n == Min(toWrite, buffer.Length - |old(Contents())|)
      ensures Contents() == old(Contents()) + wbuf[..n]
      ensures delivered == old(delivered) && accepted == old(accepted) + wbuf[..n]
    {
      hide Holds, Window;
      if buffer.Length == elementCount {
        assert Contents() == Contents() + wbuf[..0] && accepted == accepted + wbuf[..0];
        return 0;
      }
      ghost var all := Contents();
      HoldsFirst(buffer[..], readPos, elementCount, wbuf);
      var i := 0;
      while i != toWrite && i != buffer.Length - elementCount
        invariant 0 <= i <= toWrite && i <= buffer.Length - elementCount
        invariant elementCount == |all| && readPos == old(readPos) < buffer.Length
        invariant accepted == old(accepted) && delivered == old(delivered)
        invariant writePos == Wrap(readPos, elementCount + i, buffer.Length) && Holds(buffer[..], readPos, all, wbuf, i)
        decreases buffer.Length - elementCount - i
      {
        ghost var cells := buffer[..];
        HoldsIs(cells, readPos, all, wbuf, i);
        HoldsNext(cells, readPos, all, wbuf, i);
        buffer[writePos] := wbuf[i];
        assert buffer[..] == cells[writePos := wbuf[i]];
        writePos := writePos + 1;
        if buffer.Length == writePos { writePos := 0; }
        i := i + 1;
      }
      HoldsIs(buffer[..], readPos, all, wbuf, i);
      elementCount := elementCount + i;
      accepted := accepted + wbuf[..i];
      assert delivered + (all + wbuf[..i]) == (delivered + all) + wbuf[..i];
      return i;
    }
  }
}
