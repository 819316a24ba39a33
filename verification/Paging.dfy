/** The minute history of a battery system (AiHistoryMinuteDAO.java): rows keyed by their record
    time, written by update-else-insert, and read page by page through SQL row numbers. */
module Paging {

  const MAX_INT := 0x7FFF_FFFF

  /** Java's 32-bit wrap-around. */
  function Int32(i: int): (w: int)
    ensures -0x8000_0000 <= w <= MAX_INT
    ensures -0x8000_0000 <= i <= MAX_INT ==> w == i
    ensures (w - i) % 0x1_0000_0000 == 0
  {
    (i + 0x8000_0000) % 0x1_0000_0000 - 0x8000_0000
  }

  // ---------------------------------------------------------------- pages

  /** WHERE RowNumber > low AND RowNumber <= high, over rows in row-number order. */
  function Numbered<T>(rows: seq<T>, low: int, high: int): seq<T> {
    if rows == [] then []
    else
      var n := |rows|;
      Numbered(rows[..n - 1], low, high) + if low < n <= high then [rows[n - 1]] else []
  }

  function Clamp(i: int, n: nat): (k: nat)
    ensures k <= n
  {
    if i < 0 then 0 else if i > n then n else i
  }

  lemma {:induction false} NumberedIsSlice<T>(rows: seq<T>, low: int, high: int)
    requires low <= high
    ensures Clamp(low, |rows|) <= Clamp(high, |rows|)
    ensures Numbered(rows, low, high) == rows[Clamp(low, |rows|)..Clamp(high, |rows|)]
  {
    if rows != [] {
      var n := |rows|;
      NumberedIsSlice(rows[..n - 1], low, high);
      assert low < n <= high ==> rows[Clamp(low, n)..n] == rows[..n - 1][Clamp(low, n)..n - 1] + [rows[n - 1]];
    }
  }

  lemma {:induction false} NumberedNothing<T>(rows: seq<T>, low: int, high: int)
    requires high <= low || high <= 0
    ensures Numbered(rows, low, high) == []
  {
    if rows != [] { NumberedNothing(rows[..|rows| - 1], low, high); }
  }

  datatype Answer<T> = Items(items: seq<T>, hasMore: bool) | InvalidOrder

  /** One page, with the bounds computed in 32 bits. */
  function Page<T>(rows: seq<T>, pageNumber: int, rowsPerPage: int): Answer<T> {
    var beginRow := Int32((if pageNumber == 0 then 0 else pageNumber - 1) * rowsPerPage);
    var endRow := Int32(pageNumber * rowsPerPage);
    Items(Numbered(rows, beginRow, endRow), Numbered(rows, endRow, Int32(endRow + 1)) != [])
  }

  /** The rows a page stands for, and whether any come after it. */
  function IdealPage<T>(rows: seq<T>, page: nat, size: nat): Answer<T>
    requires page > 0
  {
    Bounds(|rows|, page, size);
    Items(rows[Clamp((page - 1) * size, |rows|)..Clamp(page * size, |rows|)], page * size < |rows|)
  }

  lemma Bounds(n: nat, page: nat, size: nat)
    requires page > 0
    ensures 0 <= (page - 1) * size <= page * size == (page - 1) * size + size
  {
  }

  lemma PageIsIdeal<T>(rows: seq<T>, page: nat, size: nat)
    requires page > 0 && page * size < MAX_INT
    ensures Page(rows, page, size) == IdealPage(rows, page, size)
  {
    Bounds(|rows|, page, size);
    NumberedIsSlice(rows, (page - 1) * size, page * size);
    NumberedIsSlice(rows, page * size, page * size + 1);
  }

  /** The bounds serve every list of rows exactly when one row past the page still has a 32-bit number. */
  lemma PageIsIdealExactly(page: nat, size: nat)
    requires page > 0 && size > 0
    ensures (forall rows: seq<int> :: Page(rows, page, size) == IdealPage(rows, page, size)) <==> page * size < MAX_INT
  {
    if page * size < MAX_INT {
      forall rows: seq<int> ensures Page(rows, page, size) == IdealPage(rows, page, size) {
        PageIsIdeal(rows, page, size);
      }
    } else {
      Bounds(0, page, size);
      PageOverflows(page, size, page * size);
    }
  }

  function Counting(n: nat): (rows: seq<int>)
    ensures |rows| == n && forall i :: 0 <= i < n ==> rows[i] == i
  {
    seq(n, i => i)
  }

  /** A 32-bit upper bound below the last row of a page leaves that row out. */
  lemma LastRowMissing(n: nat, low: int, high: int, last: int)
    requires high <= MAX_INT < last < n
    ensures var rows := Numbered(Counting(n), low, high); rows == [] || rows[|rows| - 1] < last - 1
  {
    if high <= low || high <= 0 {
      NumberedNothing(Counting(n), low, high);
    } else {
      NumberedIsSlice(Counting(n), low, high);
    }
  }

  /** After the last row number there is no next one. */
  lemma NothingAfter(rows: seq<int>)
    ensures Int32(MAX_INT + 1) == -0x8000_0000 && Numbered(rows, MAX_INT, Int32(MAX_INT + 1)) == []
  {
    NumberedNothing(rows, MAX_INT, Int32(MAX_INT + 1));
  }

  lemma IdealLast(n: nat, page: nat, size: nat, last: nat)
    requires page > 0 && size > 0 && last == page * size < n
    ensures var ideal := IdealPage(Counting(n), page, size);
            ideal.Items? && ideal.hasMore && ideal.items != [] && ideal.items[|ideal.items| - 1] == last - 1
  {
    Bounds(n, page, size);
  }

  lemma PageOverflows(page: nat, size: nat, last: nat)
    requires page > 0 && size > 0 && last == page * size >= MAX_INT
    ensures Page(Counting(last + 1), page, size) != IdealPage(Counting(last + 1), page, size)
  {
    hide Numbered, IdealPage, Counting, Int32;
    IdealLast(last + 1, page, size, last);
    if last == MAX_INT {
      NothingAfter(Counting(last + 1));
      Int32Small(last);
    } else {
      LastRowMissing(last + 1, Int32((page - 1) * size), Int32(last), last);
    }
  }

  lemma Int32Small(i: int)
    requires -0x8000_0000 <= i <= MAX_INT
    ensures Int32(i) == i
  {
  }

  /** Pages 1 to k, one after the other. */
  function Pages<T>(rows: seq<T>, k: nat, size: nat): seq<T> {
    if k == 0 then [] else Pages(rows, k - 1, size) + Page(rows, k, size).items
  }

  /** Together the first k pages are the first k * size rows, each once and in order. */
  lemma {:induction false} PagesArePrefix<T>(rows: seq<T>, k: nat, size: nat)
    requires k * size < MAX_INT
    ensures Pages(rows, k, size) == rows[..Clamp(k * size, |rows|)]
    decreases k
  {
    if k > 0 {
      Bounds(|rows|, k, size);
      PagesArePrefix(rows, k - 1, size);
      PageIsIdeal(rows, k, size);
      var a, b := Clamp((k - 1) * size, |rows|), Clamp(k * size, |rows|);
      assert rows[..a] + rows[a..b] == rows[..b];
    }
  }

  /** A page has no more exactly when the pages up to it are all the rows. */
  lemma NoMoreIsAll<T>(rows: seq<T>, page: nat, size: nat)
    requires page > 0 && size > 0 && page * size < MAX_INT
    ensures !Page(rows, page, size).hasMore <==> Pages(rows, page, size) == rows
  {
    PageIsIdeal(rows, page, size);
    PagesArePrefix(rows, page, size);
    assert page * size < |rows| ==> |rows[..page * size]| < |rows|;
  }

  /** A page has more exactly when the next page is not empty. */
  lemma HasMoreIsNextPage<T>(rows: seq<T>, page: nat, size: nat)
    requires page > 0 && size > 0 && (page + 1) * size < MAX_INT
    ensures Page(rows, page, size).hasMore <==> Page(rows, page + 1, size).items != []
  {
    Bounds(|rows|, page + 1, size);
    PageIsIdeal(rows, page, size);
    PageIsIdeal(rows, page + 1, size);
  }

  /** Row i is in the slice that is page i / size + 1, and in that of no other page: pages are disjoint. */
  lemma OnOnePage<T>(rows: seq<T>, i: nat, page: nat, size: nat)
    requires i < |rows| && page > 0 && size > 0 && page * size < MAX_INT
    ensures var first, last := Clamp((page - 1) * size, |rows|), Clamp(page * size, |rows|);
            && first <= last && Page(rows, page, size).items == rows[first..last]
            && (first <= i < last <==> page == i / size + 1)
  {
    Bounds(|rows|, page, size);
    PageIsIdeal(rows, page, size);
    Quotient(i, page, size);
    SliceHolds(i, |rows|, (page - 1) * size, page * size);
  }

  lemma SliceHolds(i: nat, n: nat, low: nat, high: nat)
    requires i < n && low <= high
    ensures Clamp(low, n) <= Clamp(high, n) && (Clamp(low, n) <= i < Clamp(high, n) <==> low <= i < high)
  {
  }

  lemma Quotient(i: nat, page: nat, size: nat)
    requires page > 0 && size > 0
    ensures (page - 1) * size <= i < page * size <==> page == i / size + 1
  {
    var q := i / size;
    assert i == q * size + i % size;
    if page <= q { assert page * size <= q * size; }
    if page > q + 1 { assert (page - 1) * size >= (q + 1) * size; }
  }

  /** For rows numbered in any order, the pages up to one that has no more hold exactly the rows
      that were selected. */
  lemma PagesPartition<T>(selected: seq<T>, numbered: seq<T>, page: nat, size: nat)
    requires multiset(numbered) == multiset(selected)
    requires page > 0 && size > 0 && page * size < MAX_INT
    requires !Page(numbered, page, size).hasMore
    ensures multiset(Pages(numbered, page, size)) == multiset(selected)
  {
    NoMoreIsAll(numbered, page, size);
  }

  // ---------------------------------------------------------------- the table

  datatype Row = Row(recordTime: int, batteryId: string, readings: seq<real>)

  datatype Query = Query(pageNumber: int, rowsPerPage: int, orderBy: seq<string>, where: Row -> bool)

  const FIELDS := {"batteryId", "recordTime", "batteryCurrent", "voltage4", "voltage5", "voltage6", "voltage7",
                   "voltage8", "voltage9", "voltage10", "voltage11", "voltage12", "voltage13", "voltage14",
                   "voltage15", "voltage16", "voltage17", "voltage18", "voltage19", "voltage20", "voltage21",
                   "voltage22", "voltage23", "voltage24", "voltage25", "voltage26", "voltage27", "voltage28"}

  function Matching(table: seq<Row>, where: Row -> bool): (rows: seq<Row>)
    ensures |rows| <= |table|
  {
    if table == [] then []
    else Matching(table[..|table| - 1], where) + if where(table[|table| - 1]) then [table[|table| - 1]] else []
  }

  /** The rows that match, as often and in the order in which they stand in the table. */
  lemma {:induction false} MatchingExactly(table: seq<Row>, where: Row -> bool, r: Row)
    ensures multiset(Matching(table, where))[r] == if where(r) then multiset(table)[r] else 0
  {
    if table != [] {
      MatchingExactly(table[..|table| - 1], where, r);
      assert table == table[..|table| - 1] + [table[|table| - 1]];
    }
  }

  lemma {:induction false} MatchingInOrder(a: seq<Row>, b: seq<Row>, where: Row -> bool)
    ensures Matching(a + b, where) == Matching(a, where) + Matching(b, where)
  {
    if b == [] {
      assert a + b == a;
    } else {
      MatchingInOrder(a, b[..|b| - 1], where);
      assert (a + b)[..|a + b| - 1] == a + b[..|b| - 1];
    }
  }

  /** UPDATE ... WHERE record_time = ?: the new table and the number of rows affected. */
  function Updated(table: seq<Row>, c: Row): (r: (seq<Row>, nat))
    ensures |r.0| == |table|
  {
    if table == [] then ([], 0)
    else
      var row := table[|table| - 1];
      var (front, n) := Updated(table[..|table| - 1], c);
      if row.recordTime == c.recordTime then (front + [c], n + 1) else (front + [row], n)
  }

  /** The rows with a given record time. */
  function Rows(table: seq<Row>, recordTime: int): seq<Row> {
    Matching(table, (r: Row) => r.recordTime == recordTime)
  }

  ghost predicate AtMostOneEach(table: seq<Row>) {
    forall t :: |Rows(table, t)| <= 1
  }

  lemma {:induction false} UpdatedRows(table: seq<Row>, c: Row, t: int)
    ensures t != c.recordTime ==> Rows(Updated(table, c).0, t) == Rows(table, t)
    ensures t == c.recordTime ==> |Rows(Updated(table, c).0, t)| == |Rows(table, t)| == Updated(table, c).1
    ensures t == c.recordTime ==>
              forall i :: 0 <= i < |Rows(Updated(table, c).0, t)| ==> Rows(Updated(table, c).0, t)[i] == c
  {
    if table != [] {
      UpdatedRows(table[..|table| - 1], c, t);
      var after := Updated(table, c).0;
      assert after[..|table| - 1] == Updated(table[..|table| - 1], c).0;
    }
  }

  /** `create` by its meaning: the rows of every other record time stay as they are, and those of
      this one all become the given row, of which there is at least one. */
  ghost predicate Created(before: seq<Row>, after: seq<Row>, c: Row, affected: int) {
    && (forall t :: t != c.recordTime ==> Rows(after, t) == Rows(before, t))
    && (forall i :: 0 <= i < |Rows(after, c.recordTime)| ==> Rows(after, c.recordTime)[i] == c)
    && |Rows(after, c.recordTime)| == affected
    && affected == (if Rows(before, c.recordTime) == [] then 1 else |Rows(before, c.recordTime)|)
  }

  lemma UpdateCreates(table: seq<Row>, c: Row)
    requires Updated(table, c).1 > 0
    ensures Created(table, Updated(table, c).0, c, Updated(table, c).1)
  {
    var after := Updated(table, c).0;
    forall t | t != c.recordTime ensures Rows(after, t) == Rows(table, t) { UpdatedRows(table, c, t); }
    UpdatedRows(table, c, c.recordTime);
  }

  lemma InsertCreates(table: seq<Row>, c: Row)
    requires Updated(table, c).1 == 0
    ensures Created(table, table + [c], c, 1)
  {
    UpdatedRows(table, c, c.recordTime);
    assert (table + [c])[..|table|] == table;
  }

  /** Creating keeps record times distinct, so that the last row created for a time is the one row
      found for it. */
  lemma CreateKeepsKeys(before: seq<Row>, after: seq<Row>, c: Row, affected: int)
    requires Created(before, after, c, affected) && AtMostOneEach(before)
    ensures AtMostOneEach(after) && Rows(after, c.recordTime) == [c] && affected == 1
  {
    forall t ensures |Rows(after, t)| <= 1 {
      assert |Rows(before, t)| <= 1;
    }
    assert |Rows(before, c.recordTime)| <= 1;
  }

  class AiHistoryMinuteDAO {
    var table: seq<Row>

    constructor ()
      ensures table == []
    {
      table := [];
    }

    method Update(c: Row) returns (affected: nat)
      modifies this
      ensures (table, affected) == Updated(old(table), c)
    {
      var (rows, n) := Updated(table, c);
      table, affected := rows, n;
    }

    method Insert(c: Row) returns (affected: nat)
      modifies this
      ensures table == old(table) + [c] && affected == 1
    {
      table, affected := table + [c], 1;
    }

    method Create(c: Row) returns (affected: nat)
      modifies this
      ensures Created(old(table), table, c, affected)
    {
      UpdatedUnaffected(table, c);
      affected := Update(c);
      if affected > 0 {
        UpdateCreates(old(table), c);
      } else {
        InsertCreates(old(table), c);
        affected := Insert(c);
      }
    }

    /** `numbered` is the order in which the database numbers the selected rows. */
    method Select(q: Query, numbered: seq<Row>) returns (answer: Answer<Row>)
      requires multiset(numbered) == multiset(Matching(table, q.where))
      ensures answer == InvalidOrder <==>
                q.pageNumber > 0 && q.rowsPerPage > 0 && exists f :: f in q.orderBy && f !in FIELDS
      ensures q.pageNumber > 0 && q.rowsPerPage > 0 && q.orderBy != [] && answer != InvalidOrder ==>
                answer == Page(numbered, q.pageNumber, q.rowsPerPage)
                && (q.pageNumber * q.rowsPerPage < MAX_INT ==>
                      answer == IdealPage(numbered, q.pageNumber, q.rowsPerPage))
      ensures q.pageNumber <= 0 || q.rowsPerPage <= 0 || q.orderBy == [] ==>
                answer == Items(Matching(table, q.where), false)
    {
      hide Int32, IdealPage, Numbered, Matching;
      if q.pageNumber > 0 && q.rowsPerPage > 0 && |q.orderBy| > 0 {
        var known := true;
        for i := 0 to |q.orderBy|
          invariant known <==> forall f :: f in q.orderBy[..i] ==> f in FIELDS
        {
          assert q.orderBy[..i + 1] == q.orderBy[..i] + [q.orderBy[i]];
          if q.orderBy[i] !in FIELDS { known := false; }
        }
        assert q.orderBy[..|q.orderBy|] == q.orderBy;
        if !known {
          return InvalidOrder;
        }
        var beginRow := Int32((if q.pageNumber == 0 then 0 else q.pageNumber - 1) * q.rowsPerPage);
        var endRow := Int32(q.pageNumber * q.rowsPerPage);
        var more := Numbered(numbered, endRow, Int32(endRow + 1));
        answer := Items(Numbered(numbered, beginRow, endRow), more != []);
        if q.pageNumber * q.rowsPerPage < MAX_INT { PageIsIdeal(numbered, q.pageNumber, q.rowsPerPage); }
      } else {
        answer := Items(Matching(table, q.where), false);
      }
    }
  }

  lemma {:induction false} UpdatedUnaffected(table: seq<Row>, c: Row)
    ensures Updated(table, c).1 == 0 ==> Updated(table, c).0 == table
  {
    if table != [] { UpdatedUnaffected(table[..|table| - 1], c); }
  }
}
