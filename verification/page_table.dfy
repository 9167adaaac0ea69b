// Memoria/src/page_table.c: one row per physical frame, holding the pid that owns
// the frame and the page number it gives it. Rows live in a flat int array.
module PageTables {

  const COLS := 3

  datatype Row = Row(pid: int, page: int)

  const FREE := Row(0, 0)

  function RowsOf(cells: seq<int>): (rows: seq<Row>)
    requires |cells| % COLS == 0
    ensures |rows| == |cells| / COLS
    ensures forall i :: 0 <= i < |rows| ==> rows[i] == Row(cells[i * COLS], cells[i * COLS + 1])
  {
    seq(|cells| / COLS, i requires 0 <= i < |cells| / COLS => Row(cells[i * COLS], cells[i * COLS + 1]))
  }

  /** How many of the first i frames are free. */
  function FreeBefore(rows: seq<Row>, i: nat): (n: nat)
    requires i <= |rows|
    ensures n <= i
  {
    if i == 0 then 0 else FreeBefore(rows, i - 1) + if rows[i - 1].pid == 0 then 1 else 0
  }

  function Free(rows: seq<Row>): nat { FreeBefore(rows, |rows|) }

  function Owned(rows: seq<Row>, pid: int): nat {
    if rows == [] then 0 else Owned(rows[..|rows| - 1], pid) + if rows[|rows| - 1].pid == pid then 1 else 0
  }

  predicate Owns(rows: seq<Row>, pid: int) {
    exists i :: 0 <= i < |rows| && rows[i].pid == pid
  }

  predicate Grantable(rows: seq<Row>, pid: int, pages: int) {
    0 < pid && 0 < pages <= Free(rows)
  }

  /** The k-th free frame, counting from 0, becomes page pages - 1 - k. */
  function Granted(rows: seq<Row>, pid: int, pages: nat): (r: seq<Row>)
    ensures |r| == |rows|
  {
    seq(|rows|, i requires 0 <= i < |rows| =>
      if rows[i].pid == 0 && FreeBefore(rows, i) < pages then Row(pid, pages - 1 - FreeBefore(rows, i)) else rows[i])
  }

  function Cleared(rows: seq<Row>, pid: int): (r: seq<Row>)
    ensures |r| == |rows|
  {
    seq(|rows|, i requires 0 <= i < |rows| => if rows[i].pid == pid then FREE else rows[i])
  }

  /** The first frame in a given row state, or 0 when there is none: failure and
      frame 0 cannot be told apart. */
  function FirstFrame(rows: seq<Row>, row: Row, from: nat): (f: nat)
    requires from <= |rows|
    ensures f == 0 || from <= f < |rows|
    ensures row in rows[from..] ==> f < |rows| && rows[f] == row
    ensures row !in rows[from..] ==> f == 0
    decreases |rows| - from
  {
    if from == |rows| then 0
    else if rows[from] == row then from
    else assert rows[from..] == [rows[from]] + rows[from + 1..]; FirstFrame(rows, row, from + 1)
  }

  function FrameOf(rows: seq<Row>, pid: int, page: int): nat {
    if pid <= 0 || page < 0 || page >= |rows| then 0 else FirstFrame(rows, Row(pid, page), 0)
  }

  function RowAt(table: array<int>, i: nat): Row
    requires i * COLS + 1 < table.Length
    reads table
  {
    Row(table[i * COLS], table[i * COLS + 1])
  }

  method SetRow(table: array<int>, i: nat, row: Row)
    requires table.Length % COLS == 0 && i < table.Length / COLS
    modifies table
    ensures forall j :: 0 <= j < table.Length / COLS ==> RowAt(table, j) == if j == i then row else old(RowAt(table, j))
  {
    table[i * COLS] := row.pid;
    table[i * COLS + 1] := row.page;
  }

  /** The first loop of set_pages. */
  method CountFree(table: array<int>) returns (r: nat)
    requires table.Length % COLS == 0
    ensures r == FreeBefore(RowsOf(table[..]), table.Length / COLS)
  {
    ghost var rows := RowsOf(table[..]);
    r := 0;
    for i := 0 to table.Length / COLS
      invariant r == FreeBefore(rows, i)
    {
      assert rows[i] == RowAt(table, i);
      if table[i * COLS] == 0 { r := r + 1; }
    }
  }

  method SetPages(table: array<int>, pid: int, pages: int) returns (res: int)
    requires table.Length % COLS == 0
    modifies table
    ensures res == if Grantable(RowsOf(old(table[..])), pid, pages) then 1 else 0
    ensures RowsOf(table[..])
            == if res == 1 then Granted(RowsOf(old(table[..])), pid, pages) else RowsOf(old(table[..]))
  {
    if pid <= 0 || pages <= 0 { return 0; }
    var n := table.Length / COLS;
    ghost var was := RowsOf(table[..]);
    var r := CountFree(table);
    if r < pages { return 0; }
    HandOut(table, pid, pages);
    return 1;
  }

  /** The second loop of set_pages. */
  method HandOut(table: array<int>, pid: int, pages: nat)
    requires table.Length % COLS == 0
    modifies table
    ensures RowsOf(table[..]) == Granted(RowsOf(old(table[..])), pid, pages)
  {
    var n := table.Length / COLS;
    ghost var was := RowsOf(table[..]);
    var i, left := 0, pages;
    while i < n && left > 0
      invariant 0 <= i <= n
      invariant left == if FreeBefore(was, i) < pages then pages - FreeBefore(was, i) else 0
      invariant forall j :: 0 <= j < n ==>
        RowAt(table, j) == if j < i then Granted(was, pid, pages)[j] else was[j]
    {
      assert RowAt(table, i) == was[i];
      if table[i * COLS] == 0 {
        left := left - 1;
        SetRow(table, i, Row(pid, left));
      }
      assert RowAt(table, i) == Granted(was, pid, pages)[i];
      i := i + 1;
    }
    forall j | i <= j < n
      ensures Granted(was, pid, pages)[j] == was[j]
    {
      FreeBeforeMonotone(was, i, j);
    }
  }

  method ClearPages(table: array<int>, pid: int) returns (res: int)
    requires table.Length % COLS == 0
    modifies table
    ensures res == if pid > 0 then 1 else 0
    ensures RowsOf(table[..]) == if res == 1 then Cleared(RowsOf(old(table[..])), pid) else RowsOf(old(table[..]))
  {
    if pid <= 0 { return 0; }
    var n := table.Length / COLS;
    ghost var was := RowsOf(table[..]);
    for i := 0 to n
      invariant forall j :: 0 <= j < n ==>
        RowAt(table, j) == if j < i then Cleared(was, pid)[j] else was[j]
    {
      if table[i * COLS] == pid {
        SetRow(table, i, FREE);
      }
    }
    return 1;
  }

  method GetFrame(table: array<int>, pid: int, page: int) returns (frame: int)
    requires table.Length % COLS == 0
    ensures frame == FrameOf(RowsOf(table[..]), pid, page)
  {
    var n := table.Length / COLS;
    if pid <= 0 || page < 0 || page >= n { return 0; }
    ghost var rows := RowsOf(table[..]);
    for i := 0 to n
      invariant FirstFrame(rows, Row(pid, page), 0) == FirstFrame(rows, Row(pid, page), i)
    {
      assert rows[i] == Row(table[i * COLS], table[i * COLS + 1]);
      if table[i * COLS] == pid && table[i * COLS + 1] == page { return i; }
    }
    return 0;
  }

  // ----- What a table looks like between requests

  /** Free rows are zeroed, no (pid, page) occurs twice, and the pages of a pid
      form an initial segment 0..k-1. */
  ghost predicate TableOk(rows: seq<Row>) {
    && (forall i :: 0 <= i < |rows| ==> rows[i] == FREE || (rows[i].pid > 0 && 0 <= rows[i].page < |rows|))
    && Unambiguous(rows)
    && (forall i :: 0 <= i < |rows| && rows[i].page > 0 ==> Row(rows[i].pid, rows[i].page - 1) in rows)
  }

  ghost predicate Unambiguous(rows: seq<Row>) {
    forall i, j :: 0 <= i < j < |rows| && rows[i].pid > 0 ==> rows[i] != rows[j]
  }

  ghost predicate Mapped(rows: seq<Row>, pid: int, page: int) {
    0 < pid && 0 <= page < |rows| && Row(pid, page) in rows
  }

  lemma FrameIsOwned(rows: seq<Row>, pid: int, page: int)
    requires Mapped(rows, pid, page)
    ensures FrameOf(rows, pid, page) < |rows| && rows[FrameOf(rows, pid, page)] == Row(pid, page)
  {
    assert rows[0..] == rows;
  }

  lemma {:induction false} FreeBeforeMonotone(rows: seq<Row>, i: nat, j: nat)
    requires i <= j <= |rows|
    ensures FreeBefore(rows, i) <= FreeBefore(rows, j)
    ensures i < j && rows[i].pid == 0 ==> FreeBefore(rows, i) < FreeBefore(rows, j)
  {
    if i < j {
      if i < j - 1 { FreeBeforeMonotone(rows, i, j - 1); }
    }
  }

  /** Counting free frames reaches every number below the total. */
  lemma {:induction false} NthFree(rows: seq<Row>, n: nat, k: nat) returns (i: nat)
    requires n <= |rows| && k < FreeBefore(rows, n)
    ensures i < n && rows[i].pid == 0 && FreeBefore(rows, i) == k
  {
    if k == FreeBefore(rows, n - 1) {
      i := n - 1;
    } else {
      i := NthFree(rows, n - 1, k);
    }
  }

  /** A grant maps every page 0..pages-1 to a frame that was free, and leaves the
      rows of everybody else alone. */
  lemma GrantMapsEachPage(rows: seq<Row>, pid: int, pages: int, p: int)
    requires Grantable(rows, pid, pages) && !Owns(rows, pid) && 0 <= p < pages
    ensures exists i :: 0 <= i < |rows| && rows[i].pid == 0 && Granted(rows, pid, pages)[i] == Row(pid, p)
  {
    var i := NthFree(rows, |rows|, pages - 1 - p);
    assert Granted(rows, pid, pages)[i] == Row(pid, p);
  }

  /** Frames go out in descending page order. */
  lemma GrantDescends(rows: seq<Row>, pid: int, pages: int, i: nat, j: nat)
    requires Grantable(rows, pid, pages) && !Owns(rows, pid) && i < j < |rows|
    requires Granted(rows, pid, pages)[i].pid == pid && Granted(rows, pid, pages)[j].pid == pid
    ensures Granted(rows, pid, pages)[i].page > Granted(rows, pid, pages)[j].page
  {
    assert rows[i].pid == 0 && rows[j].pid == 0;
    FreeBeforeMonotone(rows, i, j);
  }

  lemma GrantUnique(rows: seq<Row>, pid: int, pages: int, i: nat, j: nat)
    requires TableOk(rows) && Grantable(rows, pid, pages) && !Owns(rows, pid) && i < j < |rows|
    requires Granted(rows, pid, pages)[i].pid > 0
    ensures Granted(rows, pid, pages)[i] != Granted(rows, pid, pages)[j]
  {
    var r := Granted(rows, pid, pages);
    if r[i].pid == pid && r[j].pid == pid { GrantDescends(rows, pid, pages, i, j); }
  }

  lemma GrantGapless(rows: seq<Row>, pid: int, pages: int, i: nat)
    requires TableOk(rows) && Grantable(rows, pid, pages) && !Owns(rows, pid) && i < |rows|
    requires Granted(rows, pid, pages)[i].page > 0
    ensures var r := Granted(rows, pid, pages); Row(r[i].pid, r[i].page - 1) in r
  {
    var r := Granted(rows, pid, pages);
    if r[i].pid == pid {
      FreeBeforeMonotone(rows, i, |rows|);
      GrantMapsEachPage(rows, pid, pages, r[i].page - 1);
    } else {
      var j :| 0 <= j < |rows| && rows[j] == Row(rows[i].pid, rows[i].page - 1);
      assert r[j] == rows[j];
    }
  }

  lemma GrantKeepsTable(rows: seq<Row>, pid: int, pages: int)
    requires TableOk(rows) && Grantable(rows, pid, pages) && !Owns(rows, pid)
    ensures TableOk(Granted(rows, pid, pages))
  {
    var r := Granted(rows, pid, pages);
    forall i, j | 0 <= i < j < |rows| && r[i].pid > 0 ensures r[i] != r[j] {
      GrantUnique(rows, pid, pages, i, j);
    }
    forall i | 0 <= i < |rows| ensures r[i] == FREE || (r[i].pid > 0 && 0 <= r[i].page < |rows|) {
      FreeBeforeMonotone(rows, i, |rows|);
    }
    forall i | 0 <= i < |rows| && r[i].page > 0 ensures Row(r[i].pid, r[i].page - 1) in r {
      GrantGapless(rows, pid, pages, i);
    }
  }

  lemma GrantedFrame(rows: seq<Row>, pid: int, pages: int, p: int)
    requires TableOk(rows) && Grantable(rows, pid, pages) && !Owns(rows, pid) && 0 <= p < pages
    ensures var r := Granted(rows, pid, pages);
            && Mapped(r, pid, p) && FrameOf(r, pid, p) < |rows|
            && r[FrameOf(r, pid, p)] == Row(pid, p) && rows[FrameOf(r, pid, p)] == FREE
  {
    var r := Granted(rows, pid, pages);
    GrantMapsEachPage(rows, pid, pages, p);
    var i :| 0 <= i < |rows| && rows[i].pid == 0 && r[i] == Row(pid, p);
    assert r[i] in r;
    FreeBeforeMonotone(rows, |rows|, |rows|);
    FrameIsOwned(r, pid, p);
  }

  lemma GrantedFramesDescend(rows: seq<Row>, pid: int, pages: int, p: int, q: int)
    requires TableOk(rows) && Grantable(rows, pid, pages) && !Owns(rows, pid) && 0 <= p < q < pages
    ensures FrameOf(Granted(rows, pid, pages), pid, p) > FrameOf(Granted(rows, pid, pages), pid, q)
  {
    var r := Granted(rows, pid, pages);
    GrantedFrame(rows, pid, pages, p);
    GrantedFrame(rows, pid, pages, q);
    GrantedPagesDescend(rows, pid, pages, p, q, FrameOf(r, pid, p), FrameOf(r, pid, q));
  }

  lemma GrantedPagesDescend(rows: seq<Row>, pid: int, pages: int, p: int, q: int, i: nat, j: nat)
    requires Grantable(rows, pid, pages) && !Owns(rows, pid) && p < q && i < |rows| && j < |rows|
    requires Granted(rows, pid, pages)[i] == Row(pid, p) && Granted(rows, pid, pages)[j] == Row(pid, q)
    ensures i > j
  {
    if i < j { GrantDescends(rows, pid, pages, i, j); }
  }

  lemma GrantedOnlyThose(rows: seq<Row>, pid: int, pages: int, p: int)
    requires Grantable(rows, pid, pages) && !Owns(rows, pid) && Mapped(Granted(rows, pid, pages), pid, p)
    ensures 0 <= p < pages
  {
    var i :| 0 <= i < |rows| && Granted(rows, pid, pages)[i] == Row(pid, p);
  }

  /** All or nothing: the pid ends up with exactly the pages 0..pages-1, each in a
      frame that was free, different pages in different frames. */
  lemma GrantIsExact(rows: seq<Row>, pid: int, pages: int)
    requires TableOk(rows) && Grantable(rows, pid, pages) && !Owns(rows, pid)
    ensures var r := Granted(rows, pid, pages);
            && TableOk(r)
            && (forall p :: Mapped(r, pid, p) <==> 0 <= p < pages)
            && (forall p :: 0 <= p < pages ==> FrameOf(r, pid, p) < |rows| && rows[FrameOf(r, pid, p)] == FREE)
            && (forall p, q :: 0 <= p < q < pages ==> FrameOf(r, pid, p) > FrameOf(r, pid, q))
            && (forall i :: 0 <= i < |rows| && rows[i] != FREE ==> r[i] == rows[i])
  {
    var r := Granted(rows, pid, pages);
    GrantKeepsTable(rows, pid, pages);
    forall p | 0 <= p < pages
      ensures Mapped(r, pid, p) && FrameOf(r, pid, p) < |rows|
      ensures rows[FrameOf(r, pid, p)] == FREE && r[FrameOf(r, pid, p)] == Row(pid, p)
    {
      GrantedFrame(rows, pid, pages, p);
    }
    forall p, q | 0 <= p < q < pages ensures FrameOf(r, pid, p) > FrameOf(r, pid, q) {
      GrantedFramesDescend(rows, pid, pages, p, q);
    }
    forall p | Mapped(r, pid, p) ensures 0 <= p < pages {
      GrantedOnlyThose(rows, pid, pages, p);
    }
  }

  /** Translation stays unambiguous if and only if the pid had no pages yet. */
  lemma GrantUnambiguousIffFresh(rows: seq<Row>, pid: int, pages: int)
    requires TableOk(rows) && Grantable(rows, pid, pages)
    ensures Unambiguous(Granted(rows, pid, pages)) <==> !Owns(rows, pid)
  {
    if !Owns(rows, pid) {
      GrantKeepsTable(rows, pid, pages);
    } else {
      var j, k := SecondGrantCollides(rows, pid, pages);
      var r, lo, hi := Granted(rows, pid, pages), if j < k then j else k, if j < k then k else j;
      assert r[lo] == r[hi];
    }
  }

  /** A second grant makes a second page 0. */
  lemma SecondGrantCollides(rows: seq<Row>, pid: int, pages: int) returns (j: nat, k: nat)
    requires TableOk(rows) && Grantable(rows, pid, pages) && Owns(rows, pid)
    ensures j < |rows| && k < |rows| && j != k
    ensures Granted(rows, pid, pages)[j] == Granted(rows, pid, pages)[k] == Row(pid, 0)
  {
    var i :| 0 <= i < |rows| && rows[i].pid == pid;
    j := FirstPage(rows, i);
    k := NthFree(rows, |rows|, pages - 1);
  }

  lemma {:induction false} FirstPage(rows: seq<Row>, i: nat) returns (j: nat)
    requires TableOk(rows) && i < |rows| && rows[i].pid > 0
    ensures j < |rows| && rows[j] == Row(rows[i].pid, 0)
    decreases rows[i].page
  {
    if rows[i].page == 0 {
      j := i;
    } else {
      var k :| 0 <= k < |rows| && rows[k] == Row(rows[i].pid, rows[i].page - 1);
      j := FirstPage(rows, k);
    }
  }

  lemma ClearKeepsTable(rows: seq<Row>, pid: int)
    requires TableOk(rows) && pid > 0
    ensures TableOk(Cleared(rows, pid)) && !Owns(Cleared(rows, pid), pid)
    ensures forall p, page :: p != pid ==> (Mapped(Cleared(rows, pid), p, page) <==> Mapped(rows, p, page))
  {
    var r := Cleared(rows, pid);
    assert forall i :: 0 <= i < |rows| && rows[i].pid != pid ==> r[i] == rows[i];
    forall i | 0 <= i < |rows| && r[i].page > 0 ensures Row(r[i].pid, r[i].page - 1) in r {
      var j :| 0 <= j < |rows| && rows[j] == Row(rows[i].pid, rows[i].page - 1);
      assert r[j] == rows[j];
    }
  }

  /** Ending a program gives back exactly what its start took. */
  lemma ClearUndoesGrant(rows: seq<Row>, pid: int, pages: int)
    requires TableOk(rows) && Grantable(rows, pid, pages) && !Owns(rows, pid)
    ensures Cleared(Granted(rows, pid, pages), pid) == rows
  {
  }

  // ----- Conservation of frames

  lemma {:induction false} OwnedAndFree(rows: seq<Row>, n: nat)
    requires n <= |rows|
    ensures Owned(rows[..n], 0) == FreeBefore(rows, n)
  {
    if n > 0 {
      assert rows[..n][..n - 1] == rows[..n - 1];
      OwnedAndFree(rows, n - 1);
    }
  }

  lemma {:induction false} GrantCounts(rows: seq<Row>, pid: int, pages: nat, n: nat, p: int)
    requires pid > 0 && n <= |rows|
    ensures var got := if FreeBefore(rows, n) < pages then FreeBefore(rows, n) else pages;
            Owned(Granted(rows, pid, pages)[..n], p)
              == Owned(rows[..n], p) + (if p == pid then got else 0) - (if p == 0 then got else 0)
  {
    if n > 0 {
      var r := Granted(rows, pid, pages);
      assert r[..n][..n - 1] == r[..n - 1] && rows[..n][..n - 1] == rows[..n - 1];
      GrantCounts(rows, pid, pages, n - 1, p);
    }
  }

  lemma {:induction false} ClearCounts(rows: seq<Row>, pid: int, p: int)
    requires pid > 0
    ensures Owned(Cleared(rows, pid), p)
              == if p == pid then 0 else Owned(rows, p) + if p == 0 then Owned(rows, pid) else 0
  {
    if rows != [] {
      var n := |rows| - 1;
      assert Cleared(rows, pid)[..n] == Cleared(rows[..n], pid);
      ClearCounts(rows[..n], pid, p);
    }
  }

  /** A grant moves exactly the requested number of frames from the free pool (pid
      0) to the pid; clearing moves all of them back; nobody else's count changes. */
  lemma FramesConserved(rows: seq<Row>, pid: int, pages: int, p: int)
    requires Grantable(rows, pid, pages)
    ensures Owned(Granted(rows, pid, pages), p)
              == Owned(rows, p) + (if p == pid then pages else 0) - (if p == 0 then pages else 0)
    ensures Owned(Cleared(rows, pid), p)
              == if p == pid then 0 else Owned(rows, p) + if p == 0 then Owned(rows, pid) else 0
  {
    var r := Granted(rows, pid, pages);
    assert r[..|rows|] == r && rows[..|rows|] == rows;
    GrantCounts(rows, pid, pages, |rows|, p);
    ClearCounts(rows, pid, p);
  }

  // ----- Runs

  datatype Request = Grant(pid: int, pages: int) | Clear(pid: int)

  function Serve(rows: seq<Row>, q: Request): (r: seq<Row>)
    ensures |r| == |rows|
  {
    match q
    case Grant(pid, pages) => if Grantable(rows, pid, pages) then Granted(rows, pid, pages) else rows
    case Clear(pid) => if pid > 0 then Cleared(rows, pid) else rows
  }

  function ServeAll(rows: seq<Row>, qs: seq<Request>): (r: seq<Row>)
    ensures |r| == |rows|
    decreases |qs|
  {
    if qs == [] then rows else ServeAll(Serve(rows, qs[0]), qs[1..])
  }

  /** No pid asks again while it still owns pages. */
  ghost predicate FreshGrants(rows: seq<Row>, qs: seq<Request>)
    decreases |qs|
  {
    qs == [] || ((qs[0].Grant? ==> !Owns(rows, qs[0].pid)) && FreshGrants(Serve(rows, qs[0]), qs[1..]))
  }

  /** How many pages p has after the requests: those of its last grant since it was last
      cleared, or what it had before when neither occurred. */
  function Holding(rows: seq<Row>, qs: seq<Request>, p: int, before: int): int
    decreases |qs|
  {
    if qs == [] then before
    else
      Holding(Serve(rows, qs[0]), qs[1..], p,
              match qs[0]
              case Grant(pid, pages) => if pid == p && Grantable(rows, pid, pages) then pages else before
              case Clear(pid) => if pid == p then 0 else before)
  }

  lemma {:induction false} NoneOwned(rows: seq<Row>, pid: int)
    requires !Owns(rows, pid)
    ensures Owned(rows, pid) == 0
  {
    if rows != [] {
      assert rows[|rows| - 1].pid != pid;
      assert forall i :: 0 <= i < |rows| - 1 ==> rows[..|rows| - 1][i] == rows[i];
      NoneOwned(rows[..|rows| - 1], pid);
    }
  }

  /** Over every run of grants to pids without pages and clears, the table stays in order
      and each pid has the pages of its last grant that was not cleared. */
  lemma {:induction false} RunsKeepTable(rows: seq<Row>, qs: seq<Request>, p: int)
    requires TableOk(rows) && FreshGrants(rows, qs)
    ensures TableOk(ServeAll(rows, qs))
    ensures p > 0 ==> Owned(ServeAll(rows, qs), p) == Holding(rows, qs, p, Owned(rows, p))
    decreases |qs|
  {
    if qs != [] {
      match qs[0] {
        case Grant(pid, pages) =>
          if Grantable(rows, pid, pages) {
            GrantKeepsTable(rows, pid, pages);
            FramesConserved(rows, pid, pages, p);
            NoneOwned(rows, pid);
          }
        case Clear(pid) =>
          if pid > 0 {
            ClearKeepsTable(rows, pid);
            ClearCounts(rows, pid, p);
          }
      }
      RunsKeepTable(Serve(rows, qs[0]), qs[1..], p);
    }
  }

  function OwnedByAll(rows: seq<Row>, pids: seq<int>): nat {
    if pids == [] then 0 else Owned(rows, pids[0]) + OwnedByAll(rows, pids[1..])
  }

  /** Different pids, all positive, that own every row that is not free. */
  ghost predicate Covers(rows: seq<Row>, pids: seq<int>) {
    && (forall i, j :: 0 <= i < j < |pids| ==> pids[i] != pids[j]) && 0 !in pids
    && forall i :: 0 <= i < |rows| ==> rows[i].pid == 0 || rows[i].pid in pids
  }

  lemma {:induction false} OwnedByAllSnoc(rows: seq<Row>, pids: seq<int>)
    requires rows != [] && forall i, j :: 0 <= i < j < |pids| ==> pids[i] != pids[j]
    ensures var last := |rows| - 1;
            OwnedByAll(rows, pids) == OwnedByAll(rows[..last], pids) + if rows[last].pid in pids then 1 else 0
  {
    if pids != [] {
      assert pids == [pids[0]] + pids[1..];
      OwnedByAllSnoc(rows, pids[1..]);
    }
  }

  lemma {:induction false} NothingOwned(pids: seq<int>)
    ensures OwnedByAll([], pids) == 0
  {
    if pids != [] { NothingOwned(pids[1..]); }
  }

  /** Free rows and owned rows add up to the table. */
  lemma {:induction false} FramesAddUp(rows: seq<Row>, pids: seq<int>)
    requires Covers(rows, pids)
    ensures Free(rows) + OwnedByAll(rows, pids) == |rows|
  {
    if rows == [] {
      NothingOwned(pids);
    } else {
      var last := |rows| - 1;
      assert forall i :: 0 <= i < last ==> rows[..last][i] == rows[i];
      FramesAddUp(rows[..last], pids);
      OwnedByAllSnoc(rows, pids);
      FreeOfPrefix(rows, last);
    }
  }

  lemma {:induction false} FreeOfPrefix(rows: seq<Row>, n: nat)
    requires n <= |rows|
    ensures Free(rows[..n]) == FreeBefore(rows, n)
  {
    if n > 0 {
      FreeOfPrefix(rows, n - 1);
      SamePrefix(rows[..n], rows, n - 1);
      assert rows[..n][..n - 1] == rows[..n - 1];
    }
  }

  lemma {:induction false} SamePrefix(rows: seq<Row>, rows': seq<Row>, n: nat)
    requires n <= |rows| && n <= |rows'| && rows[..n] == rows'[..n]
    ensures FreeBefore(rows, n) == FreeBefore(rows', n)
  {
    if n > 0 {
      assert rows[n - 1] == rows[..n][n - 1] == rows'[..n][n - 1] == rows'[n - 1];
      assert rows[..n - 1] == rows[..n][..n - 1] == rows'[..n][..n - 1];
      SamePrefix(rows, rows', n - 1);
    }
  }

  function HoldingOfAll(rows: seq<Row>, qs: seq<Request>, pids: seq<int>): int {
    if pids == [] then 0 else Holding(rows, qs, pids[0], Owned(rows, pids[0])) + HoldingOfAll(rows, qs, pids[1..])
  }

  lemma {:induction false} HoldingIsOwned(rows: seq<Row>, qs: seq<Request>, pids: seq<int>)
    requires TableOk(rows) && FreshGrants(rows, qs) && forall i :: 0 <= i < |pids| ==> pids[i] > 0
    ensures HoldingOfAll(rows, qs, pids) == OwnedByAll(ServeAll(rows, qs), pids)
  {
    if pids != [] {
      RunsKeepTable(rows, qs, pids[0]);
      HoldingIsOwned(rows, qs, pids[1..]);
    }
  }

  /** After every run, free frames and the pages of all last grants not cleared add up
      to the table. */
  lemma RunsConserveFrames(rows: seq<Row>, qs: seq<Request>, pids: seq<int>)
    requires TableOk(rows) && FreshGrants(rows, qs)
    requires Covers(ServeAll(rows, qs), pids) && forall i :: 0 <= i < |pids| ==> pids[i] > 0
    ensures Free(ServeAll(rows, qs)) + HoldingOfAll(rows, qs, pids) == |rows|
  {
    HoldingIsOwned(rows, qs, pids);
    FramesAddUp(ServeAll(rows, qs), pids);
  }

  /** The table alloc hands out: all zeroes. */
  lemma EmptyTableOk(n: nat)
    ensures TableOk(RowsOf(seq(n * COLS, i => 0)))
  {
    var cells := seq(n * COLS, i => 0);
    assert forall i :: 0 <= i < n ==> 0 <= i * COLS && i * COLS + 1 < |cells| && RowsOf(cells)[i] == FREE;
  }
}
