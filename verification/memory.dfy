// The memory process: get_bytes and set_bytes of Memoria/src/page_table.c and the
// request cases of cli_thread in Memoria/src/server.c. Page numbers, offsets and
// sizes travel as 16-bit signed fields.
module Memories {
  import opened Bytes
  import opened PageTables

  /** The page table, the flat main memory and the frame size. */
  datatype Memory = Memory(rows: seq<Row>, main: seq<byte>, frameSize: int)

  /** A 16-bit field of a request, as the receiver sees it. */
  function Short(i: int): (s: int)
    ensures -0x8000 <= s < 0x8000 && (s == i <==> -0x8000 <= i < 0x8000)
  {
    SpanValues();
    WrapSigned(2, i)
  }

  /** Data returned, a zero result, or an access outside main memory, which the
      server does not check for. */
  datatype Reply = Data(bytes: seq<byte>) | Refused | OutOfRange

  function GetBytes(main: seq<byte>, frameSize: int, frame: int, offset: int, size: int): Reply {
    var base := frame * frameSize + offset;
    if offset < 0 || size <= 0 then Refused
    else if base < 0 || base + size > |main| then OutOfRange
    else Data(main[base..base + size])
  }

  /** data is the packet's payload together with whatever follows it on the heap. */
  function SetBytes(main: seq<byte>, frameSize: int, frame: int, offset: int, size: int, data: seq<byte>)
    : (r: (seq<byte>, Reply))
    requires size <= |data|
    ensures |r.0| == |main|
  {
    var base := frame * frameSize + offset;
    if offset < 0 || size <= 0 then (main, Refused)
    else if base < 0 || base + size > |main| then (main, OutOfRange)
    else (main[..base] + data[..size] + main[base + size..], Data([]))
  }

  /** OP_ME_SOLBYTPAG */
  function Read(m: Memory, pid: int, page: int, offset: int, size: int): Reply {
    GetBytes(m.main, m.frameSize, FrameOf(m.rows, pid, Short(page)), Short(offset), Short(size))
  }

  /** OP_ME_ALMBYTPAG */
  function Write(m: Memory, pid: int, page: int, offset: int, size: int, data: seq<byte>): (r: (Memory, Reply))
    requires Short(size) <= |data|
    ensures r.0.rows == m.rows && r.0.frameSize == m.frameSize && |r.0.main| == |m.main|
  {
    var (main, reply) := SetBytes(m.main, m.frameSize, FrameOf(m.rows, pid, Short(page)), Short(offset), Short(size),
                                 data);
    (m.(main := main), reply)
  }

  /** OP_ME_INIPRO */
  function Init(m: Memory, pid: int, pages: int): (Memory, int) {
    if Grantable(m.rows, pid, Short(pages)) then (m.(rows := Granted(m.rows, pid, Short(pages))), 1) else (m, 0)
  }

  /** OP_ME_FINPRO */
  function Release(m: Memory, pid: int): (Memory, int) {
    if pid > 0 then (m.(rows := Cleared(m.rows, pid)), 1) else (m, 0)
  }

  ghost predicate MemoryOk(m: Memory) {
    0 < m.frameSize < 0x8000 && |m.rows| <= 0x8000 && |m.main| == |m.rows| * m.frameSize && TableOk(m.rows)
  }

  /** The abstract contents: the byte at an offset of a page of a process. */
  function ByteAt(m: Memory, pid: int, page: int, offset: int): byte
    requires MemoryOk(m) && Mapped(m.rows, pid, page) && 0 <= offset < m.frameSize
  {
    FrameInMain(m, pid, page);
    m.main[FrameOf(m.rows, pid, page) * m.frameSize + offset]
  }

  lemma FrameInMain(m: Memory, pid: int, page: int)
    requires MemoryOk(m) && Mapped(m.rows, pid, page)
    ensures 0 <= FrameOf(m.rows, pid, page) * m.frameSize
    ensures FrameOf(m.rows, pid, page) * m.frameSize + m.frameSize <= |m.main|
  {
    FrameIsOwned(m.rows, pid, page);
    FrameFits(FrameOf(m.rows, pid, page), |m.rows|, m.frameSize);
  }

  lemma FrameFits(f: int, n: int, size: int)
    requires 0 <= f < n && size > 0
    ensures 0 <= f * size && f * size + size <= n * size
  {
    if f > 0 { MulAtLeast(f, size); }
    FramesApart(f, n, size);
  }

  lemma FramesApart(f: int, g: int, size: int)
    requires size > 0 && f < g
    ensures f * size + size <= g * size
  {
    MulAtLeast(g - f, size);
    assert (g - f) * size == g * size - f * size;
  }

  /** An access that stays inside a page of the process reaches memory. */
  ghost predicate InPage(m: Memory, pid: int, page: int, offset: int, size: int) {
    MemoryOk(m) && Mapped(m.rows, pid, page) && 0 <= offset && 0 < size && offset + size <= m.frameSize
  }

  /** Reading inside a page returns the abstract bytes. */
  lemma ReadRefines(m: Memory, pid: int, page: int, offset: int, size: int)
    requires InPage(m, pid, page, offset, size)
    ensures var r := Read(m, pid, page, offset, size);
            r.Data? && |r.bytes| == size && forall k :: 0 <= k < size ==> r.bytes[k] == ByteAt(m, pid, page, offset + k)
  {
    FrameInMain(m, pid, page);
  }

  /** Writing inside a page updates exactly the addressed bytes of that process:
      no other byte of any page of any process changes. */
  lemma WriteRefines(m: Memory, pid: int, page: int, offset: int, size: int, data: seq<byte>, p: int, g: int, o: int)
    requires InPage(m, pid, page, offset, size) && size <= |data|
    requires Mapped(m.rows, p, g) && 0 <= o < m.frameSize
    ensures var (m', r) := Write(m, pid, page, offset, size, data);
            && r == Data([]) && MemoryOk(m')
            && ByteAt(m', p, g, o)
                 == if p == pid && g == page && offset <= o < offset + size then data[o - offset]
                    else ByteAt(m, p, g, o)
  {
    FrameInMain(m, pid, page);
    FrameInMain(m, p, g);
    FrameIsOwned(m.rows, pid, page);
    FrameIsOwned(m.rows, p, g);
    var f, f' := FrameOf(m.rows, pid, page), FrameOf(m.rows, p, g);
    if f < f' {
      FramesApart(f, f', m.frameSize);
    } else if f' < f {
      FramesApart(f', f, m.frameSize);
    } else {
      assert p == pid && g == page;
    }
  }

  /** Starting a program keeps the bytes of all the others where they are. */
  lemma InitKeepsOthers(m: Memory, pid: int, pages: int, p: int, g: int, o: int)
    requires MemoryOk(m) && !Owns(m.rows, pid) && Mapped(m.rows, p, g) && 0 <= o < m.frameSize
    ensures var m' := Init(m, pid, pages).0;
            MemoryOk(m') && Mapped(m'.rows, p, g) && ByteAt(m', p, g, o) == ByteAt(m, p, g, o)
  {
    if Grantable(m.rows, pid, Short(pages)) {
      GrantIsExact(m.rows, pid, Short(pages));
      var f, r := FrameOf(m.rows, p, g), Granted(m.rows, pid, Short(pages));
      FrameIsOwned(m.rows, p, g);
      assert r[f] == m.rows[f];
      assert Mapped(r, p, g);
      FrameIsOwned(r, p, g);
      SameFrame(r, f, FrameOf(r, p, g));
    }
  }

  lemma ReleaseKeepsOthers(m: Memory, pid: int, p: int, g: int, o: int)
    requires MemoryOk(m) && pid > 0 && p != pid && Mapped(m.rows, p, g) && 0 <= o < m.frameSize
    ensures var m' := Release(m, pid).0;
            MemoryOk(m') && Mapped(m'.rows, p, g) && ByteAt(m', p, g, o) == ByteAt(m, p, g, o)
  {
    ClearKeepsTable(m.rows, pid);
    var f, r := FrameOf(m.rows, p, g), Cleared(m.rows, pid);
    FrameIsOwned(m.rows, p, g);
    assert r[f] == m.rows[f];
    FrameIsOwned(r, p, g);
    SameFrame(r, f, FrameOf(r, p, g));
  }

  lemma SameFrame(rows: seq<Row>, f: int, g: int)
    requires Unambiguous(rows) && 0 <= f < |rows| && 0 <= g < |rows| && rows[f] == rows[g] && rows[f].pid > 0
    ensures f == g
  {
  }

  /** Where a request with that page and offset begins in main memory. */
  function BaseOf(m: Memory, pid: int, page: int, offset: int): int {
    FrameOf(m.rows, pid, page) * m.frameSize + offset
  }

  /** The frames that size bytes from base on touch all belong to the process. */
  ghost predicate OwnsStretch(m: Memory, pid: int, base: int, size: int)
    requires m.frameSize > 0
  {
    forall f :: 0 <= f < |m.rows| && base < f * m.frameSize + m.frameSize && f * m.frameSize < base + size ==>
        m.rows[f].pid == pid
  }

  lemma FrameOfByte(m: Memory, i: int)
    requires MemoryOk(m) && 0 <= i < |m.main|
    ensures var f := i / m.frameSize; 0 <= f < |m.rows| && f * m.frameSize <= i < f * m.frameSize + m.frameSize
  {
    var f := i / m.frameSize;
    assert i == f * m.frameSize + i % m.frameSize;
    if f < 0 { FramesApart(f, 0, m.frameSize); }
    if f > |m.rows| { FramesApart(|m.rows|, f, m.frameSize); }
  }

  /** No byte of a frame of anybody else changes. */
  ghost predicate LeavesOthers(m: Memory, m': Memory, pid: int)
    requires m.frameSize > 0
  {
    && |m'.main| == |m.main|
    && forall i :: 0 <= i < |m.main| && 0 <= i / m.frameSize < |m.rows| && m.rows[i / m.frameSize].pid != pid ==>
         m'.main[i] == m.main[i]
  }

  /** A write, whatever the data, leaves the frames of everybody else alone if and only
      if all the frames its bytes touch belong to the process. */
  lemma WriteStaysInsideIff(m: Memory, pid: int, page: int, offset: int, size: int)
    requires MemoryOk(m) && -0x8000 <= page < 0x8000 && 0 <= offset < 0x8000 && 0 < size < 0x8000
    requires BaseOf(m, pid, page, offset) + size <= |m.main|
    ensures (forall data: seq<byte> :: |data| >= size ==>
              LeavesOthers(m, Write(m, pid, page, offset, size, data).0, pid))
            <==> OwnsStretch(m, pid, BaseOf(m, pid, page, offset), size)
  {
    var base := BaseOf(m, pid, page, offset);
    if OwnsStretch(m, pid, base, size) {
      forall data: seq<byte> | |data| >= size ensures LeavesOthers(m, Write(m, pid, page, offset, size, data).0, pid) {
        OwnedWriteLeavesOthers(m, pid, page, offset, size, data);
      }
    } else {
      var data := StrayWriteShows(m, pid, page, offset, size);
      assert !LeavesOthers(m, Write(m, pid, page, offset, size, data).0, pid);
    }
  }

  lemma BaseIsNat(m: Memory, pid: int, page: int, offset: int)
    requires MemoryOk(m) && offset >= 0
    ensures BaseOf(m, pid, page, offset) >= offset
  {
    if FrameOf(m.rows, pid, page) > 0 { MulAtLeast(FrameOf(m.rows, pid, page), m.frameSize); }
  }

  /** The bytes of main memory after a write that stays in it. */
  lemma WrittenByte(m: Memory, pid: int, page: int, offset: int, size: int, data: seq<byte>, i: int)
    requires MemoryOk(m) && -0x8000 <= page < 0x8000 && 0 <= offset < 0x8000 && 0 < size < 0x8000 && size <= |data|
    requires BaseOf(m, pid, page, offset) + size <= |m.main| && 0 <= i < |m.main|
    ensures var base := BaseOf(m, pid, page, offset);
            Write(m, pid, page, offset, size, data).0.main[i]
                == if base <= i < base + size then data[i - base] else m.main[i]
  {
    BaseIsNat(m, pid, page, offset);
  }

  lemma OwnedWriteLeavesOthers(m: Memory, pid: int, page: int, offset: int, size: int, data: seq<byte>)
    requires MemoryOk(m) && -0x8000 <= page < 0x8000 && 0 <= offset < 0x8000 && 0 < size < 0x8000 && size <= |data|
    requires BaseOf(m, pid, page, offset) + size <= |m.main| && OwnsStretch(m, pid, BaseOf(m, pid, page, offset), size)
    ensures LeavesOthers(m, Write(m, pid, page, offset, size, data).0, pid)
  {
    var m' := Write(m, pid, page, offset, size, data).0;
    forall i | 0 <= i < |m.main| && 0 <= i / m.frameSize < |m.rows| && m.rows[i / m.frameSize].pid != pid
      ensures m'.main[i] == m.main[i]
    {
      FrameOfByte(m, i);
      WrittenByte(m, pid, page, offset, size, data, i);
    }
  }

  lemma StrayWriteShows(m: Memory, pid: int, page: int, offset: int, size: int) returns (data: seq<byte>)
    requires MemoryOk(m) && -0x8000 <= page < 0x8000 && 0 <= offset < 0x8000 && 0 < size < 0x8000
    requires BaseOf(m, pid, page, offset) + size <= |m.main| && !OwnsStretch(m, pid, BaseOf(m, pid, page, offset), size)
    ensures |data| == size && !LeavesOthers(m, Write(m, pid, page, offset, size, data).0, pid)
  {
    var base := BaseOf(m, pid, page, offset);
    var f :| 0 <= f < |m.rows| && base < f * m.frameSize + m.frameSize && f * m.frameSize < base + size
        && m.rows[f].pid != pid;
    var i := if base < f * m.frameSize then f * m.frameSize else base;
    BaseIsNat(m, pid, page, offset);
    DivModUnique(i, m.frameSize, f, i - f * m.frameSize);
    var d: byte := if m.main[i] == 0 then 1 else 0;
    data := seq(size, _ => d);
    WrittenByte(m, pid, page, offset, size, data, i);
  }

  /** An access inside one page touches the frame the page resolves to, frame 0 if it is
      not mapped: it stays with the process if and only if the page is mapped or the
      process happens to own frame 0. */
  lemma InPageStaysInsideIff(m: Memory, pid: int, page: int, offset: int, size: int)
    requires MemoryOk(m) && |m.rows| > 0 && pid > 0 && 0 <= offset && 0 < size && offset + size <= m.frameSize
    ensures OwnsStretch(m, pid, BaseOf(m, pid, page, offset), size)
            <==> Mapped(m.rows, pid, page) || m.rows[0].pid == pid
  {
    var f := FrameOf(m.rows, pid, page);
    if Mapped(m.rows, pid, page) {
      FrameIsOwned(m.rows, pid, page);
    } else {
      assert m.rows[0..] == m.rows;
    }
    forall g | 0 <= g < |m.rows| && g != f
      ensures !(BaseOf(m, pid, page, offset) < g * m.frameSize + m.frameSize
                && g * m.frameSize < BaseOf(m, pid, page, offset) + size)
    {
      if g < f { FramesApart(g, f, m.frameSize); } else { FramesApart(f, g, m.frameSize); }
    }
  }

  /** A write that crosses the end of a mapped page lands in the next frame, whose page
      may be somebody else's. */
  lemma CrossingWriteHitsNeighbour()
    ensures var m := Memory([Row(7, 0), Row(9, 0)], [1, 2, 3, 4, 5, 6, 7, 8], 4);
            && MemoryOk(m) && Mapped(m.rows, 7, 0)
            && Write(m, 7, 0, 2, 4, [0, 0, 0, 0]) == (m.(main := [1, 2, 0, 0, 0, 0, 7, 8]), Data([]))
  {
    var m := Memory([Row(7, 0), Row(9, 0)], [1, 2, 3, 4, 5, 6, 7, 8], 4);
    assert m.rows[0] == Row(7, 0) && FrameOf(m.rows, 7, 0) == 0;
    assert m.main[..2] + [0, 0, 0, 0][..4] + m.main[6..] == [1, 2, 0, 0, 0, 0, 7, 8];
  }

  lemma UnmappedWriteHitsFrameZero()
    ensures var m := Memory([Row(7, 0), FREE], [1, 2, 3, 4, 0, 0, 0, 0], 4);
            MemoryOk(m) && Write(m, 9, 0, 0, 4, [5, 5, 5, 5]) == (m.(main := [5, 5, 5, 5, 0, 0, 0, 0]), Data([]))
  {
    var m := Memory([Row(7, 0), FREE], [1, 2, 3, 4, 0, 0, 0, 0], 4);
    assert m.rows[0..] == m.rows;
    assert FrameOf(m.rows, 9, 0) == 0;
    assert m.main[..0] + [5, 5, 5, 5][..4] + m.main[4..] == [5, 5, 5, 5, 0, 0, 0, 0];
  }

  // ----- What the server answers

  lemma {:induction false} FreeIsNobodys(rows: seq<Row>, i: nat)
    requires i <= |rows|
    ensures FreeBefore(rows, i) == Owned(rows[..i], 0)
  {
    if i > 0 {
      FreeIsNobodys(rows, i - 1);
      assert rows[..i][..i - 1] == rows[..i - 1];
    }
  }

  /** A request for pages is granted if and only if it asks for some, for a proper pid, and
      as many frames belong to nobody; then they go from nobody to the pid. Otherwise
      nothing changes. */
  lemma InitIff(m: Memory, pid: int, pages: int)
    ensures Init(m, pid, pages).1 == 1 <==> 0 < pid && 0 < Short(pages) <= Owned(m.rows, 0)
    ensures Init(m, pid, pages).1 != 1 ==> Init(m, pid, pages) == (m, 0)
    ensures Init(m, pid, pages).1 == 1 ==>
              var rows' := Init(m, pid, pages).0.rows;
              && Owned(rows', 0) == Owned(m.rows, 0) - Short(pages)
              && Owned(rows', pid) == Owned(m.rows, pid) + Short(pages)
  {
    assert m.rows[..|m.rows|] == m.rows;
    FreeIsNobodys(m.rows, |m.rows|);
    if Grantable(m.rows, pid, Short(pages)) {
      FramesConserved(m.rows, pid, Short(pages), 0);
      FramesConserved(m.rows, pid, Short(pages), pid);
    }
  }

  /** An end leaves the pid without a frame. */
  lemma ReleaseIsAnswered(m: Memory, pid: int)
    ensures Release(m, pid).1 == (if pid > 0 then 1 else 0)
    ensures if pid > 0 then Owned(Release(m, pid).0.rows, pid) == 0 else Release(m, pid).0 == m
  {
    if pid > 0 { NoneOwned(Cleared(m.rows, pid), pid); }
  }

  /** Reading and writing are refused, and nothing changes, if and only if the offset is
      negative or no byte is asked for, as the 16-bit fields say. */
  lemma RefusedIff(m: Memory, pid: int, page: int, offset: int, size: int, data: seq<byte>)
    requires Short(size) <= |data|
    ensures Read(m, pid, page, offset, size) == Refused <==> Short(offset) < 0 || Short(size) <= 0
    ensures Write(m, pid, page, offset, size, data).1 == Refused <==> Short(offset) < 0 || Short(size) <= 0
    ensures !Write(m, pid, page, offset, size, data).1.Data? ==> Write(m, pid, page, offset, size, data).0 == m
  {
  }

  // ----- The byte loops

  method CopyOut(main: array<byte>, frameSize: int, frame: int, offset: int, size: int, data: array<byte>)
    returns (res: int)
    requires main != data && size <= data.Length
    requires !GetBytes(main[..], frameSize, frame, offset, size).OutOfRange?
    modifies data
    ensures res == 0 || res == 1
    ensures var r := GetBytes(main[..], frameSize, frame, offset, size);
            if res == 1 then size > 0 && r == Data(data[..size]) && data[size..] == old(data[size..])
            else r == Refused && data[..] == old(data[..])
  {
    if offset < 0 || size <= 0 { return 0; }
    var j := 0;
    var base := frame * frameSize + offset;
    for i := base to base + size
      invariant j == i - base && data[..j] == main[base..i] && data[j..] == old(data[j..])
    {
      data[j] := main[i];
      j := j + 1;
    }
    return 1;
  }

  method CopyIn(main: array<byte>, frameSize: int, frame: int, offset: int, size: int, data: array<byte>)
    returns (res: int)
    requires main != data && size <= data.Length
    requires !SetBytes(main[..], frameSize, frame, offset, size, data[..]).1.OutOfRange?
    modifies main
    ensures res == 0 || res == 1
    ensures (main[..], if res == 1 then Data([]) else Refused)
            == SetBytes(old(main[..]), frameSize, frame, offset, size, data[..])
  {
    if offset < 0 || size <= 0 { return 0; }
    var j := 0;
    var base := frame * frameSize + offset;
    for i := base to base + size
      invariant j == i - base && main[base..i] == data[..j]
      invariant main[..base] == old(main[..base]) && main[i..] == old(main[i..])
    {
      main[i] := data[j];
      j := j + 1;
    }
    assert main[..] == main[..base] + main[base..base + size] + main[base + size..];
    return 1;
  }

  // ----- The server's state and its request cases

  class Server {
    const table: array<int>
    const main: array<byte>
    const frameSize: int

    ghost predicate Valid() { table.Length % COLS == 0 }

    ghost function View(): Memory
      requires Valid()
      reads table, main
    {
      Memory(RowsOf(table[..]), main[..], frameSize)
    }

    constructor (frames: nat, frameSize: int)
      requires frames * frameSize >= 0
      ensures Valid() && fresh(table) && fresh(main) && this.frameSize == frameSize
      ensures View().rows == seq(frames, i => FREE) && |View().main| == frames * frameSize
    {
      table := new int[frames * COLS](i => 0);
      main := new byte[frames * frameSize](i => 0);
      this.frameSize := frameSize;
    }

    method InitProgram(pid: int, pages: int) returns (res: int)
      requires Valid()
      modifies table
      ensures (View(), res) == Init(old(View()), pid, pages)
    {
      res := SetPages(table, pid, Short(pages));
    }

    method FinishProgram(pid: int) returns (res: int)
      requires Valid()
      modifies table
      ensures (View(), res) == Release(old(View()), pid)
    {
      res := ClearPages(table, pid);
    }

    method ReadBytes(pid: int, page: int, offset: int, size: int) returns (reply: Reply)
      requires Valid() && !Read(View(), pid, page, offset, size).OutOfRange?
      ensures reply == Read(View(), pid, page, offset, size)
    {
      var n := Short(size);
      var frame := GetFrame(table, pid, Short(page));
      var data := new byte[if n > 0 then n else 0](i => 0);
      var res := CopyOut(main, frameSize, frame, Short(offset), n, data);
      reply := if res == 1 then Data(data[..n]) else Refused;
    }

    method WriteBytes(pid: int, page: int, offset: int, size: int, payload: array<byte>) returns (res: int)
      requires Valid() && payload != main && Short(size) <= payload.Length
      requires !Write(View(), pid, page, offset, size, payload[..]).1.OutOfRange?
      modifies main
      ensures View() == Write(old(View()), pid, page, offset, size, payload[..]).0
      ensures res == if Write(old(View()), pid, page, offset, size, payload[..]).1.Data? then 1 else 0
    {
      var frame := GetFrame(table, pid, Short(page));
      res := CopyIn(main, frameSize, frame, Short(offset), Short(size), payload);
    }
  }

  /** A write request as a client makes it: the data goes out in a buffer. */
  method RequestWrite(server: Server, pid: int, page: int, offset: int, size: int, data: seq<byte>)
    requires server.Valid() && Short(size) <= |data|
    requires !Write(server.View(), pid, page, offset, size, data).1.OutOfRange?
    modifies server.main
    ensures server.View() == Write(old(server.View()), pid, page, offset, size, data).0
  {
    var buffer := new byte[|data|](i requires 0 <= i < |data| => data[i]);
    ghost var m := server.View();
    assert buffer[..] == data;
    var _ := server.WriteBytes(pid, page, offset, size, buffer);
  }
}
