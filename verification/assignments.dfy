// CPU/src/CPU.c:235-276,314-343,395-405: assignments through addresses that are not
// those of live variables. The parser passes on whatever a look-up returned, also the
// 1 that reports a missing name, and a return from a procedure has an address too.
module Assignments {
  import opened Bytes
  import opened Structures
  import opened StackMachine
  import opened Memories
  import opened PagedSystems
  import PT = PageTables

  /** The four bytes at an address lie in one stack page. */
  ghost predicate Within(cfg: Config, a: int)
    requires cfg.pageSize > 0
  {
    0 <= a < cfg.Limit() && a % cfg.pageSize + VAR_SIZE <= cfg.pageSize
  }

  lemma WithinIsInPage(cfg: Config, m: Memory, pid: int, q: Process, a: int)
    requires Placed(cfg, m, pid, q) && Within(cfg, a)
    ensures InPage(m, pid, PageOfSlot(cfg, q, a), a % cfg.pageSize, VAR_SIZE)
    ensures UserPid(pid) == pid && 0 <= a / cfg.pageSize < cfg.stackSize
  {
    StackPage(a, cfg.pageSize, cfg.stackSize);
  }

  /** Whether four bytes stored at a fall on one of the two bytes read at b. */
  predicate Hits(a: int, b: int) { a <= b + 1 && b < a + VAR_SIZE }

  lemma TwoBytesTell(x: byte, y: byte, x': byte, y': byte)
    ensures UnpackSigned([x, y]) == UnpackSigned([x', y']) <==> x == x' && y == y'
  {
    PackUnpack([x, y]);
    PackUnpack([x', y']);
    assert [x, y] == [x', y'] <==> [x, y][0] == [x', y'][0] && [x, y][1] == [x', y'][1];
  }

  /** A value whose two bytes are the same. */
  lemma Repeats(d: byte)
    ensures PackBytes(2, 257 * d) + [d, d] == [d, d, d, d]
  {
    assert (257 * d) / 256 == d && (257 * d) % 256 == d;
    assert PackBytes(1, d) == PackBytes(0, d / 256) + [d % 256] == [d];
    assert PackBytes(2, 257 * d) == PackBytes(1, d) + [d];
  }

  function Unlike(x: byte): (d: byte)
    ensures d != x
  {
    if x == 0 then 1 else 0
  }

  ghost predicate MissesLive(core: Core, a: int) { forall b :: Live(core, b) && b != a ==> !Hits(a, b) }

  /** What program r reads at b, before and after q assigns through a. */
  ghost predicate KeepsRead(cfg: Config, m: Memory, q: Pcb, a: int, value: int, behind: Behind, r: Pcb, b: int)
    requires cfg.pageSize > 0
  {
    Dereferenced(cfg, Assigned(cfg, m, q, a, value, behind), r, b) == Dereferenced(cfg, m, r, b)
  }

  /** An assignment through an address by one process of a system keeps what every other
      live variable, of any process, reads as, whatever the value. */
  ghost predicate HarmlessToAll(cfg: Config, sys: System, pid: int, a: int)
    requires cfg.pageSize > 0 && pid in sys.procs
  {
    forall p, b, value, behind: Behind :: p in sys.procs && Live(sys.procs[p].core, b) && (p, b) != (pid, a) ==>
      KeepsRead(cfg, sys.mem, sys.procs[pid].core.pcb, a, value, behind, sys.procs[p].core.pcb, b)
  }

  lemma StackPage(a: int, ps: int, pages: int)
    requires ps > 0 && 0 <= a < pages * ps
    ensures 0 <= a / ps < pages
  {
    var g := a / ps;
    assert a == g * ps + a % ps;
    if g < 0 { FramesApart(g, 0, ps); }
    if g > pages { FramesApart(pages, g, ps); }
  }

  // ----- Spots in main memory

  /** What a request names. */
  datatype Spot = Spot(pid: int, page: int, offset: int)

  function SpotOf(cfg: Config, q: Pcb, a: int): Spot
    requires cfg.pageSize > 0
  {
    Spot(UserPid(q.idProcess), a / cfg.pageSize + q.pagesCode, a % cfg.pageSize)
  }

  /** Where it is. */
  function Base(m: Memory, s: Spot): int { BaseOf(m, s.pid, s.page, s.offset) }

  /** The four bytes from a base on. */
  predicate Covers(base: int, i: int) { base <= i < base + VAR_SIZE }

  /** Four bytes written there stay in main memory. */
  ghost predicate Reaches(m: Memory, s: Spot) {
    && MemoryOk(m) && 0 <= s.page < 0x8000 && 0 <= s.offset < m.frameSize && Base(m, s) + VAR_SIZE <= |m.main|
  }

  /** A variable can be read there. */
  ghost predicate Readable(m: Memory, t: Spot) { InPage(m, t.pid, t.page, t.offset, VAR_SIZE) }

  function ValueAt(m: Memory, t: Spot): int
    requires Readable(m, t)
  {
    SlotValue(m, t.pid, t.page, t.offset)
  }

  function WriteAt(m: Memory, s: Spot, value: int, behind: Behind): Memory {
    Write(m, s.pid, s.page, s.offset, VAR_SIZE, PackBytes(2, value) + behind).0
  }

  lemma ValueInMain(m: Memory, t: Spot)
    requires Readable(m, t)
    ensures 0 <= Base(m, t) && Base(m, t) + 1 < |m.main|
    ensures ValueAt(m, t) == UnpackSigned([m.main[Base(m, t)], m.main[Base(m, t) + 1]])
  {
    FrameInMain(m, t.pid, t.page);
  }

  /** The bytes of main memory after a write of four. */
  lemma FourWritten(m: Memory, s: Spot, data: seq<byte>, i: int)
    requires Reaches(m, s) && |data| == VAR_SIZE && 0 <= i < |m.main|
    ensures var m' := Write(m, s.pid, s.page, s.offset, VAR_SIZE, data).0;
            MemoryOk(m') && m'.main[i] == if Covers(Base(m, s), i) then data[i - Base(m, s)] else m.main[i]
  {
    WrittenByte(m, s.pid, s.page, s.offset, VAR_SIZE, data, i);
  }

  lemma StillReadable(m: Memory, s: Spot, t: Spot, value: int, behind: Behind)
    requires Reaches(m, s) && Readable(m, t)
    ensures var m' := WriteAt(m, s, value, behind);
            Readable(m', t) && Base(m', t) == Base(m, t) && |m'.main| == |m.main|
  {
  }

  /** A write at s falls on a byte that t is read from. */
  predicate FallsOn(m: Memory, s: Spot, t: Spot) {
    Covers(Base(m, s), Base(m, t)) || Covers(Base(m, s), Base(m, t) + 1)
  }

  lemma KeptUnlessItFalls(m: Memory, s: Spot, t: Spot, value: int, behind: Behind)
    requires Reaches(m, s) && Readable(m, t) && !FallsOn(m, s, t)
    ensures var m' := WriteAt(m, s, value, behind); Readable(m', t) && ValueAt(m', t) == ValueAt(m, t)
  {
    StillReadable(m, s, t, value, behind);
    ValueInMain(m, t);
    ValueInMain(WriteAt(m, s, value, behind), t);
    FourWritten(m, s, PackBytes(2, value) + behind, Base(m, t));
    FourWritten(m, s, PackBytes(2, value) + behind, Base(m, t) + 1);
  }

  lemma FallChanges(m: Memory, s: Spot, t: Spot) returns (value: int, behind: Behind)
    requires Reaches(m, s) && Readable(m, t) && FallsOn(m, s, t)
    ensures var m' := WriteAt(m, s, value, behind); Readable(m', t) && ValueAt(m', t) != ValueAt(m, t)
  {
    ValueInMain(m, t);
    var i := if Covers(Base(m, s), Base(m, t)) then Base(m, t) else Base(m, t) + 1;
    var d := Unlike(m.main[i]);
    value, behind := 257 * (d as int), [d, d];
    ChangedAt(m, s, t, i, d);
  }

  lemma ChangedAt(m: Memory, s: Spot, t: Spot, i: int, d: byte)
    requires Reaches(m, s) && Readable(m, t) && Covers(Base(m, s), i) && (i == Base(m, t) || i == Base(m, t) + 1)
    requires 0 <= i < |m.main| && d != m.main[i]
    ensures var m' := WriteAt(m, s, 257 * (d as int), [d, d]); Readable(m', t) && ValueAt(m', t) != ValueAt(m, t)
  {
    ValueInMain(m, t);
    RepeatedByte(m, s, d, i);
    StillReadable(m, s, t, 257 * (d as int), [d, d]);
    ValuesDiffer(m, WriteAt(m, s, 257 * (d as int), [d, d]), t);
  }

  /** Four times the same byte. */
  lemma RepeatedByte(m: Memory, s: Spot, d: byte, i: int)
    requires Reaches(m, s) && 0 <= i < |m.main| && Covers(Base(m, s), i)
    ensures WriteAt(m, s, 257 * (d as int), [d, d]).main[i] == d
  {
    Repeats(d);
    FourWritten(m, s, [d, d, d, d], i);
  }

  lemma ValuesDiffer(m: Memory, m': Memory, t: Spot)
    requires Readable(m, t) && Readable(m', t) && Base(m', t) == Base(m, t)
    requires 0 <= Base(m, t) && Base(m, t) + 1 < |m.main| == |m'.main|
    requires m'.main[Base(m, t)] != m.main[Base(m, t)] || m'.main[Base(m, t) + 1] != m.main[Base(m, t) + 1]
    ensures ValueAt(m', t) != ValueAt(m, t)
  {
    var base := Base(m, t);
    ValueInMain(m, t);
    ValueInMain(m', t);
    TwoBytesTell(m.main[base], m.main[base + 1], m'.main[base], m'.main[base + 1]);
  }

  lemma KeepsReadIff(cfg: Config, m: Memory, q: Pcb, a: int, value: int, behind: Behind, r: Pcb, b: int)
    requires cfg.pageSize > 0 && Reaches(m, SpotOf(cfg, q, a)) && Readable(m, SpotOf(cfg, r, b))
    ensures var m', t := WriteAt(m, SpotOf(cfg, q, a), value, behind), SpotOf(cfg, r, b);
            Readable(m', t) && (KeepsRead(cfg, m, q, a, value, behind, r, b) <==> ValueAt(m', t) == ValueAt(m, t))
  {
    var m', t := WriteAt(m, SpotOf(cfg, q, a), value, behind), SpotOf(cfg, r, b);
    StillReadable(m, SpotOf(cfg, q, a), t, value, behind);
    SlotValueRead(cfg, m, r, t.pid, b, t.page, t.offset);
    SlotValueRead(cfg, m', r, t.pid, b, t.page, t.offset);
  }

  /** Four bytes in one page fall on bytes of the same page only. */
  lemma InPageFallsIff(m: Memory, s: Spot, t: Spot)
    requires Readable(m, s) && Readable(m, t)
    ensures FallsOn(m, s, t) <==> s.pid == t.pid && s.page == t.page && Hits(s.offset, t.offset)
  {
    PT.FrameIsOwned(m.rows, s.pid, s.page);
    PT.FrameIsOwned(m.rows, t.pid, t.page);
    var f, k := PT.FrameOf(m.rows, s.pid, s.page), PT.FrameOf(m.rows, t.pid, t.page);
    if f != k { OtherFrame(m.frameSize, f, s.offset, k, t.offset); }
  }

  /** Stretches in different frames do not meet. */
  lemma OtherFrame(ps: int, f: int, o: int, k: int, o': int)
    requires ps > 0 && 0 <= o && o + VAR_SIZE <= ps && 0 <= o' && o' + VAR_SIZE <= ps && f != k
    ensures !Hits(f * ps + o, k * ps + o')
  {
    if f < k { FramesApart(f, k, ps); } else { FramesApart(k, f, ps); }
  }

  /** Addresses compared by page and offset. */
  lemma HitsByPage(ps: int, a: int, b: int)
    requires ps > 0 && a % ps + VAR_SIZE <= ps && b % ps + VAR_SIZE <= ps
    ensures Hits(a, b) <==> a / ps == b / ps && Hits(a % ps, b % ps)
  {
    assert a == (a / ps) * ps + a % ps && b == (b / ps) * ps + b % ps;
    if a / ps != b / ps { OtherFrame(ps, a / ps, a % ps, b / ps, b % ps); }
  }

  // ----- Assignments in a system

  function At(cfg: Config, sys: System, p: int, b: int): Spot
    requires cfg.pageSize > 0 && p in sys.procs
  {
    SpotOf(cfg, sys.procs[p].core.pcb, b)
  }

  lemma LiveIsReadable(cfg: Config, sys: System, p: int, b: int)
    requires Inv(cfg, sys) && p in sys.procs && Live(sys.procs[p].core, b)
    ensures Readable(sys.mem, At(cfg, sys, p, b)) && At(cfg, sys, p, b).pid == p
    ensures b % cfg.pageSize + VAR_SIZE <= cfg.pageSize
  {
    LiveIsSlot(cfg, sys.procs[p].core, b);
    SlotIsInPage(cfg, sys.mem, p, sys.procs[p], b);
  }

  lemma StackReaches(cfg: Config, sys: System, pid: int, a: int)
    requires Inv(cfg, sys) && pid in sys.procs && 0 <= a < cfg.Limit()
    requires Base(sys.mem, At(cfg, sys, pid, a)) + VAR_SIZE <= |sys.mem.main|
    ensures Reaches(sys.mem, At(cfg, sys, pid, a))
  {
    StackPage(a, cfg.pageSize, cfg.stackSize);
  }

  /** The assignment falls on no other live variable of any process. */
  ghost predicate FallsOnNone(cfg: Config, sys: System, pid: int, a: int)
    requires cfg.pageSize > 0 && pid in sys.procs
  {
    forall p, b :: p in sys.procs && Live(sys.procs[p].core, b) && (p, b) != (pid, a) ==>
      !FallsOn(sys.mem, At(cfg, sys, pid, a), At(cfg, sys, p, b))
  }

  /** An assignment through any address of the stack pages is harmless to all if and only
      if its four bytes, which may reach into the frame behind, fall on none of the two
      bytes that each other live variable of any process is read from. */
  lemma AssignKeepsOthersIff(cfg: Config, sys: System, pid: int, a: int)
    requires Inv(cfg, sys) && pid in sys.procs && 0 <= a < cfg.Limit()
    requires Base(sys.mem, At(cfg, sys, pid, a)) + VAR_SIZE <= |sys.mem.main|
    ensures HarmlessToAll(cfg, sys, pid, a) <==> FallsOnNone(cfg, sys, pid, a)
  {
    var m, q, s := sys.mem, sys.procs[pid].core.pcb, At(cfg, sys, pid, a);
    StackReaches(cfg, sys, pid, a);
    if FallsOnNone(cfg, sys, pid, a) {
      forall p, b, value, behind: Behind | p in sys.procs && Live(sys.procs[p].core, b) && (p, b) != (pid, a)
        ensures KeepsRead(cfg, m, q, a, value, behind, sys.procs[p].core.pcb, b)
      {
        LiveIsReadable(cfg, sys, p, b);
        KeptUnlessItFalls(m, s, At(cfg, sys, p, b), value, behind);
        KeepsReadIff(cfg, m, q, a, value, behind, sys.procs[p].core.pcb, b);
      }
    } else {
      var p, b :| p in sys.procs && Live(sys.procs[p].core, b) && (p, b) != (pid, a)
                  && FallsOn(m, s, At(cfg, sys, p, b));
      LiveIsReadable(cfg, sys, p, b);
      var value, behind := FallChanges(m, s, At(cfg, sys, p, b));
      KeepsReadIff(cfg, m, q, a, value, behind, sys.procs[p].core.pcb, b);
    }
  }

  lemma WithinIsReadable(cfg: Config, sys: System, pid: int, a: int)
    requires Inv(cfg, sys) && pid in sys.procs && Within(cfg, a)
    ensures Readable(sys.mem, At(cfg, sys, pid, a)) && At(cfg, sys, pid, a).pid == pid
    ensures Base(sys.mem, At(cfg, sys, pid, a)) + VAR_SIZE <= |sys.mem.main|
  {
    WithinIsInPage(cfg, sys.mem, pid, sys.procs[pid], a);
    FrameInMain(sys.mem, pid, At(cfg, sys, pid, a).page);
  }

  lemma LiveFallsIff(cfg: Config, sys: System, pid: int, a: int, p: int, b: int)
    requires Inv(cfg, sys) && pid in sys.procs && Within(cfg, a) && p in sys.procs && Live(sys.procs[p].core, b)
    ensures FallsOn(sys.mem, At(cfg, sys, pid, a), At(cfg, sys, p, b)) <==> p == pid && Hits(a, b)
  {
    WithinIsReadable(cfg, sys, pid, a);
    LiveIsReadable(cfg, sys, p, b);
    InPageFallsIff(sys.mem, At(cfg, sys, pid, a), At(cfg, sys, p, b));
    if p == pid { SpotsMeetIff(cfg, sys.procs[p].core.pcb, a, b); }
  }

  lemma SpotsMeetIff(cfg: Config, q: Pcb, a: int, b: int)
    requires cfg.pageSize > 0
    requires a % cfg.pageSize + VAR_SIZE <= cfg.pageSize && b % cfg.pageSize + VAR_SIZE <= cfg.pageSize
    ensures var s, t := SpotOf(cfg, q, a), SpotOf(cfg, q, b);
            Hits(a, b) <==> s.page == t.page && Hits(s.offset, t.offset)
  {
    HitsByPage(cfg.pageSize, a, b);
  }

  /** Inside one page that is so if and only if the address itself keeps away from the
      process's other variables. */
  lemma WithinKeepsOthersIff(cfg: Config, sys: System, pid: int, a: int)
    requires Inv(cfg, sys) && pid in sys.procs && Within(cfg, a)
    ensures HarmlessToAll(cfg, sys, pid, a) <==> MissesLive(sys.procs[pid].core, a)
  {
    WithinIsReadable(cfg, sys, pid, a);
    AssignKeepsOthersIff(cfg, sys, pid, a);
    if FallsOnNone(cfg, sys, pid, a) {
      forall b | Live(sys.procs[pid].core, b) && b != a ensures !Hits(a, b) { LiveFallsIff(cfg, sys, pid, a, pid, b); }
    }
    if MissesLive(sys.procs[pid].core, a) {
      forall p, b | p in sys.procs && Live(sys.procs[p].core, b) && (p, b) != (pid, a)
        ensures !FallsOn(sys.mem, At(cfg, sys, pid, a), At(cfg, sys, p, b))
      {
        LiveFallsIff(cfg, sys, pid, a, p, b);
      }
    }
  }

  lemma FirstSlotIsHit(cfg: Config, core: Core)
    requires cfg.pageSize > 0 && Disciplined(cfg, core)
    ensures MissesLive(core, EXIT_FAILURE) <==> core.pcb.stackPointer == 0
  {
    StackPointerCounts(cfg, core.pcb.stack, core.pcb.stackPointer);
    if core.pcb.stackPointer > 0 {
      assert Live(core, 0) && Hits(EXIT_FAILURE, 0);
    }
  }

  /** With pages of four bytes the write to address 1 reaches the first byte of the frame
      behind: that of some live variable. */
  ghost predicate VariableBehind(cfg: Config, sys: System, pid: int)
    requires cfg.pageSize > 0 && pid in sys.procs
  {
    exists p, b :: p in sys.procs && Live(sys.procs[p].core, b) && IsBehind(cfg, sys, pid, p, b)
  }

  predicate IsBehind(cfg: Config, sys: System, pid: int, p: int, b: int)
    requires cfg.pageSize > 0 && pid in sys.procs && p in sys.procs
  {
    Base(sys.mem, At(cfg, sys, p, b)) == Base(sys.mem, At(cfg, sys, pid, 0)) + VAR_SIZE
  }

  lemma OneFallsIff(m: Memory, s: Spot, t: Spot)
    requires Readable(m, s) && Readable(m, t) && m.frameSize == VAR_SIZE
    ensures FallsOn(m, s.(offset := EXIT_FAILURE), t) <==> s == t || Base(m, t) == Base(m, s) + VAR_SIZE
  {
    PT.FrameIsOwned(m.rows, s.pid, s.page);
    PT.FrameIsOwned(m.rows, t.pid, t.page);
  }

  /** Assigning to a name that was not found writes to address 1: harmless if and only if
      the program has no variable at all and, with pages of four bytes, no variable of
      anybody is in the frame behind its first stack page. */
  lemma MissingNameHarmlessIff(cfg: Config, sys: System, pid: int, id: int)
    requires Inv(cfg, sys) && pid in sys.procs && LookUp(cfg, sys.procs[pid].core.pcb, id) == Missing
    requires cfg.pageSize == VAR_SIZE ==> Base(sys.mem, At(cfg, sys, pid, EXIT_FAILURE)) + VAR_SIZE <= |sys.mem.main|
    ensures HarmlessToAll(cfg, sys, pid, Returned(LookUp(cfg, sys.procs[pid].core.pcb, id)))
            <==> sys.procs[pid].core.pcb.stackPointer == 0
                 && (cfg.pageSize == VAR_SIZE ==> !VariableBehind(cfg, sys, pid))
  {
    FirstSlotIsHit(cfg, sys.procs[pid].core);
    if cfg.pageSize > VAR_SIZE {
      EarlyIsWithin(cfg, EXIT_FAILURE);
      WithinKeepsOthersIff(cfg, sys, pid, EXIT_FAILURE);
    } else {
      SmallPagesHarmlessIff(cfg, sys, pid);
    }
  }

  lemma SmallPagesHarmlessIff(cfg: Config, sys: System, pid: int)
    requires Inv(cfg, sys) && pid in sys.procs && cfg.pageSize == VAR_SIZE
    requires Base(sys.mem, At(cfg, sys, pid, EXIT_FAILURE)) + VAR_SIZE <= |sys.mem.main|
    ensures HarmlessToAll(cfg, sys, pid, EXIT_FAILURE)
            <==> sys.procs[pid].core.pcb.stackPointer == 0 && !VariableBehind(cfg, sys, pid)
  {
    var q := sys.procs[pid].core;
    AssignKeepsOthersIff(cfg, sys, pid, EXIT_FAILURE);
    forall p, b | p in sys.procs && Live(sys.procs[p].core, b)
      ensures FallsOn(sys.mem, At(cfg, sys, pid, EXIT_FAILURE), At(cfg, sys, p, b))
              <==> (p == pid && b == 0) || IsBehind(cfg, sys, pid, p, b)
    {
      SmallPagesFallIff(cfg, sys, pid, p, b);
    }
    StackPointerCounts(cfg, q.pcb.stack, q.pcb.stackPointer);
    assert q.pcb.stackPointer > 0 <==> Live(q, 0);
  }

  lemma SmallPagesFallIff(cfg: Config, sys: System, pid: int, p: int, b: int)
    requires Inv(cfg, sys) && pid in sys.procs && p in sys.procs && Live(sys.procs[p].core, b)
    requires cfg.pageSize == VAR_SIZE
    ensures FallsOn(sys.mem, At(cfg, sys, pid, EXIT_FAILURE), At(cfg, sys, p, b))
            <==> (p == pid && b == 0) || IsBehind(cfg, sys, pid, p, b)
  {
    LiveIsReadable(cfg, sys, p, b);
    SlotIsInPage(cfg, sys.mem, pid, sys.procs[pid], 0);
    FirstSpot(cfg, sys, pid);
    OneFallsIff(sys.mem, At(cfg, sys, pid, 0), At(cfg, sys, p, b));
    FirstSpotIff(cfg, sys, pid, p, b);
  }

  /** Addresses 0 and 1 are in the same page. */
  lemma FirstSpot(cfg: Config, sys: System, pid: int)
    requires cfg.pageSize == VAR_SIZE && pid in sys.procs
    ensures At(cfg, sys, pid, EXIT_FAILURE) == At(cfg, sys, pid, 0).(offset := EXIT_FAILURE)
  {
  }

  lemma FirstSpotIff(cfg: Config, sys: System, pid: int, p: int, b: int)
    requires Inv(cfg, sys) && pid in sys.procs && p in sys.procs && cfg.pageSize == VAR_SIZE
    ensures At(cfg, sys, pid, 0) == At(cfg, sys, p, b) <==> p == pid && b == 0
  {
    assert UserPid(p) == p && UserPid(pid) == pid;
    assert b == b / VAR_SIZE * VAR_SIZE + b % VAR_SIZE;
  }

  lemma EarlyIsWithin(cfg: Config, a: int)
    requires ConfigOk(cfg) && 0 <= a && a + VAR_SIZE <= cfg.pageSize
    ensures Within(cfg, a)
  {
    MulAtLeast(cfg.stackSize, cfg.pageSize);
    DivModUnique(a, cfg.pageSize, 0, a);
  }

  /** A value returned from a procedure, called without a place for it, overwrites the
      first variable of the program. */
  lemma ProcedureReturnHitsFirst(cfg: Config, m: Memory, pid: int, q: Process, value: int, behind: Behind)
    requires Placed(cfg, m, pid, q) && q.core.pcb.stack != []
    requires q.core.pcb.stack[|q.core.pcb.stack| - 1].retVar == NEW_CONTEXT.retVar
    ensures var m' := Assigned(cfg, m, q.core.pcb, ReturnPlace(cfg, q.core), value, behind);
            Dereferenced(cfg, m', q.core.pcb, 0) == Some(Short(value))
  {
    MulAtLeast(cfg.stackSize, cfg.pageSize);
    AssignThenDereference(cfg, m, pid, q, 0, value, behind);
  }
}
