// Programs running on the CPU over the memory process: where a variable's value
// lives (CPU/src/CPU.c:278-343), what a started program is given
// (Kernel/src/Kernel.c:123-197), and what happens to everybody's variables and
// code over whole runs of any number of programs.
module PagedSystems {
  import opened Bytes
  import opened Structures
  import opened StackMachine
  import opened PageTables
  import opened Memories
  import opened Uploads

  datatype Process = Process(core: Core, code: seq<byte>)

  datatype System = System(mem: Memory, procs: map<int, Process>)

  /** The two heap bytes after a two-byte payload of which four bytes are stored. */
  type Behind = s: seq<byte> | |s| == 2 witness [0, 0]

  datatype Event =
    | Start(pid: int, entry: int, code: seq<byte>)
    | Do(pid: int, op: Primitive)
    | Assign(pid: int, address: int, value: int, behind: Behind)
    | Return(pid: int, value: int, behind: Behind)
    | Stop(pid: int)

  /** The process id of a packet header is one byte. */
  function UserPid(pid: int): int { pid % 256 }

  /** asignar: the value goes out as two bytes, with size four. */
  function Assigned(cfg: Config, m: Memory, p: Pcb, address: int, value: int, behind: Behind): (m': Memory)
    requires cfg.pageSize > 0
    ensures m'.rows == m.rows && m'.frameSize == m.frameSize
  {
    Write(m, UserPid(p.idProcess), address / cfg.pageSize + p.pagesCode, address % cfg.pageSize, VAR_SIZE,
          PackBytes(2, value) + behind).0
  }

  /** dereferenciar: four bytes come back and the first two are unpacked. */
  function Dereferenced(cfg: Config, m: Memory, p: Pcb, address: int): Option<int>
    requires cfg.pageSize > 0
  {
    match Read(m, UserPid(p.idProcess), address / cfg.pageSize + p.pagesCode, address % cfg.pageSize, VAR_SIZE)
    case Data(bytes) => if |bytes| < 2 then None else Some(UnpackSigned(bytes[..2]))
    case _ => None
  }

  function NewPcb(pid: int, entry: int, pagesCode: int): Pcb {
    Pcb(pid, entry, 0, 0, pagesCode, [], [], [], 0, 0)
  }

  /** end_program: the pages go back when a program ends or is killed. */
  function Ended(sys: System, pid: int): System {
    System(Release(sys.mem, UserPid(pid)).0, sys.procs - {pid})
  }

  function Settled(sys: System, pid: int): System {
    if pid in sys.procs && sys.procs[pid].core.finished then Ended(sys, pid) else sys
  }

  /** Admission of a program: pages, code upload, a fresh PCB. */
  function Started(cfg: Config, sys: System, pid: int, entry: int, code: seq<byte>): System
    requires 0 < cfg.pageSize < 0x8000
  {
    var pages := CodePages(|code|, cfg.pageSize) + cfg.stackSize;
    var (m, granted) := Init(sys.mem, UserPid(pid), pages);
    if granted == 0 then sys
    else
      var core := Core(NewPcb(pid, entry, pages - cfg.stackSize), false, false, false);
      System(Uploaded(m, UserPid(pid), code, cfg.pageSize, 0), sys.procs[pid := Process(core, code)])
  }

  function WithCore(sys: System, pid: int, core: Core): System
    requires pid in sys.procs
  {
    sys.(procs := sys.procs[pid := sys.procs[pid].(core := core)])
  }

  /** asignar by the program pid. */
  function Assigning(cfg: Config, sys: System, pid: int, address: int, value: int, behind: Behind): System
    requires cfg.pageSize > 0 && pid in sys.procs
  {
    sys.(mem := Assigned(cfg, sys.mem, sys.procs[pid].core.pcb, address, value, behind))
  }

  function ReturnPlace(cfg: Config, core: Core): int
    requires core.pcb.stack != []
  {
    Address(cfg, core.pcb.stack[|core.pcb.stack| - 1].retVar)
  }

  /** retornar: assign to the place the context names, then finalizar. */
  function Returning(cfg: Config, sys: System, pid: int, value: int, behind: Behind): System
    requires cfg.pageSize > 0 && pid in sys.procs && sys.procs[pid].core.pcb.stack != []
  {
    var core := sys.procs[pid].core;
    Settled(WithCore(Assigning(cfg, sys, pid, ReturnPlace(cfg, core), value, behind), pid, Finished(core)), pid)
  }

  function Next(cfg: Config, sys: System, e: Event): System
    requires 0 < cfg.pageSize < 0x8000
  {
    if e.Start? then Started(cfg, sys, e.pid, e.entry, e.code)
    else if e.pid !in sys.procs then sys
    else
      var core := sys.procs[e.pid].core;
      match e
      case Do(pid, op) => Settled(WithCore(sys, pid, Step(cfg, core, op)), pid)
      case Assign(pid, address, value, behind) =>
        if core.halted then sys else Assigning(cfg, sys, pid, address, value, behind)
      case Return(pid, value, behind) =>
        if core.halted || core.pcb.stack == [] then sys else Returning(cfg, sys, pid, value, behind)
      case Stop(pid) => Ended(sys, pid)
  }

  // ----- Invariant

  ghost predicate ConfigOk(cfg: Config) {
    cfg.stackSize >= 1 && 0 < cfg.pageSize < 0x8000 && cfg.pageSize % VAR_SIZE == 0
  }

  /** Every context returns its value to a slot of an older context, or to slot 0. */
  ghost predicate ReturnsOk(cfg: Config, stack: seq<Context>) {
    forall i :: 0 <= i < |stack| ==> ReturnSlot(Address(cfg, stack[i].retVar), VAR_SIZE * Total(stack[..i]))
  }

  ghost predicate ReturnSlot(a: int, base: int) {
    a == 0 || (0 < a < base && a % VAR_SIZE == 0)
  }

  ghost predicate ProcessOk(cfg: Config, m: Memory, pid: int, q: Process)
    requires cfg.pageSize > 0
  {
    && 1 <= pid <= 255 && q.core.pcb.idProcess == pid
    && Disciplined(cfg, q.core) && ReturnsOk(cfg, q.core.pcb.stack)
    && q.core.pcb.pagesCode == CodePages(|q.code|, cfg.pageSize)
    && q.core.pcb.pagesCode + cfg.stackSize <= 0x7fff
    && (forall g :: 0 <= g < q.core.pcb.pagesCode + cfg.stackSize ==> Mapped(m.rows, pid, g))
    && CodeStored(m, pid, q.code, cfg.pageSize)
  }

  ghost predicate Inv(cfg: Config, sys: System) {
    && ConfigOk(cfg) && MemoryOk(sys.mem) && sys.mem.frameSize == cfg.pageSize
    && (forall pid :: pid in sys.procs ==> ProcessOk(cfg, sys.mem, pid, sys.procs[pid]))
    && (forall pid :: pid > 0 && Owns(sys.mem.rows, pid) ==> pid in sys.procs)
  }

  /** What is asked of the events of a run: pids of one byte, not in use; requests
      that fit their 16-bit fields; code that does not fill its pages exactly;
      addresses of live variables, as looking up a defined name gives. */
  ghost predicate Sane(cfg: Config, sys: System, e: Event)
    requires cfg.pageSize > 0
  {
    match e
    case Start(pid, _, code) =>
      && 1 <= pid <= 255 && pid !in sys.procs && |code| % cfg.pageSize != 0
      && CodePages(|code|, cfg.pageSize) + cfg.stackSize <= 0x7fff
    case Do(pid, op) => pid in sys.procs && op.CallReturning? ==> Live(sys.procs[pid].core, op.place)
    case Assign(pid, address, _, _) => pid in sys.procs ==> Live(sys.procs[pid].core, address)
    case Return(_, _, _) => true
    case Stop(_) => true
  }

  // ----- Slots

  /** A four-byte slot of the stack pages. */
  ghost predicate Slot(cfg: Config, a: int) {
    0 <= a && a % VAR_SIZE == 0 && a + VAR_SIZE <= cfg.Limit()
  }

  lemma MultiplesStayInPages(a: int, ps: int)
    requires ps > 0 && ps % VAR_SIZE == 0 && a % VAR_SIZE == 0
    ensures a % ps % VAR_SIZE == 0 && a % ps + VAR_SIZE <= ps
  {
    var g, o, q := a / ps, a % ps, ps / VAR_SIZE;
    assert a == g * ps + o;
    assert g * ps == VAR_SIZE * (g * q) by { assert g * (VAR_SIZE * q) == VAR_SIZE * (g * q); }
  }

  lemma SlotInPage(cfg: Config, a: int)
    requires ConfigOk(cfg) && Slot(cfg, a)
    ensures 0 <= a / cfg.pageSize < cfg.stackSize
    ensures 0 <= a % cfg.pageSize && a % cfg.pageSize + VAR_SIZE <= cfg.pageSize
    ensures a % cfg.pageSize % VAR_SIZE == 0
  {
    var ps, g := cfg.pageSize, a / cfg.pageSize;
    assert a == g * ps + a % ps;
    MultiplesStayInPages(a, ps);
    if g < 0 { FramesApart(g, 0, ps); }
    if g >= cfg.stackSize {
      if g > cfg.stackSize { FramesApart(cfg.stackSize, g, ps); }
    }
  }

  /** Slots never cross a page exactly when the page size is a multiple of four, or
      the whole stack ends before the first slot that would cross. */
  lemma SlotsStayInPagesIff(cfg: Config)
    requires cfg.pageSize > 0 && cfg.stackSize >= 0
    ensures (forall a :: Slot(cfg, a) ==> a % cfg.pageSize + VAR_SIZE <= cfg.pageSize)
            <==> (cfg.pageSize % VAR_SIZE == 0 || VAR_SIZE * (cfg.pageSize / VAR_SIZE) + VAR_SIZE > cfg.Limit())
  {
    var ps := cfg.pageSize;
    var a0 := VAR_SIZE * (ps / VAR_SIZE);
    if ps % VAR_SIZE == 0 {
      forall a | Slot(cfg, a) ensures a % ps + VAR_SIZE <= ps {
        MultiplesStayInPages(a, ps);
      }
    } else if a0 + VAR_SIZE <= cfg.Limit() {
      assert Slot(cfg, a0);
      DivModUnique(a0, ps, 0, a0);
    } else {
      forall a | Slot(cfg, a) ensures a % ps + VAR_SIZE <= ps {
        assert a < a0;
        DivModUnique(a, ps, 0, a);
      }
    }
  }

  // ----- One assignment

  /** A process on a memory, both in order. */
  ghost predicate Placed(cfg: Config, m: Memory, pid: int, q: Process) {
    ConfigOk(cfg) && MemoryOk(m) && m.frameSize == cfg.pageSize && ProcessOk(cfg, m, pid, q)
  }

  function PageOfSlot(cfg: Config, q: Process, a: int): int
    requires cfg.pageSize > 0
  {
    a / cfg.pageSize + q.core.pcb.pagesCode
  }

  lemma SlotIsInPage(cfg: Config, m: Memory, pid: int, q: Process, a: int)
    requires Placed(cfg, m, pid, q) && Slot(cfg, a)
    ensures InPage(m, pid, PageOfSlot(cfg, q, a), a % cfg.pageSize, VAR_SIZE)
    ensures UserPid(pid) == pid && q.core.pcb.pagesCode <= PageOfSlot(cfg, q, a) < 0x8000
    ensures a % cfg.pageSize % VAR_SIZE == 0
  {
    SlotInPage(cfg, a);
  }

  function SlotValue(m: Memory, pid: int, g: int, o: int): int
    requires InPage(m, pid, g, o, VAR_SIZE)
  {
    UnpackSigned([ByteAt(m, pid, g, o), ByteAt(m, pid, g, o + 1)])
  }

  /** Dereferencing a slot reads the first two bytes of its frame. */
  lemma DereferenceRefines(cfg: Config, m: Memory, pid: int, q: Process, a: int)
    requires Placed(cfg, m, pid, q) && Slot(cfg, a)
    ensures InPage(m, pid, PageOfSlot(cfg, q, a), a % cfg.pageSize, VAR_SIZE)
    ensures Dereferenced(cfg, m, q.core.pcb, a) == Some(SlotValue(m, pid, PageOfSlot(cfg, q, a), a % cfg.pageSize))
  {
    SlotIsInPage(cfg, m, pid, q, a);
    SlotValueRead(cfg, m, q.core.pcb, pid, a, PageOfSlot(cfg, q, a), a % cfg.pageSize);
  }

  /** An assignment inside a page stores its four bytes there and nothing elsewhere. */
  lemma StoredAt(cfg: Config, m: Memory, pcb: Pcb, pid: int, a: int, value: int, behind: Behind,
                 data: seq<byte>, page: int, offset: int, p: int, g: int, o: int)
    requires cfg.pageSize > 0 && UserPid(pcb.idProcess) == pid && data == PackBytes(2, value) + behind
    requires page == a / cfg.pageSize + pcb.pagesCode && offset == a % cfg.pageSize
    requires InPage(m, pid, page, offset, VAR_SIZE)
    requires Mapped(m.rows, p, g) && 0 <= o < m.frameSize
    ensures var m' := Assigned(cfg, m, pcb, a, value, behind);
            && MemoryOk(m')
            && ByteAt(m', p, g, o)
                 == if p == pid && g == page && offset <= o < offset + VAR_SIZE
                    then data[o - offset] else ByteAt(m, p, g, o)
  {
    WriteRefines(m, pid, page, offset, VAR_SIZE, data, p, g, o);
    assert Assigned(cfg, m, pcb, a, value, behind) == Write(m, pid, page, offset, VAR_SIZE, data).0;
  }

  lemma AssignBytes(cfg: Config, m: Memory, pid: int, q: Process, a: int, value: int, behind: Behind, p: int, g: int,
                    o: int)
    requires Placed(cfg, m, pid, q) && Slot(cfg, a) && Mapped(m.rows, p, g) && 0 <= o < cfg.pageSize
    ensures var m' := Assigned(cfg, m, q.core.pcb, a, value, behind);
            && MemoryOk(m')
            && ByteAt(m', p, g, o)
                 == if p == pid && g == PageOfSlot(cfg, q, a) && a % cfg.pageSize <= o < a % cfg.pageSize + VAR_SIZE
                    then (PackBytes(2, value) + behind)[o - a % cfg.pageSize] else ByteAt(m, p, g, o)
  {
    SlotIsInPage(cfg, m, pid, q, a);
    StoredAt(cfg, m, q.core.pcb, pid, a, value, behind, PackBytes(2, value) + behind,
             PageOfSlot(cfg, q, a), a % cfg.pageSize, p, g, o);
  }

  /** Reading back gives the low 16 bits of the value, signed: the value itself
      exactly when it fits. */
  lemma AssignThenDereference(cfg: Config, m: Memory, pid: int, q: Process, a: int, value: int, behind: Behind)
    requires Placed(cfg, m, pid, q) && Slot(cfg, a)
    ensures var m' := Assigned(cfg, m, q.core.pcb, a, value, behind);
            && Dereferenced(cfg, m', q.core.pcb, a) == Some(Short(value))
            && (Dereferenced(cfg, m', q.core.pcb, a) == Some(value) <==> -0x8000 <= value < 0x8000)
  {
    var m' := Assigned(cfg, m, q.core.pcb, a, value, behind);
    var g, o, data := PageOfSlot(cfg, q, a), a % cfg.pageSize, PackBytes(2, value) + behind;
    SlotIsInPage(cfg, m, pid, q, a);
    AssignBytes(cfg, m, pid, q, a, value, behind, pid, g, o);
    AssignBytes(cfg, m, pid, q, a, value, behind, pid, g, o + 1);
    assert [data[0], data[1]] == PackBytes(2, value);
    UnpackPackSigned(2, value);
    SlotValueRead(cfg, m', q.core.pcb, pid, a, g, o);
  }

  /** Dereferencing depends on the memory only through the two bytes. */
  lemma SlotValueRead(cfg: Config, m: Memory, p: Pcb, pid: int, a: int, g: int, o: int)
    requires cfg.pageSize > 0 && g == a / cfg.pageSize + p.pagesCode && o == a % cfg.pageSize
    requires InPage(m, pid, g, o, VAR_SIZE) && UserPid(p.idProcess) == pid
    ensures Dereferenced(cfg, m, p, a) == Some(SlotValue(m, pid, g, o))
  {
    ReadRefines(m, pid, g, o, VAR_SIZE);
    var bytes := Read(m, pid, g, o, VAR_SIZE).bytes;
    assert bytes[..2] == [ByteAt(m, pid, g, o), ByteAt(m, pid, g, o + 1)];
  }

  /** Different slots of one process share no byte. */
  lemma SlotsApart(cfg: Config, a: int, b: int, k: int)
    requires ConfigOk(cfg) && Slot(cfg, a) && Slot(cfg, b) && a != b && 0 <= k < VAR_SIZE
    ensures a / cfg.pageSize != b / cfg.pageSize
            || !(a % cfg.pageSize <= b % cfg.pageSize + k < a % cfg.pageSize + VAR_SIZE)
  {
    SlotInPage(cfg, a);
    SlotInPage(cfg, b);
    assert a == (a / cfg.pageSize) * cfg.pageSize + a % cfg.pageSize;
    assert b == (b / cfg.pageSize) * cfg.pageSize + b % cfg.pageSize;
  }

  /** An assignment changes no other slot of any process. */
  lemma AssignElsewhere(cfg: Config, m: Memory, pid: int, q: Process, a: int, value: int, behind: Behind,
                        p: int, r: Process, b: int)
    requires Placed(cfg, m, pid, q) && Slot(cfg, a) && Placed(cfg, m, p, r) && Slot(cfg, b)
    requires p == pid ==> r == q && b != a
    ensures Dereferenced(cfg, Assigned(cfg, m, q.core.pcb, a, value, behind), r.core.pcb, b)
         == Dereferenced(cfg, m, r.core.pcb, b)
  {
    var m' := Assigned(cfg, m, q.core.pcb, a, value, behind);
    var g, o := PageOfSlot(cfg, r, b), b % cfg.pageSize;
    SlotIsInPage(cfg, m, p, r, b);
    AssignBytes(cfg, m, pid, q, a, value, behind, p, g, o);
    AssignBytes(cfg, m, pid, q, a, value, behind, p, g, o + 1);
    if p == pid {
      SlotsApart(cfg, a, b, 0);
      SlotsApart(cfg, a, b, 1);
    }
    SlotValueRead(cfg, m, r.core.pcb, p, b, g, o);
    SlotValueRead(cfg, m', r.core.pcb, p, b, g, o);
  }

  /** No assignment reaches anybody's code. */
  lemma AssignKeepsProcesses(cfg: Config, m: Memory, pid: int, q: Process, a: int, value: int, behind: Behind,
                             p: int, r: Process)
    requires Placed(cfg, m, pid, q) && Slot(cfg, a) && Placed(cfg, m, p, r) && (p == pid ==> r == q)
    ensures Placed(cfg, Assigned(cfg, m, q.core.pcb, a, value, behind), p, r)
  {
    var m' := Assigned(cfg, m, q.core.pcb, a, value, behind);
    SlotIsInPage(cfg, m, pid, q, a);
    AssignBytes(cfg, m, pid, q, a, value, behind, pid, PageOfSlot(cfg, q, a), 0);
    forall k: nat, g, o | Located(|r.code|, cfg.pageSize, k, g, o)
      ensures ByteAt(m', p, g, o) == r.code[k]
    {
      AssignBytes(cfg, m, pid, q, a, value, behind, p, g, o);
    }
  }

  // ----- Starting and ending programs

  /** Another memory in which a process keeps its pages and their bytes. */
  ghost predicate KeepsPages(cfg: Config, m: Memory, m': Memory, p: int) {
    && MemoryOk(m) && MemoryOk(m') && m.frameSize == m'.frameSize == cfg.pageSize
    && forall g :: Mapped(m.rows, p, g) ==> Mapped(m'.rows, p, g) && SameBytes(m, m', p, g)
  }

  ghost predicate SameBytes(m: Memory, m': Memory, p: int, g: int)
    requires MemoryOk(m) && MemoryOk(m') && m.frameSize == m'.frameSize
    requires Mapped(m.rows, p, g) && Mapped(m'.rows, p, g)
  {
    forall o :: 0 <= o < m.frameSize ==> ByteAt(m', p, g, o) == ByteAt(m, p, g, o)
  }

  /** Such a memory is as good to the process as the old one. */
  lemma KeptIsPlaced(cfg: Config, m: Memory, m': Memory, p: int, r: Process)
    requires Placed(cfg, m, p, r) && KeepsPages(cfg, m, m', p)
    ensures Placed(cfg, m', p, r)
    ensures forall a :: Slot(cfg, a) ==> Dereferenced(cfg, m', r.core.pcb, a) == Dereferenced(cfg, m, r.core.pcb, a)
  {
    forall k: nat, g, o | Located(|r.code|, cfg.pageSize, k, g, o)
      ensures ByteAt(m', p, g, o) == r.code[k]
    {
      assert SameBytes(m, m', p, g);
    }
    forall a | Slot(cfg, a) ensures Dereferenced(cfg, m', r.core.pcb, a) == Dereferenced(cfg, m, r.core.pcb, a) {
      var g, o := PageOfSlot(cfg, r, a), a % cfg.pageSize;
      SlotIsInPage(cfg, m, p, r, a);
      assert SameBytes(m, m', p, g);
      SlotValueRead(cfg, m, r.core.pcb, p, a, g, o);
      SlotValueRead(cfg, m', r.core.pcb, p, a, g, o);
    }
  }

  lemma ReleaseKeepsPages(cfg: Config, m: Memory, pid: int, p: int)
    requires MemoryOk(m) && m.frameSize == cfg.pageSize && 1 <= pid <= 255 && p != pid
    ensures KeepsPages(cfg, m, Release(m, UserPid(pid)).0, p)
  {
    assert UserPid(pid) == pid;
    var m' := Release(m, pid).0;
    ClearKeepsTable(m.rows, pid);
    assert MemoryOk(m');
    forall g | Mapped(m.rows, p, g) ensures Mapped(m'.rows, p, g) && SameBytes(m, m', p, g) {
      forall o | 0 <= o < m.frameSize
        ensures Mapped(m'.rows, p, g) && ByteAt(m', p, g, o) == ByteAt(m, p, g, o)
      {
        ReleaseKeepsOthers(m, pid, p, g, o);
      }
    }
  }

  /** What a started program finds: its pages, with its code in the first ones; and
      nobody else notices. */
  lemma StartGivesPages(cfg: Config, m: Memory, pid: int, code: seq<byte>)
    requires ConfigOk(cfg) && MemoryOk(m) && m.frameSize == cfg.pageSize && |code| % cfg.pageSize != 0
    requires 1 <= pid <= 255 && !Owns(m.rows, pid)
    requires Init(m, pid, CodePages(|code|, cfg.pageSize) + cfg.stackSize).1 == 1
    requires CodePages(|code|, cfg.pageSize) + cfg.stackSize <= 0x7fff
    ensures var pages := CodePages(|code|, cfg.pageSize) + cfg.stackSize;
            var m' := Uploaded(Init(m, pid, pages).0, pid, code, cfg.pageSize, 0);
            && CodeStored(m', pid, code, cfg.pageSize)
            && (forall g :: 0 <= g < pages ==> Mapped(m'.rows, pid, g))
            && (forall p :: p != pid ==> KeepsPages(cfg, m, m', p))
            && (forall p :: p > 0 && Owns(m'.rows, p) ==> p == pid || Owns(m.rows, p))
  {
    var pages := CodePages(|code|, cfg.pageSize) + cfg.stackSize;
    var m1 := Init(m, pid, pages).0;
    var m' := Uploaded(m1, pid, code, cfg.pageSize, 0);
    GrantIsExact(m.rows, pid, pages);
    UploadedIsStored(m1, pid, code, cfg.pageSize);
    UploadKeepsTable(m1, pid, code, cfg.pageSize, 0);
    forall p | p != pid ensures KeepsPages(cfg, m, m', p) {
      StartKeepsPages(cfg, m, pid, code, pages, p);
    }
  }

  lemma StartKeepsPages(cfg: Config, m: Memory, pid: int, code: seq<byte>, pages: int, p: int)
    requires ConfigOk(cfg) && MemoryOk(m) && m.frameSize == cfg.pageSize && p != pid
    requires 1 <= pid <= 255 && !Owns(m.rows, pid) && 0 < pages <= 0x7fff
    requires CodePages(|code|, cfg.pageSize) <= pages && Init(m, pid, pages).1 == 1
    ensures KeepsPages(cfg, m, Uploaded(Init(m, pid, pages).0, pid, code, cfg.pageSize, 0), p)
  {
    var m1 := Init(m, pid, pages).0;
    var m' := Uploaded(m1, pid, code, cfg.pageSize, 0);
    GrantIsExact(m.rows, pid, pages);
    UploadKeepsTable(m1, pid, code, cfg.pageSize, 0);
    forall g | Mapped(m.rows, p, g) ensures Mapped(m'.rows, p, g) && SameBytes(m, m', p, g) {
      forall o | 0 <= o < m.frameSize
        ensures Mapped(m'.rows, p, g) && ByteAt(m', p, g, o) == ByteAt(m, p, g, o)
      {
        InitKeepsOthers(m, pid, pages, p, g, o);
        UploadRefines(m1, pid, code, cfg.pageSize, 0, p, g, o);
      }
      assert 0 <= 0 < m.frameSize;
    }
  }

  // ----- Whole runs

  /** The values last assigned: keyed by process and address. */
  type Store = map<(int, int), int>

  function Stored(cfg: Config, sys: System, store: Store, e: Event): Store {
    if e.pid !in sys.procs || sys.procs[e.pid].core.halted then store
    else
      var core := sys.procs[e.pid].core;
      match e
      case Assign(pid, address, value, _) => store[(pid, address) := Short(value)]
      case Return(pid, value, _) =>
        if core.pcb.stack == [] then store else store[(pid, ReturnPlace(cfg, core)) := Short(value)]
      case _ => store
  }

  /** Variables die with their context, all of them with their process. */
  function Alive(sys: System, store: Store): Store {
    map k | k in store && k.0 in sys.procs && Live(sys.procs[k.0].core, k.1) :: store[k]
  }

  function NextStore(cfg: Config, sys: System, store: Store, e: Event): Store
    requires 0 < cfg.pageSize < 0x8000
  {
    Alive(Next(cfg, sys, e), Stored(cfg, sys, store, e))
  }

  ghost predicate ReadsAs(cfg: Config, sys: System, pid: int, a: int, value: int)
    requires cfg.pageSize > 0
  {
    pid in sys.procs && Dereferenced(cfg, sys.mem, sys.procs[pid].core.pcb, a) == Some(value)
  }

  /** Every live variable that was assigned reads as the value last assigned. */
  ghost predicate Agrees(cfg: Config, sys: System, store: Store)
    requires cfg.pageSize > 0
  {
    forall pid, a | (pid, a) in store && pid in sys.procs && Live(sys.procs[pid].core, a) ::
      ReadsAs(cfg, sys, pid, a, store[(pid, a)])
  }

  lemma LiveIsSlot(cfg: Config, core: Core, a: int)
    requires cfg.pageSize > 0 && Disciplined(cfg, core) && Live(core, a)
    ensures Slot(cfg, a)
  {
    StackPointerCounts(cfg, core.pcb.stack, core.pcb.stackPointer);
  }

  /** The part of a process that memory access depends on. */
  ghost predicate SameAccess(core: Core, core': Core) {
    core'.pcb.idProcess == core.pcb.idProcess && core'.pcb.pagesCode == core.pcb.pagesCode
  }

  /** At most the newest context differs or goes, or one with that return place comes. */
  ghost predicate Reshaped(stack: seq<Context>, stack': seq<Context>, place: MemPos) {
    && |stack'| <= |stack| + 1
    && (forall i :: 0 <= i < |stack| && i < |stack'| ==>
         stack'[..i] == stack[..i] && stack'[i].retVar == stack[i].retVar)
    && (|stack'| == |stack| + 1 ==> stack'[..|stack|] == stack && stack'[|stack|].retVar == place)
  }

  lemma DefinedShape(cfg: Config, core: Core, id: int, junk: int)
    requires cfg.pageSize > 0
    ensures Reshaped(core.pcb.stack, Defined(cfg, core, id, junk).pcb.stack, NEW_CONTEXT.retVar)
  {
    var stack := core.pcb.stack;
    if stack != [] {
      TopReplaced(stack, WithVar(stack[|stack| - 1], cfg, core.pcb.stackPointer, id, junk), NEW_CONTEXT.retVar);
    }
  }

  lemma TopReplaced(stack: seq<Context>, c: Context, place: MemPos)
    requires stack != [] && c.retVar == stack[|stack| - 1].retVar
    ensures Reshaped(stack, stack[..|stack| - 1] + [c], place)
  {
  }

  lemma CalledShape(core: Core, target: int, place: MemPos)
    ensures Reshaped(core.pcb.stack, Called(core, target, place).pcb.stack, place)
  {
  }

  lemma FinishedShape(core: Core, place: MemPos)
    ensures Reshaped(core.pcb.stack, Finished(core).pcb.stack, place)
  {
  }

  /** A step touches at most the newest context, and never its return place. */
  lemma StepShape(cfg: Config, core: Core, op: Primitive)
    requires cfg.pageSize > 0
    ensures Reshaped(core.pcb.stack, Step(cfg, core, op).pcb.stack,
                     if op.CallReturning? then Place(cfg, op.place) else NEW_CONTEXT.retVar)
    ensures SameAccess(core, Step(cfg, core, op))
  {
    match op {
      case Define(id, junk) => DefinedShape(cfg, core, id, junk);
      case Call(target) => CalledShape(core, target, NEW_CONTEXT.retVar);
      case CallReturning(target, place) => CalledShape(core, target, Place(cfg, place));
      case Finish => FinishedShape(core, NEW_CONTEXT.retVar);
      case _ =>
    }
  }

  lemma StepKeepsReturns(cfg: Config, core: Core, op: Primitive)
    requires cfg.Valid() && Disciplined(cfg, core) && ReturnsOk(cfg, core.pcb.stack)
    requires op.CallReturning? ==> Live(core, op.place)
    ensures ReturnsOk(cfg, Step(cfg, core, op).pcb.stack)
  {
    var stack, stack' := core.pcb.stack, Step(cfg, core, op).pcb.stack;
    StackPointerCounts(cfg, stack, core.pcb.stackPointer);
    StepShape(cfg, core, op);
    forall i | 0 <= i < |stack'|
      ensures ReturnSlot(Address(cfg, stack'[i].retVar), VAR_SIZE * Total(stack'[..i]))
    {
      if i < |stack| {
        assert ReturnSlot(Address(cfg, stack[i].retVar), VAR_SIZE * Total(stack[..i]));
      } else if op.CallReturning? {
        AddressOfPlace(cfg, op.place);
      }
    }
  }

  lemma ProcessSteps(cfg: Config, m: Memory, pid: int, q: Process, op: Primitive)
    requires Placed(cfg, m, pid, q) && (op.CallReturning? ==> Live(q.core, op.place))
    ensures Placed(cfg, m, pid, q.(core := Step(cfg, q.core, op))) && SameAccess(q.core, Step(cfg, q.core, op))
  {
    StepKeepsDiscipline(cfg, q.core, op);
    StepKeepsReturns(cfg, q.core, op);
    StepShape(cfg, q.core, op);
  }

  /** The address a function returns its value to is a slot, and live unless nothing
      is live at all. */
  lemma ReturnPlaceIsSlot(cfg: Config, m: Memory, pid: int, q: Process)
    requires Placed(cfg, m, pid, q) && q.core.pcb.stack != []
    ensures var a := Address(cfg, q.core.pcb.stack[|q.core.pcb.stack| - 1].retVar);
            Slot(cfg, a) && (Live(q.core, a) || (a == 0 && q.core.pcb.stackPointer == 0))
  {
    var stack := q.core.pcb.stack;
    var i := |stack| - 1;
    StackPointerCounts(cfg, stack, q.core.pcb.stackPointer);
    assert ReturnSlot(Address(cfg, stack[i].retVar), VAR_SIZE * Total(stack[..i]));
    MulAtLeast(cfg.stackSize, cfg.pageSize);
  }

  lemma CoreChangeKeepsInv(cfg: Config, sys: System, pid: int, core: Core)
    requires Inv(cfg, sys) && pid in sys.procs
    requires ProcessOk(cfg, sys.mem, pid, sys.procs[pid].(core := core))
    ensures Inv(cfg, WithCore(sys, pid, core))
  {
  }

  lemma CoreChangeAgrees(cfg: Config, sys: System, sys': System, store: Store, pid: int)
    requires cfg.pageSize > 0 && Agrees(cfg, sys, store) && sys'.mem == sys.mem && sys'.procs.Keys == sys.procs.Keys
    requires forall p :: p in sys.procs && p != pid ==> sys'.procs[p] == sys.procs[p]
    requires pid in sys.procs && SameAccess(sys.procs[pid].core, sys'.procs[pid].core)
    requires forall a :: Live(sys'.procs[pid].core, a) && (pid, a) in store ==> Live(sys.procs[pid].core, a)
    ensures Agrees(cfg, sys', store)
  {
    forall p, a | (p, a) in store && p in sys'.procs && Live(sys'.procs[p].core, a)
      ensures ReadsAs(cfg, sys', p, a, store[(p, a)])
    {
      assert ReadsAs(cfg, sys, p, a, store[(p, a)]);
      SameDereference(cfg, sys.mem, sys.procs[p].core, sys'.procs[p].core, a);
    }
  }

  lemma SameDereference(cfg: Config, m: Memory, core: Core, core': Core, a: int)
    requires cfg.pageSize > 0 && SameAccess(core, core')
    ensures Dereferenced(cfg, m, core'.pcb, a) == Dereferenced(cfg, m, core.pcb, a)
  {
  }

  /** A function returns its value to the place its call named, a procedure to address 0,
      whatever happened in between; the caller then reads it there, in 16 bits. */
  lemma ReturnReachesCaller(cfg: Config, m: Memory, pid: int, q: Process, core: Core, call: Primitive,
                            body: seq<Primitive>, value: int, behind: Behind)
    requires (call.Call? || call.CallReturning?) && Nested(body, 0) && cfg.Valid() && !core.finished && !core.halted
    requires q.core == Run(cfg, Step(cfg, core, call), body) && !q.core.halted && Placed(cfg, m, pid, q)
    ensures var place := if call.CallReturning? then call.place else 0;
            && q.core.pcb.stack != [] && ReturnPlace(cfg, q.core) == place
            && var m' := Assigned(cfg, m, q.core.pcb, ReturnPlace(cfg, q.core), value, behind);
               Dereferenced(cfg, m', q.core.pcb, place) == Some(Short(value))
  {
    BodyReturnsToPlace(cfg, core, call, body);
    ReturnPlaceIsSlot(cfg, m, pid, q);
    AssignThenDereference(cfg, m, pid, q, ReturnPlace(cfg, q.core), value, behind);
  }

  /** A memory in which every remaining process keeps its pages. */
  lemma KeptAgrees(cfg: Config, sys: System, sys': System, store: Store)
    requires Inv(cfg, sys) && Agrees(cfg, sys, store)
    requires forall p :: p in sys'.procs && (exists a :: (p, a) in store) ==>
               p in sys.procs && sys'.procs[p] == sys.procs[p]
    requires forall p :: p in sys'.procs && p in sys.procs ==> KeepsPages(cfg, sys.mem, sys'.mem, p)
    ensures Agrees(cfg, sys', store)
  {
    forall p, a | (p, a) in store && p in sys'.procs && Live(sys'.procs[p].core, a)
      ensures ReadsAs(cfg, sys', p, a, store[(p, a)])
    {
      assert ReadsAs(cfg, sys, p, a, store[(p, a)]);
      LiveIsSlot(cfg, sys.procs[p].core, a);
      KeptIsPlaced(cfg, sys.mem, sys'.mem, p, sys.procs[p]);
    }
  }

  lemma EndedOwners(rows: seq<Row>, pid: int)
    requires pid > 0
    ensures forall p :: p > 0 && Owns(Cleared(rows, pid), p) ==> p != pid && Owns(rows, p)
  {
  }

  lemma EndedKeepsInv(cfg: Config, sys: System, pid: int)
    requires Inv(cfg, sys) && pid in sys.procs
    ensures Inv(cfg, Ended(sys, pid))
    ensures forall p :: p in Ended(sys, pid).procs ==> KeepsPages(cfg, sys.mem, Ended(sys, pid).mem, p)
  {
    var sys' := Ended(sys, pid);
    ReleaseKeepsPages(cfg, sys.mem, pid, pid + 1);
    forall p | p in sys'.procs
      ensures KeepsPages(cfg, sys.mem, sys'.mem, p) && ProcessOk(cfg, sys'.mem, p, sys'.procs[p])
    {
      ReleaseKeepsPages(cfg, sys.mem, pid, p);
      KeptIsPlaced(cfg, sys.mem, sys'.mem, p, sys.procs[p]);
    }
    EndedOwners(sys.mem.rows, pid);
  }

  lemma AssignedKeepsInv(cfg: Config, sys: System, pid: int, a: int, value: int, behind: Behind)
    requires Inv(cfg, sys) && pid in sys.procs && Slot(cfg, a)
    ensures Inv(cfg, Assigning(cfg, sys, pid, a, value, behind))
  {
    var q := sys.procs[pid];
    AssignKeepsProcesses(cfg, sys.mem, pid, q, a, value, behind, pid, q);
    forall p | p in sys.procs
      ensures ProcessOk(cfg, Assigned(cfg, sys.mem, q.core.pcb, a, value, behind), p, sys.procs[p])
    {
      AssignKeepsProcesses(cfg, sys.mem, pid, q, a, value, behind, p, sys.procs[p]);
    }
  }

  lemma AssignedAgrees(cfg: Config, sys: System, store: Store, pid: int, a: int, value: int, behind: Behind)
    requires Inv(cfg, sys) && Agrees(cfg, sys, store) && pid in sys.procs && Slot(cfg, a)
    ensures Agrees(cfg, Assigning(cfg, sys, pid, a, value, behind),
                   store[(pid, a) := Short(value)])
  {
    var q := sys.procs[pid];
    var sys' := Assigning(cfg, sys, pid, a, value, behind);
    var store' := store[(pid, a) := Short(value)];
    forall p, b | (p, b) in store' && p in sys'.procs && Live(sys'.procs[p].core, b)
      ensures ReadsAs(cfg, sys', p, b, store'[(p, b)])
    {
      if (p, b) == (pid, a) {
        AssignThenDereference(cfg, sys.mem, pid, q, a, value, behind);
      } else {
        assert ReadsAs(cfg, sys, p, b, store[(p, b)]);
        LiveIsSlot(cfg, sys.procs[p].core, b);
        AssignElsewhere(cfg, sys.mem, pid, q, a, value, behind, p, sys.procs[p], b);
      }
    }
  }

  lemma StartedProcessOk(cfg: Config, m: Memory, pid: int, entry: int, code: seq<byte>)
    requires ConfigOk(cfg) && 1 <= pid <= 255 && CodeStored(m, pid, code, cfg.pageSize)
    requires CodePages(|code|, cfg.pageSize) + cfg.stackSize <= 0x7fff
    requires forall g :: 0 <= g < CodePages(|code|, cfg.pageSize) + cfg.stackSize ==> Mapped(m.rows, pid, g)
    ensures ProcessOk(cfg, m, pid,
                      Process(Core(NewPcb(pid, entry, CodePages(|code|, cfg.pageSize)), false, false, false), code))
  {
    StartDisciplined(cfg, Core(NewPcb(pid, entry, CodePages(|code|, cfg.pageSize)), false, false, false));
  }

  lemma StartedKeepsInv(cfg: Config, sys: System, pid: int, entry: int, code: seq<byte>)
    requires Inv(cfg, sys) && Sane(cfg, sys, Start(pid, entry, code))
    ensures var sys' := Started(cfg, sys, pid, entry, code);
            && Inv(cfg, sys')
            && (forall p :: p in sys.procs ==>
                 p in sys'.procs && sys'.procs[p] == sys.procs[p] && KeepsPages(cfg, sys.mem, sys'.mem, p))
            && (forall p :: p in sys'.procs ==> p == pid || p in sys.procs)
  {
    var pages := CodePages(|code|, cfg.pageSize) + cfg.stackSize;
    var (m1, granted) := Init(sys.mem, pid, pages);
    assert UserPid(pid) == pid;
    if granted != 0 {
      var m' := Uploaded(m1, pid, code, cfg.pageSize, 0);
      StartGivesPages(cfg, sys.mem, pid, code);
      StartedProcessOk(cfg, m', pid, entry, code);
      forall p | p in sys.procs ensures KeepsPages(cfg, sys.mem, m', p) && ProcessOk(cfg, m', p, sys.procs[p]) {
        KeptIsPlaced(cfg, sys.mem, m', p, sys.procs[p]);
      }
    }
  }

  // ----- The main results

  /** The invariant, and a store that speaks of live variables only, and rightly. */
  ghost predicate Good(cfg: Config, sys: System, store: Store) {
    && Inv(cfg, sys) && Agrees(cfg, sys, store)
    && forall pid, a :: (pid, a) in store ==> pid in sys.procs && Live(sys.procs[pid].core, a)
  }

  lemma DoIsGood(cfg: Config, sys: System, store: Store, pid: int, core: Core)
    requires Inv(cfg, sys) && Agrees(cfg, sys, store) && pid in sys.procs
    requires ProcessOk(cfg, sys.mem, pid, sys.procs[pid].(core := core)) && SameAccess(sys.procs[pid].core, core)
    requires forall a :: Live(core, a) && (pid, a) in store ==> Live(sys.procs[pid].core, a)
    ensures var sys' := Settled(WithCore(sys, pid, core), pid);
            Inv(cfg, sys') && Agrees(cfg, sys', store)
  {
    var mid := WithCore(sys, pid, core);
    CoreChangeKeepsInv(cfg, sys, pid, core);
    CoreChangeAgrees(cfg, sys, mid, store, pid);
    if core.finished {
      EndedKeepsInv(cfg, mid, pid);
      KeptAgrees(cfg, mid, Ended(mid, pid), store);
    }
  }

  lemma NextIsGood(cfg: Config, sys: System, store: Store, e: Event)
    requires Good(cfg, sys, store) && Sane(cfg, sys, e)
    ensures Inv(cfg, Next(cfg, sys, e)) && Agrees(cfg, Next(cfg, sys, e), Stored(cfg, sys, store, e))
  {
    match e {
      case Start(pid, entry, code) =>
        StartedKeepsInv(cfg, sys, pid, entry, code);
        KeptAgrees(cfg, sys, Next(cfg, sys, e), store);
      case Do(pid, op) =>
        if pid in sys.procs {
          var q := sys.procs[pid];
          ProcessSteps(cfg, sys.mem, pid, q, op);
          DoIsGood(cfg, sys, store, pid, Step(cfg, q.core, op));
        }
      case Assign(pid, address, value, behind) =>
        if pid in sys.procs && !sys.procs[pid].core.halted {
          LiveIsSlot(cfg, sys.procs[pid].core, address);
          AssignedKeepsInv(cfg, sys, pid, address, value, behind);
          AssignedAgrees(cfg, sys, store, pid, address, value, behind);
        }
      case Return(pid, value, behind) =>
        if pid in sys.procs && !sys.procs[pid].core.halted && sys.procs[pid].core.pcb.stack != [] {
          ReturnIsGood(cfg, sys, store, pid, value, behind);
        }
      case Stop(pid) =>
        if pid in sys.procs {
          EndedKeepsInv(cfg, sys, pid);
          KeptAgrees(cfg, sys, Ended(sys, pid), store);
        }
    }
  }

  lemma ReturnIsGood(cfg: Config, sys: System, store: Store, pid: int, value: int, behind: Behind)
    requires Inv(cfg, sys) && Agrees(cfg, sys, store) && pid in sys.procs
    requires !sys.procs[pid].core.halted && sys.procs[pid].core.pcb.stack != []
    ensures Inv(cfg, Returning(cfg, sys, pid, value, behind))
    ensures Agrees(cfg, Returning(cfg, sys, pid, value, behind),
                   store[(pid, ReturnPlace(cfg, sys.procs[pid].core)) := Short(value)])
  {
    var q := sys.procs[pid];
    var a := ReturnPlace(cfg, q.core);
    var mid, store' := Assigning(cfg, sys, pid, a, value, behind), store[(pid, a) := Short(value)];
    ReturnPlaceIsSlot(cfg, sys.mem, pid, q);
    AssignedKeepsInv(cfg, sys, pid, a, value, behind);
    AssignedAgrees(cfg, sys, store, pid, a, value, behind);
    assert Step(cfg, q.core, Finish) == Finished(q.core);
    ProcessSteps(cfg, mid.mem, pid, q, Finish);
    FinishShrinks(cfg, q.core);
    DoIsGood(cfg, mid, store', pid, Finished(q.core));
  }

  lemma FinishShrinks(cfg: Config, core: Core)
    ensures Finished(core).pcb.stackPointer <= core.pcb.stackPointer
  {
  }

  function RunSystem(cfg: Config, sys: System, es: seq<Event>): System
    requires 0 < cfg.pageSize < 0x8000
    decreases |es|
  {
    if es == [] then sys else RunSystem(cfg, Next(cfg, sys, es[0]), es[1..])
  }

  function RunStore(cfg: Config, sys: System, store: Store, es: seq<Event>): Store
    requires 0 < cfg.pageSize < 0x8000
    decreases |es|
  {
    if es == [] then store else RunStore(cfg, Next(cfg, sys, es[0]), NextStore(cfg, sys, store, es[0]), es[1..])
  }

  ghost predicate SaneRun(cfg: Config, sys: System, es: seq<Event>)
    requires 0 < cfg.pageSize < 0x8000
    decreases |es|
  {
    es == [] || (Sane(cfg, sys, es[0]) && SaneRun(cfg, Next(cfg, sys, es[0]), es[1..]))
  }

  /** Over every run, of any number of programs starting, defining, assigning,
      calling, returning and ending in any order: each live variable ever assigned
      since its definition dereferences to the 16 bits last assigned to it. */
  lemma {:induction false} RunsReadBack(cfg: Config, sys: System, store: Store, es: seq<Event>)
    requires Good(cfg, sys, store) && SaneRun(cfg, sys, es)
    ensures Good(cfg, RunSystem(cfg, sys, es), RunStore(cfg, sys, store, es))
    decreases |es|
  {
    if es != [] {
      NextIsGood(cfg, sys, store, es[0]);
      RunsReadBack(cfg, Next(cfg, sys, es[0]), NextStore(cfg, sys, store, es[0]), es[1..]);
    }
  }

  /** A freshly started memory process and no programs. */
  lemma InitialIsGood(cfg: Config, frames: nat)
    requires ConfigOk(cfg) && frames <= 0x8000
    ensures Good(cfg,
                 System(Memory(seq(frames, i => FREE), seq(frames * cfg.pageSize, i => 0), cfg.pageSize), map[]), map[])
  {
    if frames > 0 { MulAtLeast(frames, cfg.pageSize); }
  }

  ghost predicate InOwnFrame(rows: seq<Row>, pid: int, page: int) {
    FrameOf(rows, pid, page) < |rows| && rows[FrameOf(rows, pid, page)] == Row(pid, page)
  }

  /** From the start of the system: every live variable of every process translates
      to a frame its process owns, and every process still fetches its own code. */
  lemma RunsIsolateProcesses(cfg: Config, sys: System, es: seq<Event>, pid: int)
    requires Inv(cfg, sys) && SaneRun(cfg, sys, es) && pid in RunSystem(cfg, sys, es).procs
    ensures var sys' := RunSystem(cfg, sys, es);
            var q := sys'.procs[pid];
            && MemoryOk(sys'.mem)
            && (forall a :: Live(q.core, a) ==> InOwnFrame(sys'.mem.rows, pid, PageOfSlot(cfg, q, a)))
            && (forall start: nat, n: nat
                  | 0 < n && start + n <= |q.code| && start % cfg.pageSize + n <= cfg.pageSize ::
                  Fetch(sys'.mem, pid, cfg.pageSize, start, n) == Data(q.code[start..start + n]))
  {
    RunsReadBack(cfg, sys, map[], es);
    var sys' := RunSystem(cfg, sys, es);
    var q := sys'.procs[pid];
    forall a | Live(q.core, a)
      ensures InOwnFrame(sys'.mem.rows, pid, PageOfSlot(cfg, q, a))
    {
      LiveIsSlot(cfg, q.core, a);
      SlotIsInPage(cfg, sys'.mem, pid, q, a);
      FrameIsOwned(sys'.mem.rows, pid, PageOfSlot(cfg, q, a));
    }
    forall start: nat, n: nat | 0 < n && start + n <= |q.code| && start % cfg.pageSize + n <= cfg.pageSize
      ensures Fetch(sys'.mem, pid, cfg.pageSize, start, n) == Data(q.code[start..start + n])
    {
      FetchReturnsSource(sys'.mem, pid, q.code, cfg.pageSize, start, n);
    }
  }

  // ----- The same without reference to a store

  /** The event stores something at address a of process pid. */
  predicate StoresAt(cfg: Config, sys: System, e: Event, pid: int, a: int) {
    && e.pid == pid && pid in sys.procs && !sys.procs[pid].core.halted
    && ((e.Assign? && e.address == a)
        || (e.Return? && sys.procs[pid].core.pcb.stack != [] && ReturnPlace(cfg, sys.procs[pid].core) == a))
  }

  /** Over the run the address stays live, and nothing is stored there. */
  predicate Spares(cfg: Config, sys: System, es: seq<Event>, pid: int, a: int)
    requires 0 < cfg.pageSize < 0x8000
    decreases |es|
  {
    es == [] ||
    var sys' := Next(cfg, sys, es[0]);
    && !StoresAt(cfg, sys, es[0], pid, a)
    && pid in sys'.procs && Live(sys'.procs[pid].core, a) && Spares(cfg, sys', es[1..], pid, a)
  }

  lemma {:induction false} SparedIsKept(cfg: Config, sys: System, store: Store, es: seq<Event>, pid: int, a: int)
    requires 0 < cfg.pageSize < 0x8000 && (pid, a) in store && Spares(cfg, sys, es, pid, a)
    ensures var store' := RunStore(cfg, sys, store, es); (pid, a) in store' && store'[(pid, a)] == store[(pid, a)]
    decreases |es|
  {
    if es != [] { SparedIsKept(cfg, Next(cfg, sys, es[0]), NextStore(cfg, sys, store, es[0]), es[1..], pid, a); }
  }

  /** A value assigned to a live variable is what the variable reads as, in 16 bits, after
      every run that keeps the variable alive and stores nothing there, whatever all
      programs do meanwhile. */
  lemma AssignmentLasts(cfg: Config, sys: System, pid: int, a: int, value: int, behind: Behind, es: seq<Event>)
    requires Inv(cfg, sys) && pid in sys.procs && !sys.procs[pid].core.halted && Live(sys.procs[pid].core, a)
    requires SaneRun(cfg, sys, [Assign(pid, a, value, behind)] + es)
    requires Spares(cfg, Next(cfg, sys, Assign(pid, a, value, behind)), es, pid, a)
    ensures var sys' := RunSystem(cfg, sys, [Assign(pid, a, value, behind)] + es);
            pid in sys'.procs && Dereferenced(cfg, sys'.mem, sys'.procs[pid].core.pcb, a) == Some(Short(value))
  {
    var e := Assign(pid, a, value, behind);
    var sys1 := Next(cfg, sys, e);
    var store1 := NextStore(cfg, sys, map[], e);
    assert ([e] + es)[1..] == es;
    NextIsGood(cfg, sys, map[], e);
    assert (pid, a) in store1 && store1[(pid, a)] == Short(value);
    RunsReadBack(cfg, sys1, store1, es);
    SparedIsKept(cfg, sys1, store1, es, pid, a);
    assert ReadsAs(cfg, RunSystem(cfg, sys1, es), pid, a, Short(value));
  }

  // ----- Nobody's PCB changes but by its own primitives

  /** What a program's own events do to its PCB. */
  function OwnCore(cfg: Config, core: Core, es: seq<Event>, pid: int): Core
    requires cfg.pageSize > 0
    decreases |es|
  {
    if es == [] then core
    else
      match es[0]
      case Do(p, op) => OwnCore(cfg, if p == pid then Step(cfg, core, op) else core, es[1..], pid)
      case Return(p, _, _) =>
        OwnCore(cfg, if p == pid && core.pcb.stack != [] then Step(cfg, core, Finish) else core, es[1..], pid)
      case _ => OwnCore(cfg, core, es[1..], pid)
  }

  predicate StartsOrStops(e: Event, pid: int) { e.pid == pid && (e.Start? || e.Stop?) }

  lemma {:induction false} GoneStaysGone(cfg: Config, sys: System, es: seq<Event>, pid: int)
    requires 0 < cfg.pageSize < 0x8000 && pid !in sys.procs && forall e :: e in es ==> !StartsOrStops(e, pid)
    ensures pid !in RunSystem(cfg, sys, es).procs
    decreases |es|
  {
    if es != [] {
      assert !StartsOrStops(es[0], pid);
      GoneStaysGone(cfg, Next(cfg, sys, es[0]), es[1..], pid);
    }
  }

  /** A program that is still there after a run has the PCB that its own primitives made of
      it, as if it had been alone, and the code it had. */
  lemma {:induction false} RunsOwnSteps(cfg: Config, sys: System, es: seq<Event>, pid: int)
    requires 0 < cfg.pageSize < 0x8000 && pid in sys.procs && pid in RunSystem(cfg, sys, es).procs
    requires forall e :: e in es ==> !StartsOrStops(e, pid)
    ensures RunSystem(cfg, sys, es).procs[pid]
         == sys.procs[pid].(core := OwnCore(cfg, sys.procs[pid].core, es, pid))
    decreases |es|
  {
    if es != [] {
      var sys' := Next(cfg, sys, es[0]);
      assert !StartsOrStops(es[0], pid);
      if pid !in sys'.procs { GoneStaysGone(cfg, sys', es[1..], pid); }
      RunsOwnSteps(cfg, sys', es[1..], pid);
    }
  }
}
