// The kernel and the memory process together: what each handler of Kernel/src asks of
// Memoria/src (Kernel.c:132-192, exitcode.c:34-36), and who owns which pages after it.
module KernelMemories {
  import opened Bytes
  import opened Structures
  import opened Uploads
  import opened Memories
  import opened KernelStates
  import opened KernelSafety
  import KA = KernelAdmission
  import KS = KernelSemaphores
  import PT = PageTables
  import PS = PagedSystems
  import SM = StackMachine

  datatype Joint = Joint(s: State, m: Memory)

  /** A kernel event, or the write of some program to a page of its stack. */
  datatype Step = Kernel(e: Event) | Store(pid: int, page: int, offset: int, data: seq<byte>)

  // ----- Requests to the memory

  /** The memory's answer to the admission at hand. */
  function Granted(cfg: Config, j: Joint): bool
    requires cfg.Valid() && (j.s.queues[NEW] != [] ==> j.s.codes != [])
  {
    match Request(cfg, j.s)
    case None => false
    case Some((pid, pages)) => Init(j.m, PS.UserPid(pid), pages).1 == 1
  }

  /** Pages, the code, and a last write for the empty stack, which is refused for having
      no size. */
  function Loading(m: Memory, pid: int, pages: int, code: seq<byte>, pageSize: int): Memory
    requires 0 < pageSize < 0x8000
  {
    var (m1, ok) := Init(m, pid, pages);
    if ok == 0 then m1
    else
      var m2 := Uploaded(m1, pid, code, pageSize, 0);
      assert Short(0) == 0;
      Write(m2, pid, 0, 0, 0, []).0
  }

  function Planned(cfg: Config, j: Joint): Memory
    requires 0 < cfg.pageSize < 0x8000 && (j.s.queues[NEW] != [] ==> j.s.codes != [])
  {
    match Request(cfg, j.s)
    case None => j.m
    case Some((pid, pages)) => Loading(j.m, PS.UserPid(pid), pages, j.s.codes[0], cfg.pageSize)
  }

  /** The release that goes with one pid of a console that went away. */
  function KilledMemory(s: State, m: Memory, pid: int): Memory {
    var status := StatusFrom(s.queues, pid, 0);
    if status == -1 || status == EXEC then m else Release(m, PS.UserPid(pid)).0
  }

  function KilledAllMemory(s: State, m: Memory, pids: seq<int>): Memory
    decreases |pids|
  {
    if pids == [] then m else KilledAllMemory(Killed(s, pids[0]), KilledMemory(s, m, pids[0]), pids[1..])
  }

  /** What can happen: the memory answers as it does, and programs write to pages of
      their stack, to which PagedSystems shows their assignments to go. */
  ghost predicate CanHappen(cfg: Config, j: Joint, x: Step)
    requires cfg.Valid()
  {
    match x
    case Kernel(e) => Enabled(j.s, e) && (e.Plan? ==> e.granted == Granted(cfg, j))
    case Store(_, _, _, _) => StackWrite(cfg, j, x)
  }

  /** A write inside a page of a program's stack. */
  ghost predicate StackWrite(cfg: Config, j: Joint, x: Step)
    requires cfg.Valid() && x.Store?
  {
    && 1 <= x.pid <= j.s.generatorPid && x.pid in j.s.submitted && |x.data| < 0x8000
    && InPage(j.m, x.pid, x.page, x.offset, |x.data|) && x.page >= CodePages(|j.s.submitted[x.pid]|, cfg.pageSize)
  }

  function MemoryAfter(cfg: Config, j: Joint, x: Step): Memory
    requires 0 < cfg.pageSize < 0x8000 && CanHappen(cfg, j, x)
  {
    match x
    case Store(pid, page, offset, data) => Write(j.m, pid, page, offset, |data|, data).0
    case Kernel(e) =>
      match e
      case Syscall(_, pcb, call) => if call.ProgramEnd? then Release(j.m, PS.UserPid(pcb.idProcess)).0 else j.m
      case ConsoleDrops(c) => KilledAllMemory(j.s.(consoles := j.s.consoles - {c}), j.m, j.s.consoles[c])
      case Plan(_) => Planned(cfg, j)
      case _ => j.m
  }

  function After(cfg: Config, j: Joint, x: Step): Joint
    requires 0 < cfg.pageSize < 0x8000 && CanHappen(cfg, j, x)
  {
    Joint(if x.Kernel? then Next(cfg, j.s, x.e) else j.s, MemoryAfter(cfg, j, x))
  }

  // ----- Who owns what

  function PagesFor(cfg: Config, code: seq<byte>): int
    requires cfg.Valid()
  {
    CodePages(|code|, cfg.pageSize) + cfg.stackSize
  }

  /** The program owns exactly the pages for its code and its stack, and the first of
      them hold the code. */
  ghost predicate Loaded(cfg: Config, m: Memory, pid: int, code: seq<byte>)
    requires cfg.Valid()
  {
    && PT.Owned(m.rows, pid) == PagesFor(cfg, code)
    && (forall g :: 0 <= g < PagesFor(cfg, code) ==> PT.Mapped(m.rows, pid, g))
    && CodeStored(m, pid, code, cfg.pageSize)
  }

  /** Handed out, not new and not finished. */
  predicate Underway(s: State, pid: int) {
    1 <= pid <= s.generatorPid && Count(s.queues[NEW], pid) == 0 && Count(s.queues[EXIT], pid) == 0
  }

  ghost predicate PagesOk(cfg: Config, j: Joint, pid: int)
    requires cfg.Valid()
  {
    if Underway(j.s, pid) then pid in j.s.submitted && Loaded(cfg, j.m, pid, j.s.submitted[pid])
    else pid > 0 ==> !PT.Owns(j.m.rows, pid)
  }

  ghost predicate Fits(cfg: Config, code: seq<byte>)
    requires cfg.Valid()
  {
    |code| % cfg.pageSize != 0 && PagesFor(cfg, code) <= 0x7fff
  }

  ghost predicate SubmissionOk(cfg: Config, s: State, pid: int)
    requires cfg.Valid()
  {
    1 <= pid <= s.generatorPid ==> pid in s.submitted && Fits(cfg, s.submitted[pid])
  }

  function Sizes(cfg: Config): SM.Config { SM.Config(cfg.stackSize, cfg.pageSize) }

  ghost predicate InOrder(cfg: Config, j: Joint) {
    && cfg.Valid() && PS.ConfigOk(Sizes(cfg)) && MemoryOk(j.m) && j.m.frameSize == cfg.pageSize
    && j.s.generatorPid <= 255 && Once(j.s)
    && (forall pid :: SubmissionOk(cfg, j.s, pid)) && forall pid :: PagesOk(cfg, j, pid)
  }

  // ----- What leaves the memory alone

  /** The same programs are under way. */
  ghost predicate SameWay(s: State, t: State) {
    && t.generatorPid == s.generatorPid && t.submitted == s.submitted && Once(t)
    && forall pid :: Underway(t, pid) <==> Underway(s, pid)
  }

  lemma SameMemory(cfg: Config, j: Joint, t: State)
    requires InOrder(cfg, j) && SameWay(j.s, t)
    ensures InOrder(cfg, Joint(t, j.m))
  {
    forall pid: int ensures PagesOk(cfg, Joint(t, j.m), pid) && SubmissionOk(cfg, t, pid) {
      assert PagesOk(cfg, j, pid) && SubmissionOk(cfg, j.s, pid);
    }
  }

  /** A process keeps its pages, how many they are, and their bytes. */
  ghost predicate Untouched(cfg: Config, m: Memory, m': Memory, p: int) {
    && PS.KeepsPages(Sizes(cfg), m, m', p) && PT.Owned(m'.rows, p) == PT.Owned(m.rows, p)
    && (PT.Owns(m'.rows, p) ==> PT.Owns(m.rows, p))
  }

  lemma UntouchedIsLoaded(cfg: Config, m: Memory, m': Memory, p: int, code: seq<byte>)
    requires cfg.Valid() && Loaded(cfg, m, p, code) && Untouched(cfg, m, m', p)
    ensures Loaded(cfg, m', p, code)
  {
    forall k: nat, g, o | Located(|code|, cfg.pageSize, k, g, o) ensures ByteAt(m', p, g, o) == code[k] {
      assert PS.SameBytes(m, m', p, g);
    }
  }

  lemma ReleaseLeavesOthers(cfg: Config, m: Memory, pid: int, p: int)
    requires MemoryOk(m) && m.frameSize == cfg.pageSize && 1 <= pid <= 255 && p > 0 && p != pid
    ensures Untouched(cfg, m, Release(m, PS.UserPid(pid)).0, p)
  {
    PS.ReleaseKeepsPages(Sizes(cfg), m, pid, p);
    ReleasedRows(m, pid);
    ClearedOwners(m.rows, pid, p);
  }

  lemma ReleasedRows(m: Memory, pid: int)
    requires 1 <= pid <= 255
    ensures Release(m, PS.UserPid(pid)).0.rows == PT.Cleared(m.rows, pid)
  {
  }

  lemma ClearedOwners(rows: seq<PT.Row>, pid: int, p: int)
    requires pid > 0 && p > 0 && p != pid
    ensures PT.Owned(PT.Cleared(rows, pid), p) == PT.Owned(rows, p)
    ensures PT.Owns(PT.Cleared(rows, pid), p) ==> PT.Owns(rows, p)
  {
    PT.ClearCounts(rows, pid, p);
  }

  lemma ReleaseTakesAll(m: Memory, pid: int)
    requires MemoryOk(m) && 1 <= pid <= 255
    ensures var m' := Release(m, PS.UserPid(pid)).0;
            MemoryOk(m') && m'.frameSize == m.frameSize && !PT.Owns(m'.rows, pid)
  {
    PT.ClearKeepsTable(m.rows, pid);
  }

  // ----- Ends of programs

  /** One program is in exit now, the others are as far as they were. */
  ghost predicate OneEnded(s: State, t: State, pid: int) {
    && t.generatorPid == s.generatorPid && t.submitted == s.submitted && !Underway(t, pid)
    && Once(t) && forall x :: x != pid ==> (Underway(t, x) <==> Underway(s, x))
  }

  lemma EndReleases(cfg: Config, j: Joint, t: State, pid: int)
    requires InOrder(cfg, j) && OneEnded(j.s, t, pid) && 1 <= pid <= j.s.generatorPid
    ensures InOrder(cfg, Joint(t, Release(j.m, PS.UserPid(pid)).0))
  {
    var j' := Joint(t, Release(j.m, PS.UserPid(pid)).0);
    ReleaseTakesAll(j.m, pid);
    forall x: int ensures PagesOk(cfg, j', x) && SubmissionOk(cfg, t, x) {
      assert PagesOk(cfg, j, x) && SubmissionOk(cfg, j.s, x);
      if x > 0 && x != pid {
        ReleaseLeavesOthers(cfg, j.m, pid, x);
        if Underway(t, x) { UntouchedIsLoaded(cfg, j.m, j'.m, x, t.submitted[x]); }
      }
    }
  }

  lemma EndedIsOne(s: State, p: Pcb, code: int)
    requires Once(s) && 1 <= p.idProcess <= s.generatorPid
    ensures OneEnded(s, Ended(s, p, code), p.idProcess)
  {
    var t := Ended(s, p, code);
    forall x: int ensures PidOnce(t, x) && (x != p.idProcess ==> (Underway(t, x) <==> Underway(s, x))) {
      assert PidOnce(s, x);
      EndedCounts(s, p, code, x);
    }
    EndedCounts(s, p, code, p.idProcess);
  }

  lemma KilledStays(cfg: Config, j: Joint, pid: int)
    requires InOrder(cfg, j)
    ensures InOrder(cfg, Joint(Killed(j.s, pid), KilledMemory(j.s, j.m, pid)))
  {
    var status := StatusFrom(j.s.queues, pid, 0);
    if status >= 0 && status != EXEC {
      assert PidOnce(j.s, pid);
      TotalAtLeast(j.s.queues, status, pid);
      var p := First(j.s.queues[status], pid);
      EndedIsOne(j.s, p, EXIT_CONSOLE_KILLED);
      EndReleases(cfg, j, Ended(j.s, p, EXIT_CONSOLE_KILLED), pid);
    }
  }

  lemma {:induction false} KilledAllStays(cfg: Config, j: Joint, pids: seq<int>)
    requires InOrder(cfg, j)
    ensures InOrder(cfg, Joint(KilledAll(j.s, pids), KilledAllMemory(j.s, j.m, pids)))
    decreases |pids|
  {
    if pids != [] {
      KilledStays(cfg, j, pids[0]);
      KilledAllStays(cfg, Joint(Killed(j.s, pids[0]), KilledMemory(j.s, j.m, pids[0])), pids[1..]);
    }
  }

  // ----- Calls, arrivals, admissions

  /** The release that goes with the end of a program. */
  function CalledMemory(m: Memory, pcb: Pcb, call: Call): Memory {
    if call.ProgramEnd? then Release(m, PS.UserPid(pcb.idProcess)).0 else m
  }

  lemma EndStays(cfg: Config, j: Joint, cpu: int, pcb: Pcb)
    requires InOrder(cfg, j) && 1 <= pcb.idProcess <= j.s.generatorPid
    ensures InOrder(cfg, Joint(Called(j.s, cpu, pcb, ProgramEnd), CalledMemory(j.m, pcb, ProgramEnd)))
  {
    var t, d := Called(j.s, cpu, pcb, ProgramEnd), Take(j.s, EXEC, pcb.idProcess);
    forall x: int ensures PidOnce(d, x) && Underway(d, x) == Underway(j.s, x) {
      assert PidOnce(j.s, x);
      TotalAtLeast(j.s.queues, EXEC, x);
      TakeCounts(j.s, EXEC, pcb.idProcess, x);
    }
    EndedIsOne(d, pcb, EXIT_SUCCESSFUL);
    forall x: int ensures Underway(t, x) <==> Underway(Ended(d, pcb, EXIT_SUCCESSFUL), x) {
    }
    forall x: int ensures PidOnce(t, x) { assert PidOnce(Ended(d, pcb, EXIT_SUCCESSFUL), x); }
    EndReleases(cfg, j, t, pcb.idProcess);
  }

  /** A call keeps kernel and memory in order if and only if it leaves each program in at
      most one queue: it touches neither the new nor the exit queue, except that a program
      end puts the caller into the latter. */
  lemma CallStaysIff(cfg: Config, j: Joint, cpu: int, pcb: Pcb, call: Call)
    requires InOrder(cfg, j) && InRange(j.s, call)
    ensures InOrder(cfg, Joint(Called(j.s, cpu, pcb, call), CalledMemory(j.m, pcb, call)))
            <==> KeepsOnce(j.s, pcb, call)
  {
    var t := Called(j.s, cpu, pcb, call);
    CallKeepsOnceIff(j.s, cpu, pcb, call);
    if KeepsOnce(j.s, pcb, call) {
      if call.ProgramEnd? {
        EndStays(cfg, j, cpu, pcb);
      } else {
        assert t.queues[NEW] == j.s.queues[NEW] && t.queues[EXIT] == j.s.queues[EXIT];
        SameMemory(cfg, j, t);
      }
    }
  }

  lemma ArrivalStaysIff(cfg: Config, j: Joint, console: int, program: Program)
    requires InOrder(cfg, j) && console in j.s.consoles
    ensures InOrder(cfg, Joint(Created(cfg, j.s, console, program), j.m))
            <==> j.s.generatorPid < 255 && Fits(cfg, program.code)
  {
    var t := Created(cfg, j.s, console, program);
    if InOrder(cfg, Joint(t, j.m)) { assert SubmissionOk(cfg, t, t.generatorPid); }
    if j.s.generatorPid < 255 && Fits(cfg, program.code) { ArrivalStays(cfg, j, console, program); }
  }

  lemma ArrivalStays(cfg: Config, j: Joint, console: int, program: Program)
    requires InOrder(cfg, j) && console in j.s.consoles && j.s.generatorPid < 255 && Fits(cfg, program.code)
    ensures InOrder(cfg, Joint(Created(cfg, j.s, console, program), j.m))
  {
    var t := Created(cfg, j.s, console, program);
    forall x: int ensures PidOnce(t, x) && SubmissionOk(cfg, t, x) && PagesOk(cfg, Joint(t, j.m), x) {
      assert PidOnce(j.s, x) && SubmissionOk(cfg, j.s, x) && PagesOk(cfg, j, x);
      CreatedCounts(cfg, j.s, console, program, x);
    }
  }

  /** What a granted admission leaves in memory. */
  lemma LoadingLoads(cfg: Config, m: Memory, pid: int, code: seq<byte>)
    requires cfg.Valid() && PS.ConfigOk(Sizes(cfg)) && MemoryOk(m) && m.frameSize == cfg.pageSize && Fits(cfg, code)
    requires 1 <= pid <= 255 && !PT.Owns(m.rows, pid) && Init(m, pid, PagesFor(cfg, code)).1 == 1
    ensures var m' := Loading(m, pid, PagesFor(cfg, code), code, cfg.pageSize);
            && MemoryOk(m') && m'.frameSize == cfg.pageSize && Loaded(cfg, m', pid, code)
            && forall p :: p > 0 && p != pid ==> Untouched(cfg, m, m', p)
  {
    var pages := PagesFor(cfg, code);
    var m1 := Init(m, pid, pages).0;
    var m2 := Uploaded(m1, pid, code, cfg.pageSize, 0);
    var m' := Loading(m, pid, pages, code, cfg.pageSize);
    assert Short(0) == 0 && Short(pages) == pages;
    assert m' == m2;
    PS.StartGivesPages(Sizes(cfg), m, pid, code);
    PT.GrantIsExact(m.rows, pid, pages);
    UploadKeepsTable(m1, pid, code, cfg.pageSize, 0);
    GrantedOwners(m.rows, pid, pages, pid);
    PT.NoneOwned(m.rows, pid);
    forall p | p > 0 && p != pid ensures Untouched(cfg, m, m', p) { GrantedOwners(m.rows, pid, pages, p); }
  }

  lemma GrantedOwners(rows: seq<PT.Row>, pid: int, pages: int, p: int)
    requires PT.Grantable(rows, pid, pages) && p > 0
    ensures PT.Owned(PT.Granted(rows, pid, pages), p) == PT.Owned(rows, p) + if p == pid then pages else 0
    ensures p != pid && PT.Owns(PT.Granted(rows, pid, pages), p) ==> PT.Owns(rows, p)
  {
    PT.FramesConserved(rows, pid, pages, p);
    var r := PT.Granted(rows, pid, pages);
    if p != pid && PT.Owns(r, p) {
      var i :| 0 <= i < |r| && r[i].pid == p;
      assert rows[i].pid == p;
    }
  }

  /** Planning when a program is admitted: who is under way after it. */
  lemma AdmittedWay(cfg: Config, s: State, granted: bool, x: int)
    requires cfg.Valid() && Admits(cfg, s) && s.codes != [] && PidOnce(s, x)
             && 1 <= s.queues[NEW][0].idProcess <= s.generatorPid
    requires PidOnce(s, s.queues[NEW][0].idProcess)
    ensures var t, pid := Dispatched(Admitted(cfg, s, granted)), s.queues[NEW][0].idProcess;
            && PidOnce(t, x) && t.submitted == s.submitted && t.generatorPid == s.generatorPid
            && (Underway(t, x) <==> if x == pid then granted else Underway(s, x))
  {
    var t, pid := Admitted(cfg, s, granted), s.queues[NEW][0].idProcess;
    AdmittedCounts(cfg, s, granted, x);
    DispatchedCounts(t, x);
    assert Dispatched(t).queues[NEW] == t.queues[NEW] && Dispatched(t).queues[EXIT] == t.queues[EXIT];
    if x == pid {
      KA.MemberCounts(s.queues[NEW], 0);
      OnlyThere(s, NEW, pid);
    } else {
      assert Stays(s, t, x);
    }
  }

  lemma PlanStays(cfg: Config, j: Joint)
    requires InOrder(cfg, j) && KA.OwnCode(j.s)
    ensures InOrder(cfg, Joint(Dispatched(Admitted(cfg, j.s, Granted(cfg, j))), Planned(cfg, j)))
  {
    var s, granted := j.s, Granted(cfg, j);
    var t := Dispatched(Admitted(cfg, s, granted));
    if Admits(cfg, s) {
      AdmissionStays(cfg, j);
    } else {
      forall x: int ensures PidOnce(t, x) && (Underway(t, x) <==> Underway(s, x)) {
        assert PidOnce(s, x);
        DispatchedCounts(s, x);
        assert t.queues[NEW] == s.queues[NEW] && t.queues[EXIT] == s.queues[EXIT];
      }
      SameMemory(cfg, j, t);
    }
  }

  /** The new program at the head of the queue, its code and its pages. */
  lemma HeadIsReady(cfg: Config, j: Joint)
    requires InOrder(cfg, j) && KA.OwnCode(j.s) && Admits(cfg, j.s)
    ensures var pid := j.s.queues[NEW][0].idProcess;
            && 1 <= pid <= j.s.generatorPid && pid in j.s.submitted && j.s.codes[0] == j.s.submitted[pid]
            && Fits(cfg, j.s.codes[0]) && !PT.Owns(j.m.rows, pid) && !Underway(j.s, pid)
            && Request(cfg, j.s) == Some((pid, PagesFor(cfg, j.s.codes[0])))
  {
    var pid := j.s.queues[NEW][0].idProcess;
    assert KA.CodeAt(j.s, 0) && PidOnce(j.s, pid);
    KA.MemberCounts(j.s.queues[NEW], 0);
    TotalAtLeast(j.s.queues, NEW, pid);
    assert SubmissionOk(cfg, j.s, pid) && PagesOk(cfg, j, pid);
  }

  /** The oldest new program is admitted if and only if the frames that belong to nobody
      are enough for its submitted code and its stack: then it is ready or executing, and
      otherwise in exit. */
  lemma AdmissionSucceedsIff(cfg: Config, j: Joint)
    requires InOrder(cfg, j) && KA.OwnCode(j.s) && Admits(cfg, j.s)
    ensures var pid := j.s.queues[NEW][0].idProcess;
            var t := Dispatched(Admitted(cfg, j.s, Granted(cfg, j)));
            && pid in j.s.submitted
            && (Granted(cfg, j) <==> PagesFor(cfg, j.s.submitted[pid]) <= PT.Owned(j.m.rows, 0))
            && (Granted(cfg, j) ==> Count(t.queues[READY], pid) + Count(t.queues[EXEC], pid) == 1)
            && (!Granted(cfg, j) ==> Count(t.queues[EXIT], pid) == 1)
  {
    var s, granted, pid := j.s, Granted(cfg, j), j.s.queues[NEW][0].idProcess;
    var t := Admitted(cfg, s, granted);
    HeadIsReady(cfg, j);
    var pages := PagesFor(cfg, s.codes[0]);
    assert PS.UserPid(pid) == pid && Short(pages) == pages;
    InitIff(j.m, pid, pages);
    assert PidOnce(s, pid);
    AdmittedCounts(cfg, s, granted, pid);
    KA.MemberCounts(s.queues[NEW], 0);
    OnlyThere(s, NEW, pid);
    CountSplit(t.queues[READY], Pairs(t), pid);
    CountSum(t.queues[EXEC], t.queues[READY][..Pairs(t)], pid);
  }

  lemma AdmissionStays(cfg: Config, j: Joint)
    requires InOrder(cfg, j) && KA.OwnCode(j.s) && Admits(cfg, j.s)
    ensures InOrder(cfg, Joint(Dispatched(Admitted(cfg, j.s, Granted(cfg, j))), Planned(cfg, j)))
  {
    var s, granted, m' := j.s, Granted(cfg, j), Planned(cfg, j);
    var t, pid := Dispatched(Admitted(cfg, s, granted)), s.queues[NEW][0].idProcess;
    HeadIsReady(cfg, j);
    assert PidOnce(s, pid) && PS.UserPid(pid) == pid;
    if granted { LoadingLoads(cfg, j.m, pid, s.codes[0]); } else { assert m' == j.m; }
    forall x: int ensures PidOnce(t, x) && SubmissionOk(cfg, t, x) && PagesOk(cfg, Joint(t, m'), x) {
      assert PidOnce(s, x) && SubmissionOk(cfg, s, x) && PagesOk(cfg, j, x);
      AdmittedWay(cfg, s, granted, x);
      if granted && x > 0 && x != pid {
        assert Untouched(cfg, j.m, m', x);
        if Underway(t, x) { UntouchedIsLoaded(cfg, j.m, m', x, t.submitted[x]); }
      }
    }
  }

  // ----- Writes of programs

  lemma StoreStays(cfg: Config, j: Joint, x: Step)
    requires InOrder(cfg, j) && x.Store? && |x.data| < 0x8000 && StackWrite(cfg, j, x)
    ensures InOrder(cfg, Joint(j.s, Write(j.m, x.pid, x.page, x.offset, |x.data|, x.data).0))
  {
    var m' := Write(j.m, x.pid, x.page, x.offset, |x.data|, x.data).0;
    WriteRefines(j.m, x.pid, x.page, x.offset, |x.data|, x.data, x.pid, x.page, 0);
    forall p: int ensures PagesOk(cfg, Joint(j.s, m'), p) {
      assert PagesOk(cfg, j, p);
      if Underway(j.s, p) { StoreKeepsCode(cfg, j.m, x, p, j.s.submitted[p], p == x.pid); }
    }
  }

  lemma StoreKeepsCode(cfg: Config, m: Memory, x: Step, p: int, code: seq<byte>, own: bool)
    requires cfg.Valid() && x.Store? && |x.data| < 0x8000 && InPage(m, x.pid, x.page, x.offset, |x.data|)
    requires Loaded(cfg, m, p, code) && own == (p == x.pid) && (own ==> x.page >= CodePages(|code|, cfg.pageSize))
    ensures Loaded(cfg, Write(m, x.pid, x.page, x.offset, |x.data|, x.data).0, p, code)
  {
    var m' := Write(m, x.pid, x.page, x.offset, |x.data|, x.data).0;
    WriteRefines(m, x.pid, x.page, x.offset, |x.data|, x.data, x.pid, x.page, 0);
    forall k: nat, g, o | Located(|code|, cfg.pageSize, k, g, o) ensures ByteAt(m', p, g, o) == code[k] {
      WriteRefines(m, x.pid, x.page, x.offset, |x.data|, x.data, p, g, o);
    }
  }

  // ----- Exactly which events keep pages and programs together

  ghost predicate Good(cfg: Config, j: Joint) { InOrder(cfg, j) && KA.OwnCode(j.s) }

  /** A kernel event keeps programs, codes and pages in order if and only if it leaves
      each program in at most one queue and ends no new program, and a program that
      arrives has a pid of one byte and code that leaves a remainder. */
  ghost predicate Regular(cfg: Config, j: Joint, x: Step)
    requires cfg.Valid() && CanHappen(cfg, j, x)
  {
    x.Kernel? ==>
      && !Doubles(j.s, x.e) && !KA.EndsNew(j.s, x.e)
      && (x.e.NewProgram? ==> j.s.generatorPid < 255 && Fits(cfg, x.e.program.code))
  }

  lemma DropStays(cfg: Config, j: Joint, console: int)
    requires InOrder(cfg, j) && console in j.s.consoles
    ensures InOrder(cfg, After(cfg, j, Kernel(ConsoleDrops(console))))
  {
    var r := j.s.(consoles := j.s.consoles - {console});
    assert forall x :: PidOnce(j.s, x) ==> PidOnce(r, x) && Underway(r, x) == Underway(j.s, x);
    SameMemory(cfg, j, r);
    KilledAllStays(cfg, Joint(r, j.m), j.s.consoles[console]);
  }

  lemma ClientStays(cfg: Config, j: Joint, e: Event)
    requires InOrder(cfg, j) && Enabled(j.s, e) && (e.ConsoleConnects? || e.CpuConnects?)
    ensures InOrder(cfg, Joint(Next(cfg, j.s, e), j.m))
  {
    var t := Next(cfg, j.s, e);
    assert forall x :: PidOnce(j.s, x) ==> PidOnce(t, x) && Underway(t, x) == Underway(j.s, x);
    SameMemory(cfg, j, t);
  }

  lemma StepStaysIff(cfg: Config, j: Joint, x: Step)
    requires Good(cfg, j) && CanHappen(cfg, j, x)
    ensures Good(cfg, After(cfg, j, x)) <==> Regular(cfg, j, x)
  {
    match x {
      case Store(_, _, _, _) => StoreStays(cfg, j, x);
      case Kernel(e) =>
        KA.StepOwnsCodeIff(cfg, j.s, e);
        match e {
          case NewProgram(c, program) => ArrivalStaysIff(cfg, j, c, program);
          case Syscall(c, pcb, call) => CallStaysIff(cfg, j, c, pcb, call);
          case ConsoleDrops(c) => DropStays(cfg, j, c);
          case Plan(_) => PlanStays(cfg, j);
          case _ => ClientStays(cfg, j, e);
        }
    }
  }

  // ----- Runs

  ghost predicate AllHappen(cfg: Config, j: Joint, xs: seq<Step>)
    requires 0 < cfg.pageSize < 0x8000
    decreases |xs|
  {
    xs == [] || (CanHappen(cfg, j, xs[0]) && AllHappen(cfg, After(cfg, j, xs[0]), xs[1..]))
  }

  ghost predicate RegularRun(cfg: Config, j: Joint, xs: seq<Step>)
    requires 0 < cfg.pageSize < 0x8000 && AllHappen(cfg, j, xs)
    decreases |xs|
  {
    xs == [] || (Regular(cfg, j, xs[0]) && RegularRun(cfg, After(cfg, j, xs[0]), xs[1..]))
  }

  ghost function RunBoth(cfg: Config, j: Joint, xs: seq<Step>): Joint
    requires 0 < cfg.pageSize < 0x8000 && AllHappen(cfg, j, xs)
    decreases |xs|
  {
    if xs == [] then j else RunBoth(cfg, After(cfg, j, xs[0]), xs[1..])
  }

  /** In order after each step of a run. */
  ghost predicate GoodThroughout(cfg: Config, j: Joint, xs: seq<Step>)
    requires 0 < cfg.pageSize < 0x8000 && AllHappen(cfg, j, xs)
    decreases |xs|
  {
    Good(cfg, j) && (xs == [] || GoodThroughout(cfg, After(cfg, j, xs[0]), xs[1..]))
  }

  lemma {:induction false} RunStaysIff(cfg: Config, j: Joint, xs: seq<Step>)
    requires 0 < cfg.pageSize < 0x8000 && Good(cfg, j) && AllHappen(cfg, j, xs)
    ensures GoodThroughout(cfg, j, xs) <==> RegularRun(cfg, j, xs)
    ensures RegularRun(cfg, j, xs) ==> Good(cfg, RunBoth(cfg, j, xs))
    decreases |xs|
  {
    if xs != [] {
      var j' := After(cfg, j, xs[0]);
      StepStaysIff(cfg, j, xs[0]);
      if Good(cfg, j') {
        RunStaysIff(cfg, j', xs[1..]);
      } else {
        assert !GoodThroughout(cfg, j', xs[1..]);
      }
    }
  }

  /** Ready, executing or blocked. */
  predicate Active(s: State, pid: int) {
    Count(s.queues[READY], pid) + Count(s.queues[EXEC], pid) + Count(s.queues[BLOCK], pid) > 0
  }

  /** Each such program owns exactly the pages for the code submitted as it and for its
      stack, and finds that code in them. */
  ghost predicate AllLoaded(cfg: Config, j: Joint)
    requires cfg.Valid()
  {
    forall pid :: Active(j.s, pid) ==> pid in j.s.submitted && Loaded(cfg, j.m, pid, j.s.submitted[pid])
  }

  lemma OnceMeansUnderway(s: State, pid: int)
    requires Once(s)
    ensures Active(s, pid) ==> Underway(s, pid)
    ensures Count(s.queues[NEW], pid) + Count(s.queues[EXIT], pid) > 0 ==> !Underway(s, pid) && pid > 0
  {
    assert PidOnce(s, pid);
    forall i | 0 <= i < NUM_STATUSES && Count(s.queues[i], pid) > 0
      ensures 1 <= pid <= s.generatorPid
      ensures forall k :: 0 <= k < NUM_STATUSES && k != i ==> Count(s.queues[k], pid) == 0
    {
      TotalAtLeast(s.queues, i, pid);
      OnlyThere(s, i, pid);
    }
  }

  lemma InOrderIsLoaded(cfg: Config, j: Joint)
    requires InOrder(cfg, j)
    ensures AllLoaded(cfg, j)
  {
    forall pid | Active(j.s, pid)
      ensures pid in j.s.submitted && Loaded(cfg, j.m, pid, j.s.submitted[pid])
    {
      OnceMeansUnderway(j.s, pid);
      assert PagesOk(cfg, j, pid);
    }
  }

  /** So it is after every regular run, kills and ends of blocked programs included; and
      programs that are new or finished own nothing. */
  lemma ProgramsOwnTheirPages(cfg: Config, j: Joint, xs: seq<Step>)
    requires 0 < cfg.pageSize < 0x8000 && Good(cfg, j) && AllHappen(cfg, j, xs) && RegularRun(cfg, j, xs)
    ensures var t := RunBoth(cfg, j, xs);
            && AllLoaded(cfg, t)
            && forall pid :: Count(t.s.queues[NEW], pid) + Count(t.s.queues[EXIT], pid) > 0 ==> !PT.Owns(t.m.rows, pid)
  {
    var t := RunBoth(cfg, j, xs);
    RunStaysIff(cfg, j, xs);
    InOrderIsLoaded(cfg, t);
    forall pid | Count(t.s.queues[NEW], pid) + Count(t.s.queues[EXIT], pid) > 0 ensures !PT.Owns(t.m.rows, pid) {
      OnceMeansUnderway(t.s, pid);
      assert PagesOk(cfg, t, pid);
    }
  }

  /** Kernel and memory as they start. */
  lemma StartIsGood(cfg: Config, sems: seq<int>, variables: nat, frames: nat)
    requires cfg.Valid() && PS.ConfigOk(Sizes(cfg)) && frames <= 0x8000
    ensures Good(cfg, Joint(Initial(sems, variables),
                            Memory(seq(frames, i => PT.FREE), seq(frames * cfg.pageSize, i => 0), cfg.pageSize)))
  {
    InitialIsSound(cfg, sems, variables);
    PidsOnce(Initial(sems, variables));
    PS.InitialIsGood(Sizes(cfg), frames);
  }

  // ----- Exactly which events leave an active program without its pages

  /** A handed-out pid that is not underway owns nothing, and no program does with
      nothing. */
  lemma LoadedIff(cfg: Config, j: Joint, pid: int)
    requires InOrder(cfg, j)
    ensures (pid in j.s.submitted && Loaded(cfg, j.m, pid, j.s.submitted[pid])) <==> Underway(j.s, pid)
  {
    assert PagesOk(cfg, j, pid);
    if pid in j.s.submitted && Loaded(cfg, j.m, pid, j.s.submitted[pid]) {
      assert PT.Mapped(j.m.rows, pid, 0);
      assert PT.Row(pid, 0) in j.m.rows;
    }
  }

  /** Whether the programs a call makes active have their pages. */
  predicate WakesLoaded(s: State, pcb: Pcb, call: Call)
    requires InRange(s, call)
  {
    match call
    case Wait(_) => Underway(s, pcb.idProcess)
    case Signal(i) => Underway(s, pcb.idProcess) && Underway(s, Woken(s, pcb, i).idProcess)
    case ProgramEnd =>
      var user := PS.UserPid(pcb.idProcess);
      user == pcb.idProcess || !Active(s, user)
    case _ => true
  }

  /** Who is active after a call. */
  lemma CallActive(s: State, cpu: int, pcb: Pcb, call: Call, x: int)
    requires InRange(s, call)
    ensures var active, caller := Active(Called(s, cpu, pcb, call), x), pcb.idProcess;
            match call
            case Wait(_) => active <==> x == caller || Active(s, x)
            case Signal(i) => active <==> x == caller || x == Woken(s, pcb, i).idProcess || Active(s, x)
            case ProgramEnd => active <==> x != caller && Active(s, x)
            case _ => active ==> Active(s, x)
  {
    var t := Take(s, EXEC, pcb.idProcess);
    TakeCounts(s, EXEC, pcb.idProcess, x);
    match call {
      case Wait(i) =>
        PutCounts(t, READY, pcb, x);
        PutCounts(t, BLOCK, pcb, x);
      case Signal(i) => SignalledCounts(t, pcb, i, x);
      case ProgramEnd => EndedCounts(t, pcb, EXIT_SUCCESSFUL, x);
      case _ =>
    }
  }

  lemma ReleaseOfNobody(m: Memory)
    requires MemoryOk(m)
    ensures Release(m, 0).0 == m
  {
    assert PT.Cleared(m.rows, 0) == m.rows;
  }

  /** The release of a pid takes its pages and those of nobody else. */
  lemma ReleaseUnloads(cfg: Config, m: Memory, user: int, code: seq<byte>)
    requires cfg.Valid() && cfg.stackSize >= 1 && MemoryOk(m) && 0 <= user <= 255
    ensures !Loaded(cfg, Release(m, user).0, user, code)
  {
    var m' := Release(m, user).0;
    assert PS.UserPid(user) == user;
    if Loaded(cfg, m', user, code) {
      LoadedOwns(cfg, m', user, code);
      ReleaseTakesAll(m, user);
    }
  }

  lemma ReleaseKeepsLoaded(cfg: Config, m: Memory, user: int, x: int, code: seq<byte>)
    requires cfg.Valid() && cfg.stackSize >= 1 && MemoryOk(m) && m.frameSize == cfg.pageSize && 0 <= user <= 255
    requires x != user && Loaded(cfg, m, x, code)
    ensures Loaded(cfg, Release(m, user).0, x, code)
  {
    LoadedOwns(cfg, m, x, code);
    if user == 0 {
      ReleaseOfNobody(m);
    } else {
      assert PS.UserPid(user) == user;
      ReleaseLeavesOthers(cfg, m, user, x);
      UntouchedIsLoaded(cfg, m, Release(m, user).0, x, code);
    }
  }

  lemma LoadedOwns(cfg: Config, m: Memory, x: int, code: seq<byte>)
    requires cfg.Valid() && cfg.stackSize >= 1 && Loaded(cfg, m, x, code)
    ensures x > 0 && PT.Owns(m.rows, x)
  {
    assert PagesFor(cfg, code) > 0;
    assert PT.Mapped(m.rows, x, 0);
    assert PT.Row(x, 0) in m.rows;
  }

  lemma EndLoadsIff(cfg: Config, j: Joint, cpu: int, pcb: Pcb)
    requires InOrder(cfg, j)
    ensures AllLoaded(cfg, Joint(Called(j.s, cpu, pcb, ProgramEnd), CalledMemory(j.m, pcb, ProgramEnd)))
            <==> WakesLoaded(j.s, pcb, ProgramEnd)
  {
    var t, m' := Called(j.s, cpu, pcb, ProgramEnd), CalledMemory(j.m, pcb, ProgramEnd);
    var user := PS.UserPid(pcb.idProcess);
    InOrderIsLoaded(cfg, j);
    if WakesLoaded(j.s, pcb, ProgramEnd) {
      forall x | Active(t, x) ensures x in t.submitted && Loaded(cfg, m', x, t.submitted[x]) {
        CallActive(j.s, cpu, pcb, ProgramEnd, x);
        ReleaseKeepsLoaded(cfg, j.m, user, x, t.submitted[x]);
      }
    } else {
      CallActive(j.s, cpu, pcb, ProgramEnd, user);
      assert user in t.submitted;
      ReleaseUnloads(cfg, j.m, user, t.submitted[user]);
    }
  }

  /** After a call each active program has its pages if and only if those it makes active
      were underway, and the pid that an end releases is that of the program. */
  lemma CallLoadsIff(cfg: Config, j: Joint, cpu: int, pcb: Pcb, call: Call)
    requires InOrder(cfg, j) && InRange(j.s, call)
    ensures AllLoaded(cfg, Joint(Called(j.s, cpu, pcb, call), CalledMemory(j.m, pcb, call)))
            <==> WakesLoaded(j.s, pcb, call)
  {
    if call.ProgramEnd? {
      EndLoadsIff(cfg, j, cpu, pcb);
    } else {
      var t := Called(j.s, cpu, pcb, call);
      forall x: int
        ensures Active(j.s, x) ==> Underway(j.s, x)
        ensures (x in t.submitted && Loaded(cfg, j.m, x, t.submitted[x])) <==> Underway(j.s, x)
      {
        OnceMeansUnderway(j.s, x);
        LoadedIff(cfg, j, x);
      }
      forall x: int ensures Active(t, x) ==> Active(j.s, x) || call.Wait? || call.Signal? {
        CallActive(j.s, cpu, pcb, call, x);
      }
      if call.Wait? || call.Signal? { WokenLoadIff(cfg, j, cpu, pcb, call); }
    }
  }

  lemma WokenLoadIff(cfg: Config, j: Joint, cpu: int, pcb: Pcb, call: Call)
    requires InRange(j.s, call) && (call.Wait? || call.Signal?)
    requires forall x :: Active(j.s, x) ==> Underway(j.s, x)
    ensures (forall x :: Active(Called(j.s, cpu, pcb, call), x) ==> Underway(j.s, x)) <==> WakesLoaded(j.s, pcb, call)
  {
    var t, caller := Called(j.s, cpu, pcb, call), pcb.idProcess;
    var woken := if call.Signal? then Woken(j.s, pcb, call.sem).idProcess else caller;
    CallActive(j.s, cpu, pcb, call, caller);
    CallActive(j.s, cpu, pcb, call, woken);
    forall x: int ensures Active(t, x) <==> x == caller || x == woken || Active(j.s, x) {
      CallActive(j.s, cpu, pcb, call, x);
    }
  }

  /** At any event: every program that is ready, executing or blocked afterwards owns its
      pages and finds its code there, unless the event is exactly such a call. */
  lemma EventLoadsIff(cfg: Config, j: Joint, e: Event)
    requires Good(cfg, j) && CanHappen(cfg, j, Kernel(e))
    ensures AllLoaded(cfg, After(cfg, j, Kernel(e))) <==> (e.Syscall? ==> WakesLoaded(j.s, e.pcb, e.call))
  {
    match e {
      case NewProgram(c, program) => ArrivalLoads(cfg, j, c, program);
      case Syscall(c, pcb, call) => CallLoadsIff(cfg, j, c, pcb, call);
      case _ =>
        StepStaysUnlessNew(cfg, j, e);
        InOrderIsLoaded(cfg, After(cfg, j, Kernel(e)));
    }
  }

  lemma StepStaysUnlessNew(cfg: Config, j: Joint, e: Event)
    requires Good(cfg, j) && CanHappen(cfg, j, Kernel(e)) && !e.NewProgram? && !e.Syscall?
    ensures InOrder(cfg, After(cfg, j, Kernel(e)))
  {
    match e {
      case ConsoleDrops(c) => DropStays(cfg, j, c);
      case Plan(_) => PlanStays(cfg, j);
      case _ => ClientStays(cfg, j, e);
    }
  }

  lemma ArrivalLoads(cfg: Config, j: Joint, console: int, program: Program)
    requires InOrder(cfg, j) && console in j.s.consoles
    ensures AllLoaded(cfg, Joint(Created(cfg, j.s, console, program), j.m))
  {
    var t := Created(cfg, j.s, console, program);
    InOrderIsLoaded(cfg, j);
    forall x | Active(t, x) ensures x in t.submitted && Loaded(cfg, j.m, x, t.submitted[x]) {
      assert Active(j.s, x);
      OnceMeansUnderway(j.s, x);
    }
  }

  /** A killed program that a signal wakes later is ready to run without a single page:
      its memory went when it was killed. */
  lemma KilledWaiterHasNoPages(cfg: Config, j: Joint, console: int, cpu: int, pcb: Pcb, i: nat)
    requires Good(cfg, j) && console in j.s.consoles && KS.HasSem(j.s, i)
    requires j.s.waiting[i] != [] && j.s.waiting[i][0].idProcess in j.s.consoles[console]
    requires Count(j.s.queues[BLOCK], j.s.waiting[i][0].idProcess) > 0 && (cpu in j.s.idle || cpu in j.s.executing)
    ensures var drop, signal := Kernel(ConsoleDrops(console)), Kernel(Syscall(cpu, pcb, Signal(i)));
            var pid := j.s.waiting[i][0].idProcess;
            && CanHappen(cfg, j, drop) && CanHappen(cfg, After(cfg, j, drop), signal)
            && InOrder(cfg, After(cfg, j, drop))
            && var t := After(cfg, After(cfg, j, drop), signal);
            Count(t.s.queues[READY], pid) > 0 && !PT.Owns(t.m.rows, pid) && !AllLoaded(cfg, t)
  {
    var pid, r := j.s.waiting[i][0].idProcess, j.s.(consoles := j.s.consoles - {console});
    var t := After(cfg, j, Kernel(ConsoleDrops(console)));
    DropStays(cfg, j, console);
    KS.KilledIsInExit(j.s, console, pid);
    KS.KillsKeepSems(r, j.s.consoles[console]);
    DropKeepsCpus(r, j.s.consoles[console]);
    assert PagesOk(cfg, t, pid) && !Underway(t.s, pid);
    SignalledCounts(Take(t.s, EXEC, pcb.idProcess), pcb, i, pid);
    CallLoadsIff(cfg, t, cpu, pcb, Signal(i));
  }

  /** Pages of four bytes, one of code and one of stack for each of programs 1 and 2;
      program 1 waits, program 2 runs on processor 3. */
  function ExampleMemory(): Memory {
    Memory([PT.Row(1, 0), PT.Row(1, 1), PT.Row(2, 0), PT.Row(2, 1)],
           [7, 0, 0, 0, 0, 0, 0, 0, 7, 0, 0, 0, 0, 0, 0, 0], 4)
  }

  function ExampleState(one: Pcb, two: Pcb): State {
    State([[], [], [two], [one], []], [], [3], map[1 := [1], 2 := [2]], [], [0], [[one]], [], 2,
          map[1 := [7], 2 := [7]])
  }

  lemma ExampleLoaded(cfg: Config, pid: int)
    requires cfg == Config(2, 4, 1, 1) && 1 <= pid <= 2
    ensures MemoryOk(ExampleMemory()) && Loaded(cfg, ExampleMemory(), pid, [7])
  {
    var m := ExampleMemory();
    ExampleMapped(pid);
    ExampleOwned(pid);
    forall k: nat, g, o | Located(1, 4, k, g, o) ensures ByteAt(m, pid, g, o) == [7][k] {
      FrameIsTwice(pid);
    }
  }

  lemma ExampleMapped(pid: int)
    requires 1 <= pid <= 2
    ensures MemoryOk(ExampleMemory())
    ensures PT.Mapped(ExampleMemory().rows, pid, 0) && PT.Mapped(ExampleMemory().rows, pid, 1)
  {
    var rows := ExampleMemory().rows;
    assert rows[0] == PT.Row(1, 0) && rows[1] == PT.Row(1, 1) && rows[2] == PT.Row(2, 0) && rows[3] == PT.Row(2, 1);
  }

  lemma ExampleOwned(pid: int)
    requires 1 <= pid <= 2
    ensures PT.Owned(ExampleMemory().rows, pid) == 2
  {
    var rows := ExampleMemory().rows;
    var three, two, one := rows[..3], rows[..3][..2], rows[..3][..2][..1];
    assert three == [PT.Row(1, 0), PT.Row(1, 1), PT.Row(2, 0)] && two == [PT.Row(1, 0), PT.Row(1, 1)];
    assert one == [PT.Row(1, 0)] && one[..0] == [];
    assert PT.Owned(one, pid) == PT.Owned(one[..0], pid) + if pid == 1 then 1 else 0;
  }

  lemma FrameIsTwice(pid: int)
    requires 1 <= pid <= 2
    ensures PT.FrameOf(ExampleMemory().rows, pid, 0) == 2 * (pid - 1)
  {
    var rows := ExampleMemory().rows;
    assert rows[1..][1..] == [PT.Row(2, 0), PT.Row(2, 1)];
  }

  lemma ExampleIsGood(one: Pcb, two: Pcb)
    requires one.idProcess == 1 && two.idProcess == 2
    ensures Good(Config(2, 4, 1, 1), Joint(ExampleState(one, two), ExampleMemory()))
  {
    var cfg, s, m := Config(2, 4, 1, 1), ExampleState(one, two), ExampleMemory();
    forall pid: int ensures PidOnce(s, pid) && SubmissionOk(cfg, s, pid) && PagesOk(cfg, Joint(s, m), pid) {
      KS.ExampleCounts(one, two, pid);
      if 1 <= pid <= 2 { ExampleLoaded(cfg, pid); }
    }
    ExampleLoaded(cfg, 1);
  }

  /** Its console goes away, program 2 signals, and program 1 is ready without a page. */
  lemma KilledWaiterExample(one: Pcb, two: Pcb)
    requires one.idProcess == 1 && two.idProcess == 2
    ensures var cfg, j := Config(2, 4, 1, 1), Joint(ExampleState(one, two), ExampleMemory());
            var drop, signal := Kernel(ConsoleDrops(1)), Kernel(Syscall(3, two, Signal(0)));
            && Good(cfg, j) && CanHappen(cfg, j, drop) && CanHappen(cfg, After(cfg, j, drop), signal)
            && var t := After(cfg, After(cfg, j, drop), signal);
            Count(t.s.queues[READY], 1) > 0 && !PT.Owns(t.m.rows, 1) && !AllLoaded(cfg, t)
  {
    ExampleIsGood(one, two);
    CountOne(one, 1);
    KilledWaiterHasNoPages(Config(2, 4, 1, 1), Joint(ExampleState(one, two), ExampleMemory()), 1, 3, two, 0);
  }
}
