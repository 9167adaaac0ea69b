// Kernel, CPUs and memory together: PCBs travel as bytes between the kernel's queues and
// the CPUs (Kernel/src/Kernel.c:199-212, Kernel/src/syscall.c:3-80, CPU/src/CPU.c:76-126),
// any number of copies of a program's PCB may be about, and all of them read and write
// the same stack pages.
module WholeSystems {
  import opened Bytes
  import opened Structures
  import opened Uploads
  import opened Memories
  import opened KernelStates
  import opened KernelSafety
  import opened ProcessTransfers
  import KM = KernelMemories
  import KA = KernelAdmission
  import PC = PcbCodec
  import PS = PagedSystems
  import PT = PageTables
  import SM = StackMachine

  /** The kernel and its memory, the PCBs sent to each CPU and not taken up yet, and what
      each CPU is working on. */
  datatype Whole = Whole(j: KM.Joint, inbox: map<int, seq<Pcb>>, cpus: map<int, SM.Core>)

  datatype Step =
    | Handles(e: Event)                                             // the kernel, no system call
    | TakesUp(cpu: int, rest: seq<byte>)                            // rest: what is behind the PCB's bytes
    | Does(cpu: int, op: SM.Primitive)
    | Assigns(cpu: int, address: int, value: int, behind: PS.Behind)
    | Returns(cpu: int, value: int, behind: PS.Behind)
    | Calls(cpu: int, call: Call, rest: seq<byte>)

  /** A PCB as it comes out at the other end of a connection. */
  function Arrived(p: Pcb, rest: seq<byte>): Option<Pcb> { PC.DecodePcb(PC.EncodePcb(p) + rest) }

  function FreshCore(p: Pcb): SM.Core { SM.Core(p, false, false, false) }

  /** Each program dispatched is sent to its CPU. */
  function Posted(inbox: map<int, seq<Pcb>>, pairs: seq<(Pcb, int)>): map<int, seq<Pcb>>
    decreases |pairs|
  {
    if pairs == [] then inbox
    else
      var (p, c) := pairs[0];
      Posted(inbox[c := (if c in inbox then inbox[c] else []) + [p]], pairs[1..])
  }

  ghost predicate CanHappen(cfg: Config, w: Whole, x: Step)
    requires cfg.Valid()
  {
    match x
    case Handles(e) => !e.Syscall? && KM.CanHappen(cfg, w.j, KM.Kernel(e))
    case TakesUp(c, _) => c in w.inbox && w.inbox[c] != []
    case Does(c, op) => c in w.cpus && (op.CallReturning? ==> SM.Live(w.cpus[c], op.place))
    case Assigns(c, a, _, _) => c in w.cpus && !w.cpus[c].halted && SM.Live(w.cpus[c], a)
    case Returns(c, _, _) => c in w.cpus && !w.cpus[c].halted && w.cpus[c].pcb.stack != []
    case Calls(c, call, rest) =>
      c in w.cpus && Arrived(w.cpus[c].pcb, rest).Some?
      && Enabled(w.j.s, Syscall(c, Arrived(w.cpus[c].pcb, rest).value, call))
  }

  function Assigned(cfg: Config, w: Whole, core: SM.Core, a: int, value: int, behind: PS.Behind): KM.Joint
    requires cfg.Valid()
  {
    w.j.(m := PS.Assigned(KM.Sizes(cfg), w.j.m, core.pcb, a, value, behind))
  }

  function After(cfg: Config, w: Whole, x: Step): Whole
    requires 0 < cfg.pageSize < 0x8000 && CanHappen(cfg, w, x)
  {
    match x
    case Handles(e) =>
      Whole(KM.After(cfg, w.j, KM.Kernel(e)),
            if e.Plan? then Posted(w.inbox, KA.Pairing(Admitted(cfg, w.j.s, e.granted))) else w.inbox,
            w.cpus)
    case TakesUp(c, rest) =>
      var left := w.inbox[c := w.inbox[c][1..]];
      (match Arrived(w.inbox[c][0], rest)
       case Some(p) => Whole(w.j, left, w.cpus[c := FreshCore(p)])
       case None => w.(inbox := left))
    case Does(c, op) => w.(cpus := w.cpus[c := SM.Step(KM.Sizes(cfg), w.cpus[c], op)])
    case Assigns(c, a, value, behind) => w.(j := Assigned(cfg, w, w.cpus[c], a, value, behind))
    case Returns(c, value, behind) =>
      w.(j := Assigned(cfg, w, w.cpus[c], PS.ReturnPlace(KM.Sizes(cfg), w.cpus[c]), value, behind),
         cpus := w.cpus[c := SM.Finished(w.cpus[c])])
    case Calls(c, call, rest) =>
      w.(j := KM.After(cfg, w.j, KM.Kernel(Syscall(c, Arrived(w.cpus[c].pcb, rest).value, call))))
  }

  // ----- Copies of PCBs

  /** A copy of a program's PCB: the pages it counts on are those of the code submitted,
      and its stack is in order. */
  ghost predicate CopyOk(cfg: Config, s: State, core: SM.Core)
    requires cfg.Valid()
  {
    var p := core.pcb;
    && 1 <= p.idProcess <= s.generatorPid && p.idProcess in s.submitted
    && p.pagesCode == CodePages(|s.submitted[p.idProcess]|, cfg.pageSize)
    && SM.Disciplined(KM.Sizes(cfg), core) && PS.ReturnsOk(KM.Sizes(cfg), p.stack)
  }

  /** One that is on its way or in a queue also fits the fields it is packed into. */
  ghost predicate PcbOk(cfg: Config, s: State, p: Pcb)
    requires cfg.Valid()
  {
    CopyOk(cfg, s, FreshCore(p)) && Carried(p)
  }

  ghost predicate NewOk(p: Pcb) { p.stack == [] && p.stackPointer == 0 && Carried(p) }

  ghost predicate AllOk(cfg: Config, s: State, q: seq<Pcb>)
    requires cfg.Valid()
  {
    forall p :: p in q ==> PcbOk(cfg, s, p)
  }

  /** The PCBs the kernel may send to a CPU some day. */
  ghost predicate Held(cfg: Config, s: State)
    requires cfg.Valid()
  {
    && AllOk(cfg, s, s.queues[READY]) && AllOk(cfg, s, s.queues[BLOCK])
    && (forall i :: 0 <= i < |s.waiting| ==> AllOk(cfg, s, s.waiting[i]))
    && forall p :: p in s.queues[NEW] ==> NewOk(p)
  }

  ghost predicate InboxOk(cfg: Config, s: State, inbox: map<int, seq<Pcb>>)
    requires cfg.Valid()
  {
    forall c :: c in inbox ==> AllOk(cfg, s, inbox[c])
  }

  ghost predicate Copies(cfg: Config, w: Whole)
    requires cfg.Valid()
  {
    && Held(cfg, w.j.s) && InboxOk(cfg, w.j.s, w.inbox)
    && forall c :: c in w.cpus ==> CopyOk(cfg, w.j.s, w.cpus[c])
  }

  /** Submissions stay. */
  ghost predicate Extends(s: State, t: State) {
    && s.generatorPid <= t.generatorPid
    && forall pid :: 1 <= pid <= s.generatorPid && pid in s.submitted ==>
         pid in t.submitted && t.submitted[pid] == s.submitted[pid]
  }

  lemma ExtendsKeeps(cfg: Config, s: State, t: State, q: seq<Pcb>)
    requires cfg.Valid() && Extends(s, t) && AllOk(cfg, s, q)
    ensures AllOk(cfg, t, q)
  {
    forall p | p in q ensures PcbOk(cfg, t, p) { assert PcbOk(cfg, s, p); }
  }

  lemma {:induction false} WithoutMembers(q: seq<Pcb>, x: int)
    ensures forall p :: p in Without(q, x) ==> p in q && p.idProcess != x
  {
    if q != [] { WithoutMembers(q[1..], x); }
  }

  // ----- What the kernel holds after an event

  lemma HeldAfterCall(cfg: Config, s: State, cpu: int, pcb: Pcb, call: Call)
    requires cfg.Valid() && Held(cfg, s) && PcbOk(cfg, s, pcb) && InRange(s, call)
    ensures Held(cfg, Called(s, cpu, pcb, call))
  {
    var u := Called(s, cpu, pcb, call);
    WithoutMembers(s.queues[NEW], pcb.idProcess);
    WithoutMembers(s.queues[READY], pcb.idProcess);
    WithoutMembers(s.queues[BLOCK], pcb.idProcess);
    match call {
      case Signal(i) => SignalHolds(cfg, s, pcb, i);
      case Wait(i) => WaitHolds(cfg, s, pcb, i);
      case _ =>
    }
    SameSubmissions(cfg, s, u, u.queues[READY]);
    SameSubmissions(cfg, s, u, u.queues[BLOCK]);
    forall i | 0 <= i < |u.waiting| ensures AllOk(cfg, u, u.waiting[i]) { SameSubmissions(cfg, s, u, u.waiting[i]); }
  }

  lemma SameSubmissions(cfg: Config, s: State, t: State, q: seq<Pcb>)
    requires cfg.Valid() && AllOk(cfg, s, q) && t.generatorPid == s.generatorPid && t.submitted == s.submitted
    ensures AllOk(cfg, t, q)
  {
    ExtendsKeeps(cfg, s, t, q);
  }

  lemma WaitHolds(cfg: Config, s: State, pcb: Pcb, i: nat)
    requires cfg.Valid() && Held(cfg, s) && PcbOk(cfg, s, pcb) && i < |s.sems| == |s.waiting|
    ensures var u := Served(s, pcb, Wait(i));
            && AllOk(cfg, s, u.queues[READY]) && AllOk(cfg, s, u.queues[BLOCK])
            && forall k :: 0 <= k < |u.waiting| ==> AllOk(cfg, s, u.waiting[k])
  {
    assert AllOk(cfg, s, s.waiting[i]) && AllOk(cfg, s, s.waiting[i] + [pcb]);
  }

  lemma SignalHolds(cfg: Config, s: State, pcb: Pcb, i: nat)
    requires cfg.Valid() && Held(cfg, s) && PcbOk(cfg, s, pcb) && i < |s.sems| == |s.waiting|
    ensures var u := Served(s, pcb, Signal(i));
            && AllOk(cfg, s, u.queues[READY]) && AllOk(cfg, s, u.queues[BLOCK])
            && forall k :: 0 <= k < |u.waiting| ==> AllOk(cfg, s, u.waiting[k])
  {
    var head, line := Woken(s, pcb, i), s.waiting[i] + [pcb];
    assert AllOk(cfg, s, s.waiting[i]) && AllOk(cfg, s, line) && head in line;
    WithoutMembers(s.queues[BLOCK] + [pcb], head.idProcess);
  }

  lemma KilledHolds(cfg: Config, s: State, pid: int)
    requires cfg.Valid() && Held(cfg, s)
    ensures var t := Killed(s, pid);
            Held(cfg, t) && t.generatorPid == s.generatorPid && t.submitted == s.submitted
  {
    var t := Killed(s, pid);
    WithoutMembers(s.queues[NEW], pid);
    WithoutMembers(s.queues[READY], pid);
    WithoutMembers(s.queues[BLOCK], pid);
    forall p | p in t.queues[READY] || p in t.queues[BLOCK] ensures PcbOk(cfg, t, p) { assert PcbOk(cfg, s, p); }
    forall i | 0 <= i < |t.waiting| ensures AllOk(cfg, t, t.waiting[i]) {
      forall p | p in t.waiting[i] ensures PcbOk(cfg, t, p) { assert PcbOk(cfg, s, p); }
    }
  }

  lemma {:induction false} KillsHold(cfg: Config, s: State, pids: seq<int>)
    requires cfg.Valid() && Held(cfg, s)
    ensures var t := KilledAll(s, pids);
            Held(cfg, t) && t.generatorPid == s.generatorPid && t.submitted == s.submitted
    decreases |pids|
  {
    if pids != [] {
      KilledHolds(cfg, s, pids[0]);
      KillsHold(cfg, Killed(s, pids[0]), pids[1..]);
    }
  }

  lemma ExtendedHolds(cfg: Config, s: State, t: State)
    requires cfg.Valid() && Held(cfg, s) && Extends(s, t) && t.waiting == s.waiting
    requires forall p :: p in t.queues[READY] ==> p in s.queues[READY] || PcbOk(cfg, s, p)
    requires forall p :: p in t.queues[BLOCK] ==> p in s.queues[BLOCK]
    requires forall p :: p in t.queues[NEW] ==> p in s.queues[NEW] || NewOk(p)
    ensures Held(cfg, t)
  {
    ExtendsKeeps(cfg, s, t, s.queues[READY]);
    ExtendsKeeps(cfg, s, t, s.queues[BLOCK]);
    forall p | p in t.queues[READY] ensures PcbOk(cfg, t, p) {
      if p !in s.queues[READY] { ExtendsKeeps(cfg, s, t, [p]); }
    }
    forall i | 0 <= i < |t.waiting| ensures AllOk(cfg, t, t.waiting[i]) { ExtendsKeeps(cfg, s, t, s.waiting[i]); }
  }

  lemma ArrivalHolds(cfg: Config, s: State, console: int, program: Program)
    requires cfg.Valid() && Held(cfg, s) && console in s.consoles && Carried(NewPcb(cfg, s.generatorPid + 1, program))
    ensures Held(cfg, Created(cfg, s, console, program)) && Extends(s, Created(cfg, s, console, program))
  {
    ExtendedHolds(cfg, s, Created(cfg, s, console, program));
  }

  /** A new program with its pages is a copy in order. */
  lemma AdmittedIsOk(cfg: Config, s: State, p: Pcb, pages: int)
    requires cfg.Valid() && PS.ConfigOk(KM.Sizes(cfg)) && NewOk(p) && 1 <= p.idProcess <= s.generatorPid
    requires p.idProcess in s.submitted && pages == CodePages(|s.submitted[p.idProcess]|, cfg.pageSize) <= 0x7fff
    ensures PcbOk(cfg, s, p.(pagesCode := pages))
  {
    var q := p.(pagesCode := pages);
    SM.StartDisciplined(KM.Sizes(cfg), FreshCore(q));
    forall i | i in PC.Head(q) ensures PC.FitsShort(i) {
      assert i == pages || i in PC.Head(p);
    }
  }

  lemma PlanHolds(cfg: Config, j: KM.Joint, granted: bool)
    requires KM.Good(cfg, j) && Held(cfg, j.s) && Enabled(j.s, Plan(granted))
    ensures var t := Admitted(cfg, j.s, granted);
            Held(cfg, t) && Held(cfg, Dispatched(t)) && Extends(j.s, t) && Extends(j.s, Dispatched(t))
  {
    var s, t := j.s, Admitted(cfg, j.s, granted);
    if Admits(cfg, s) {
      KM.HeadIsReady(cfg, j);
      assert s.queues[NEW][0] in s.queues[NEW];
      AdmittedIsOk(cfg, s, s.queues[NEW][0], CodePages(|s.codes[0]|, cfg.pageSize));
    }
    ExtendedHolds(cfg, s, t);
    ExtendedHolds(cfg, t, Dispatched(t));
  }

  lemma {:induction false} PostedOk(cfg: Config, s: State, inbox: map<int, seq<Pcb>>, pairs: seq<(Pcb, int)>)
    requires cfg.Valid() && InboxOk(cfg, s, inbox)
    requires forall k :: 0 <= k < |pairs| ==> PcbOk(cfg, s, pairs[k].0)
    ensures InboxOk(cfg, s, Posted(inbox, pairs))
    decreases |pairs|
  {
    if pairs != [] {
      var (p, c) := pairs[0];
      var next := inbox[c := (if c in inbox then inbox[c] else []) + [p]];
      assert PcbOk(cfg, s, p) && AllOk(cfg, s, next[c]);
      assert Posted(inbox, pairs) == Posted(next, pairs[1..]);
      PostedOk(cfg, s, next, pairs[1..]);
    }
  }

  // ----- What happens to other programs' pages

  lemma UntouchedTwice(cfg: Config, m: Memory, m1: Memory, m2: Memory, p: int)
    requires KM.Untouched(cfg, m, m1, p) && KM.Untouched(cfg, m1, m2, p)
    ensures KM.Untouched(cfg, m, m2, p)
  {
    forall g | PT.Mapped(m.rows, p, g) ensures PT.Mapped(m2.rows, p, g) && PS.SameBytes(m, m2, p, g) {
      assert PS.SameBytes(m, m1, p, g) && PS.SameBytes(m1, m2, p, g);
    }
  }

  lemma UntouchedItself(cfg: Config, m: Memory, p: int)
    requires MemoryOk(m) && m.frameSize == cfg.pageSize
    ensures KM.Untouched(cfg, m, m, p)
  {
  }

  /** A kill takes the pages of the killed only, and it is not underway any more. */
  lemma KilledUntouched(cfg: Config, j: KM.Joint, pid: int, p: int)
    requires KM.InOrder(cfg, j) && KM.Underway(Killed(j.s, pid), p)
    ensures KM.Underway(j.s, p) && KM.Untouched(cfg, j.m, KM.KilledMemory(j.s, j.m, pid), p)
  {
    var status := StatusFrom(j.s.queues, pid, 0);
    UntouchedItself(cfg, j.m, p);
    if status >= 0 && status != EXEC {
      assert PidOnce(j.s, pid);
      TotalAtLeast(j.s.queues, status, pid);
      KM.EndedIsOne(j.s, First(j.s.queues[status], pid), EXIT_CONSOLE_KILLED);
      KM.ReleaseLeavesOthers(cfg, j.m, pid, p);
    }
  }

  lemma {:induction false} KillsUntouched(cfg: Config, j: KM.Joint, pids: seq<int>, p: int)
    requires KM.InOrder(cfg, j) && KM.Underway(KilledAll(j.s, pids), p)
    ensures KM.Underway(j.s, p) && KM.Untouched(cfg, j.m, KM.KilledAllMemory(j.s, j.m, pids), p)
    decreases |pids|
  {
    UntouchedItself(cfg, j.m, p);
    if pids != [] {
      var j' := KM.Joint(Killed(j.s, pids[0]), KM.KilledMemory(j.s, j.m, pids[0]));
      KM.KilledStays(cfg, j, pids[0]);
      KillsUntouched(cfg, j', pids[1..], p);
      KilledUntouched(cfg, j, pids[0], p);
      UntouchedTwice(cfg, j.m, j'.m, KM.KilledAllMemory(j.s, j.m, pids), p);
    }
  }

  lemma DropUntouched(cfg: Config, j: KM.Joint, console: int, p: int)
    requires KM.InOrder(cfg, j) && console in j.s.consoles && KM.Underway(Dropped(j.s, console), p)
    ensures KM.Underway(j.s, p) && KM.Untouched(cfg, j.m, KM.MemoryAfter(cfg, j, KM.Kernel(ConsoleDrops(console))), p)
  {
    var r := j.s.(consoles := j.s.consoles - {console});
    assert forall x :: PidOnce(j.s, x) ==> PidOnce(r, x) && KM.Underway(r, x) == KM.Underway(j.s, x);
    KM.SameMemory(cfg, j, r);
    KillsUntouched(cfg, KM.Joint(r, j.m), j.s.consoles[console], p);
  }

  /** Planning gives pages to a program that was not underway. */
  lemma PlanUntouched(cfg: Config, j: KM.Joint, p: int)
    requires KM.Good(cfg, j) && Enabled(j.s, Plan(KM.Granted(cfg, j))) && KM.Underway(j.s, p)
    ensures KM.Untouched(cfg, j.m, KM.Planned(cfg, j), p)
  {
    UntouchedItself(cfg, j.m, p);
    if Admits(cfg, j.s) {
      KM.HeadIsReady(cfg, j);
      assert PS.UserPid(j.s.queues[NEW][0].idProcess) == j.s.queues[NEW][0].idProcess;
      if KM.Granted(cfg, j) { KM.LoadingLoads(cfg, j.m, j.s.queues[NEW][0].idProcess, j.s.codes[0]); }
    }
  }

  /** At any regular event the programs underway before and after keep their pages. */
  lemma EventUntouched(cfg: Config, j: KM.Joint, e: Event, p: int)
    requires KM.Good(cfg, j) && KM.CanHappen(cfg, j, KM.Kernel(e)) && KM.Regular(cfg, j, KM.Kernel(e))
    requires KM.Underway(j.s, p) && KM.Underway(KM.After(cfg, j, KM.Kernel(e)).s, p)
    ensures KM.Untouched(cfg, j.m, KM.After(cfg, j, KM.Kernel(e)).m, p)
  {
    UntouchedItself(cfg, j.m, p);
    match e {
      case ConsoleDrops(c) => DropUntouched(cfg, j, c, p);
      case Plan(_) => PlanUntouched(cfg, j, p);
      case Syscall(c, pcb, call) =>
        if call.ProgramEnd? {
          EndedCounts(Take(j.s, EXEC, pcb.idProcess), pcb, EXIT_SUCCESSFUL, pcb.idProcess);
          KM.ReleaseLeavesOthers(cfg, j.m, pcb.idProcess, p);
        }
      case _ =>
    }
  }

  // ----- Values in the stack pages

  /** The program whose pages a pid owns, as far as memory access depends on it. */
  function Holder(cfg: Config, s: State, pid: int): PS.Process
    requires cfg.Valid() && pid in s.submitted
  {
    PS.Process(FreshCore(PS.NewPcb(pid, 0, CodePages(|s.submitted[pid]|, cfg.pageSize))), s.submitted[pid])
  }

  ghost predicate RecallsAt(cfg: Config, j: KM.Joint, pid: int, a: int, value: int)
    requires cfg.Valid()
  {
    && KM.Underway(j.s, pid) && pid in j.s.submitted && PS.Slot(KM.Sizes(cfg), a)
    && PS.Dereferenced(KM.Sizes(cfg), j.m, Holder(cfg, j.s, pid).core.pcb, a) == Some(value)
  }

  /** The memory holds the values last assigned, keyed by program and address. */
  ghost predicate Recalls(cfg: Config, j: KM.Joint, store: PS.Store)
    requires cfg.Valid()
  {
    forall pid, a | (pid, a) in store :: RecallsAt(cfg, j, pid, a, store[(pid, a)])
  }

  /** What an assignment adds to them. */
  function Stored(cfg: Config, w: Whole, store: PS.Store, x: Step): PS.Store
    requires cfg.Valid()
  {
    match x
    case Assigns(c, a, value, _) =>
      if c in w.cpus then store[(w.cpus[c].pcb.idProcess, a) := Short(value)] else store
    case Returns(c, value, _) =>
      if c in w.cpus && w.cpus[c].pcb.stack != []
      then store[(w.cpus[c].pcb.idProcess, PS.ReturnPlace(KM.Sizes(cfg), w.cpus[c])) := Short(value)]
      else store
    case _ => store
  }

  /** They are lost with the program's pages, and not before. */
  function Remembered(s: State, store: PS.Store): PS.Store {
    map k | k in store && KM.Underway(s, k.0) :: store[k]
  }

  function NextStore(cfg: Config, w: Whole, store: PS.Store, x: Step): PS.Store
    requires 0 < cfg.pageSize < 0x8000 && CanHappen(cfg, w, x)
  {
    Remembered(After(cfg, w, x).j.s, Stored(cfg, w, store, x))
  }

  lemma StackFits(cfg: Config, j: KM.Joint, core: SM.Core)
    requires KM.InOrder(cfg, j) && CopyOk(cfg, j.s, core)
    ensures KM.Sizes(cfg).stackSize <= 0x7fff && core.pcb.pagesCode + cfg.stackSize <= 0x7fff
  {
    assert KM.SubmissionOk(cfg, j.s, core.pcb.idProcess);
  }

  /** Any copy of a program that is underway finds its pages and its code. */
  lemma CopyIsPlaced(cfg: Config, j: KM.Joint, core: SM.Core)
    requires KM.InOrder(cfg, j) && CopyOk(cfg, j.s, core) && KM.Underway(j.s, core.pcb.idProcess)
    ensures PS.Placed(KM.Sizes(cfg), j.m, core.pcb.idProcess, PS.Process(core, j.s.submitted[core.pcb.idProcess]))
  {
    StackFits(cfg, j, core);
    assert KM.PagesOk(cfg, j, core.pcb.idProcess);
  }

  lemma HolderIsPlaced(cfg: Config, j: KM.Joint, pid: int)
    requires KM.InOrder(cfg, j) && KM.Underway(j.s, pid)
    ensures pid in j.s.submitted && PS.Placed(KM.Sizes(cfg), j.m, pid, Holder(cfg, j.s, pid))
  {
    assert KM.SubmissionOk(cfg, j.s, pid);
    SM.StartDisciplined(KM.Sizes(cfg), Holder(cfg, j.s, pid).core);
    CopyIsPlaced(cfg, j, Holder(cfg, j.s, pid).core);
  }

  /** Every copy reads and writes as the holder of the pages does. */
  lemma CopyReads(cfg: Config, j: KM.Joint, core: SM.Core, a: int)
    requires cfg.Valid() && CopyOk(cfg, j.s, core)
    ensures PS.Dereferenced(KM.Sizes(cfg), j.m, core.pcb, a)
         == PS.Dereferenced(KM.Sizes(cfg), j.m, Holder(cfg, j.s, core.pcb.idProcess).core.pcb, a)
    ensures forall value, behind: PS.Behind ::
              PS.Assigned(KM.Sizes(cfg), j.m, core.pcb, a, value, behind)
              == PS.Assigned(KM.Sizes(cfg), j.m, Holder(cfg, j.s, core.pcb.idProcess).core.pcb, a, value, behind)
  {
  }

  lemma KeptRecalls(cfg: Config, j: KM.Joint, j': KM.Joint, pid: int, a: int, value: int)
    requires KM.InOrder(cfg, j) && RecallsAt(cfg, j, pid, a, value) && Extends(j.s, j'.s)
    requires KM.Underway(j'.s, pid) && KM.Untouched(cfg, j.m, j'.m, pid)
    ensures RecallsAt(cfg, j', pid, a, value)
  {
    HolderIsPlaced(cfg, j, pid);
    PS.KeptIsPlaced(KM.Sizes(cfg), j.m, j'.m, pid, Holder(cfg, j.s, pid));
  }

  lemma AssignIsStore(cfg: Config, j: KM.Joint, core: SM.Core, a: int, value: int, behind: PS.Behind)
    requires KM.Good(cfg, j) && CopyOk(cfg, j.s, core) && KM.Underway(j.s, core.pcb.idProcess)
    requires PS.Slot(KM.Sizes(cfg), a)
    ensures KM.Good(cfg, j.(m := PS.Assigned(KM.Sizes(cfg), j.m, core.pcb, a, value, behind)))
  {
    var pid, q := core.pcb.idProcess, PS.Process(core, j.s.submitted[core.pcb.idProcess]);
    var page, offset := PS.PageOfSlot(KM.Sizes(cfg), q, a), a % cfg.pageSize;
    CopyIsPlaced(cfg, j, core);
    PS.SlotIsInPage(KM.Sizes(cfg), j.m, pid, q, a);
    KM.StoreStays(cfg, j, KM.Store(pid, page, offset, PackBytes(2, value) + behind));
  }

  lemma AssignRecallsAt(cfg: Config, j: KM.Joint, pid: int, a: int, value: int, behind: PS.Behind,
                        p: int, b: int, before: int)
    requires KM.InOrder(cfg, j) && KM.Underway(j.s, pid) && PS.Slot(KM.Sizes(cfg), a)
    requires RecallsAt(cfg, j, p, b, before) && (p, b) != (pid, a) && pid in j.s.submitted
    ensures RecallsAt(cfg, j.(m := PS.Assigned(KM.Sizes(cfg), j.m, Holder(cfg, j.s, pid).core.pcb, a, value, behind)),
                      p, b, before)
  {
    HolderIsPlaced(cfg, j, pid);
    HolderIsPlaced(cfg, j, p);
    PS.AssignElsewhere(KM.Sizes(cfg), j.m, pid, Holder(cfg, j.s, pid), a, value, behind, p, Holder(cfg, j.s, p), b);
  }

  lemma AssignStays(cfg: Config, j: KM.Joint, store: PS.Store, core: SM.Core, a: int, value: int, behind: PS.Behind)
    requires KM.Good(cfg, j) && Recalls(cfg, j, store)
    requires CopyOk(cfg, j.s, core) && KM.Underway(j.s, core.pcb.idProcess) && PS.Slot(KM.Sizes(cfg), a)
    ensures var j' := j.(m := PS.Assigned(KM.Sizes(cfg), j.m, core.pcb, a, value, behind));
            KM.Good(cfg, j') && Recalls(cfg, j', store[(core.pcb.idProcess, a) := Short(value)])
  {
    var pid := core.pcb.idProcess;
    var j' := j.(m := PS.Assigned(KM.Sizes(cfg), j.m, core.pcb, a, value, behind));
    var store' := store[(pid, a) := Short(value)];
    AssignIsStore(cfg, j, core, a, value, behind);
    CopyReads(cfg, j, core, a);
    HolderIsPlaced(cfg, j, pid);
    PS.AssignThenDereference(KM.Sizes(cfg), j.m, pid, Holder(cfg, j.s, pid), a, value, behind);
    forall p, b | (p, b) in store' ensures RecallsAt(cfg, j', p, b, store'[(p, b)]) {
      if (p, b) != (pid, a) { AssignRecallsAt(cfg, j, pid, a, value, behind, p, b, store[(p, b)]); }
    }
  }

  lemma EventRecalls(cfg: Config, j: KM.Joint, e: Event, store: PS.Store)
    requires KM.Good(cfg, j) && Recalls(cfg, j, store)
    requires KM.CanHappen(cfg, j, KM.Kernel(e)) && KM.Regular(cfg, j, KM.Kernel(e))
    requires Extends(j.s, KM.After(cfg, j, KM.Kernel(e)).s)
    ensures var j' := KM.After(cfg, j, KM.Kernel(e)); Recalls(cfg, j', Remembered(j'.s, store))
  {
    var j' := KM.After(cfg, j, KM.Kernel(e));
    forall pid, a | (pid, a) in Remembered(j'.s, store) ensures RecallsAt(cfg, j', pid, a, store[(pid, a)]) {
      assert RecallsAt(cfg, j, pid, a, store[(pid, a)]);
      EventUntouched(cfg, j, e, pid);
      KeptRecalls(cfg, j, j', pid, a, store[(pid, a)]);
    }
  }

  // ----- Steps

  ghost predicate Good(cfg: Config, w: Whole, store: PS.Store) {
    KM.Good(cfg, w.j) && Copies(cfg, w) && Recalls(cfg, w.j, store)
  }

  /** What is asked of the steps of a run: kernel events that keep programs and pages
      together; programs that arrive, and PCBs that are sent, fit their fields; and a CPU
      does not go on assigning for a program that has been killed or has ended. */
  ghost predicate Regular(cfg: Config, w: Whole, x: Step)
    requires cfg.Valid() && CanHappen(cfg, w, x)
  {
    match x
    case Handles(e) =>
      && KM.Regular(cfg, w.j, KM.Kernel(e))
      && (e.NewProgram? ==> Carried(NewPcb(cfg, w.j.s.generatorPid + 1, e.program)))
    case Calls(c, call, rest) =>
      && Carried(w.cpus[c].pcb)
      && KM.Regular(cfg, w.j, KM.Kernel(Syscall(c, Arrived(w.cpus[c].pcb, rest).value, call)))
    case Assigns(c, _, _, _) => KM.Underway(w.j.s, w.cpus[c].pcb.idProcess)
    case Returns(c, _, _) => KM.Underway(w.j.s, w.cpus[c].pcb.idProcess)
    case _ => true
  }

  /** A copy that fits its fields arrives as it was sent. */
  lemma ArrivesAsSent(cfg: Config, j: KM.Joint, p: Pcb, rest: seq<byte>)
    requires KM.InOrder(cfg, j) && PcbOk(cfg, j.s, p)
    ensures Arrived(p, rest) == Some(p)
  {
    StackFits(cfg, j, FreshCore(p));
    TripOfCoreIff(KM.Sizes(cfg), FreshCore(p), rest);
  }

  lemma ExtendsCopies(cfg: Config, w: Whole, j': KM.Joint)
    requires cfg.Valid() && Copies(cfg, w) && Extends(w.j.s, j'.s) && Held(cfg, j'.s)
    ensures Copies(cfg, w.(j := j'))
  {
    forall c | c in w.inbox ensures AllOk(cfg, j'.s, w.inbox[c]) { ExtendsKeeps(cfg, w.j.s, j'.s, w.inbox[c]); }
    forall c | c in w.cpus ensures CopyOk(cfg, j'.s, w.cpus[c]) { assert CopyOk(cfg, w.j.s, w.cpus[c]); }
  }

  lemma EventHolds(cfg: Config, w: Whole, e: Event)
    requires KM.Good(cfg, w.j) && Held(cfg, w.j.s) && CanHappen(cfg, w, Handles(e)) && Regular(cfg, w, Handles(e))
    ensures var t := Next(cfg, w.j.s, e); Held(cfg, t) && Extends(w.j.s, t)
  {
    var s := w.j.s;
    match e {
      case NewProgram(c, program) => ArrivalHolds(cfg, s, c, program);
      case ConsoleDrops(c) =>
        var r := s.(consoles := s.consoles - {c});
        ExtendedHolds(cfg, s, r);
        KillsHold(cfg, r, s.consoles[c]);
      case Plan(granted) => PlanHolds(cfg, w.j, granted);
      case ConsoleConnects(_) => ExtendedHolds(cfg, s, Next(cfg, s, e));
      case CpuConnects(_) => ExtendedHolds(cfg, s, Next(cfg, s, e));
      case Syscall(_, _, _) => assert false;
    }
  }

  /** What a CPU is sent is what the ready queue held. */
  lemma PlanCopies(cfg: Config, w: Whole, granted: bool)
    requires KM.Good(cfg, w.j) && Copies(cfg, w)
    requires CanHappen(cfg, w, Handles(Plan(granted))) && Regular(cfg, w, Handles(Plan(granted)))
    ensures Copies(cfg, After(cfg, w, Handles(Plan(granted))))
  {
    var t := Admitted(cfg, w.j.s, granted);
    var u, pairs := Dispatched(t), KA.Pairing(t);
    PlanHolds(cfg, w.j, granted);
    ExtendsCopies(cfg, w, KM.After(cfg, w.j, KM.Kernel(Plan(granted))));
    forall k | 0 <= k < |pairs| ensures PcbOk(cfg, u, pairs[k].0) {
      assert pairs[k].0 in t.queues[READY];
      assert PcbOk(cfg, t, pairs[k].0);
    }
    PostedOk(cfg, u, w.inbox, pairs);
  }

  lemma HandlesStays(cfg: Config, w: Whole, store: PS.Store, e: Event)
    requires Good(cfg, w, store) && CanHappen(cfg, w, Handles(e)) && Regular(cfg, w, Handles(e))
    ensures Good(cfg, After(cfg, w, Handles(e)), NextStore(cfg, w, store, Handles(e)))
  {
    EventHolds(cfg, w, e);
    KM.StepStaysIff(cfg, w.j, KM.Kernel(e));
    EventRecalls(cfg, w.j, e, store);
    if e.Plan? {
      PlanCopies(cfg, w, e.granted);
    } else {
      ExtendsCopies(cfg, w, KM.After(cfg, w.j, KM.Kernel(e)));
    }
  }

  lemma CallsStays(cfg: Config, w: Whole, store: PS.Store, c: int, call: Call, rest: seq<byte>)
    requires Good(cfg, w, store) && CanHappen(cfg, w, Calls(c, call, rest)) && Regular(cfg, w, Calls(c, call, rest))
    ensures Good(cfg, After(cfg, w, Calls(c, call, rest)), NextStore(cfg, w, store, Calls(c, call, rest)))
  {
    CallArrives(cfg, w, c, rest);
    CallStays(cfg, w, store, c, w.cpus[c].pcb, call);
  }

  lemma CallArrives(cfg: Config, w: Whole, c: int, rest: seq<byte>)
    requires KM.InOrder(cfg, w.j) && Copies(cfg, w) && c in w.cpus && Carried(w.cpus[c].pcb)
    ensures PcbOk(cfg, w.j.s, w.cpus[c].pcb) && Arrived(w.cpus[c].pcb, rest) == Some(w.cpus[c].pcb)
  {
    assert CopyOk(cfg, w.j.s, w.cpus[c]);
    ArrivesAsSent(cfg, w.j, w.cpus[c].pcb, rest);
  }

  lemma CallStays(cfg: Config, w: Whole, store: PS.Store, c: int, p: Pcb, call: Call)
    requires Good(cfg, w, store) && PcbOk(cfg, w.j.s, p) && Enabled(w.j.s, Syscall(c, p, call))
    requires KM.Regular(cfg, w.j, KM.Kernel(Syscall(c, p, call)))
    ensures var j' := KM.After(cfg, w.j, KM.Kernel(Syscall(c, p, call)));
            Good(cfg, w.(j := j'), Remembered(j'.s, store))
  {
    HeldAfterCall(cfg, w.j.s, c, p, call);
    KM.StepStaysIff(cfg, w.j, KM.Kernel(Syscall(c, p, call)));
    EventRecalls(cfg, w.j, Syscall(c, p, call), store);
    ExtendsCopies(cfg, w, KM.After(cfg, w.j, KM.Kernel(Syscall(c, p, call))));
  }

  /** What is kept when the kernel's state is. */
  lemma SameStateRecalls(cfg: Config, j: KM.Joint, store: PS.Store)
    requires cfg.Valid() && Recalls(cfg, j, store)
    ensures Recalls(cfg, j, Remembered(j.s, store))
  {
    forall pid, a | (pid, a) in Remembered(j.s, store) ensures RecallsAt(cfg, j, pid, a, store[(pid, a)]) {
    }
  }

  lemma TakesUpStays(cfg: Config, w: Whole, store: PS.Store, c: int, rest: seq<byte>)
    requires Good(cfg, w, store) && CanHappen(cfg, w, TakesUp(c, rest))
    ensures Good(cfg, After(cfg, w, TakesUp(c, rest)), NextStore(cfg, w, store, TakesUp(c, rest)))
  {
    TakenUp(cfg, w, c, rest);
    SameStateRecalls(cfg, w.j, store);
    TakenUpCopies(cfg, w, c);
  }

  /** A CPU takes up the oldest PCB it was sent, as it was sent. */
  lemma TakenUp(cfg: Config, w: Whole, c: int, rest: seq<byte>)
    requires 0 < cfg.pageSize < 0x8000 && KM.InOrder(cfg, w.j) && Copies(cfg, w)
    requires CanHappen(cfg, w, TakesUp(c, rest))
    ensures After(cfg, w, TakesUp(c, rest))
         == Whole(w.j, w.inbox[c := w.inbox[c][1..]], w.cpus[c := FreshCore(w.inbox[c][0])])
  {
    var p := w.inbox[c][0];
    assert AllOk(cfg, w.j.s, w.inbox[c]) && p in w.inbox[c] && PcbOk(cfg, w.j.s, p);
    ArrivesAsSent(cfg, w.j, p, rest);
  }

  lemma TakenUpCopies(cfg: Config, w: Whole, c: int)
    requires cfg.Valid() && Copies(cfg, w) && c in w.inbox && w.inbox[c] != []
    ensures Copies(cfg, Whole(w.j, w.inbox[c := w.inbox[c][1..]], w.cpus[c := FreshCore(w.inbox[c][0])]))
  {
    assert AllOk(cfg, w.j.s, w.inbox[c]) && w.inbox[c][0] in w.inbox[c];
    assert AllOk(cfg, w.j.s, w.inbox[c][1..]);
  }

  lemma DoesStays(cfg: Config, w: Whole, store: PS.Store, c: int, op: SM.Primitive)
    requires Good(cfg, w, store) && CanHappen(cfg, w, Does(c, op))
    ensures Good(cfg, After(cfg, w, Does(c, op)), NextStore(cfg, w, store, Does(c, op)))
  {
    assert CopyOk(cfg, w.j.s, w.cpus[c]);
    SM.StepKeepsDiscipline(KM.Sizes(cfg), w.cpus[c], op);
    PS.StepKeepsReturns(KM.Sizes(cfg), w.cpus[c], op);
    PS.StepShape(KM.Sizes(cfg), w.cpus[c], op);
    SameStateRecalls(cfg, w.j, store);
  }

  lemma AssignsStays(cfg: Config, w: Whole, store: PS.Store, c: int, a: int, value: int, behind: PS.Behind)
    requires Good(cfg, w, store)
    requires CanHappen(cfg, w, Assigns(c, a, value, behind)) && Regular(cfg, w, Assigns(c, a, value, behind))
    ensures var x := Assigns(c, a, value, behind); Good(cfg, After(cfg, w, x), NextStore(cfg, w, store, x))
  {
    var j' := Assigned(cfg, w, w.cpus[c], a, value, behind);
    assert CopyOk(cfg, w.j.s, w.cpus[c]);
    PS.LiveIsSlot(KM.Sizes(cfg), w.cpus[c], a);
    AssignStays(cfg, w.j, store, w.cpus[c], a, value, behind);
    SameStateRecalls(cfg, j', Stored(cfg, w, store, Assigns(c, a, value, behind)));
    ExtendsCopies(cfg, w, j');
  }

  lemma ReturnsStays(cfg: Config, w: Whole, store: PS.Store, c: int, value: int, behind: PS.Behind)
    requires Good(cfg, w, store)
    requires CanHappen(cfg, w, Returns(c, value, behind)) && Regular(cfg, w, Returns(c, value, behind))
    ensures Good(cfg, After(cfg, w, Returns(c, value, behind)), NextStore(cfg, w, store, Returns(c, value, behind)))
  {
    var core := w.cpus[c];
    var a := PS.ReturnPlace(KM.Sizes(cfg), core);
    var j' := Assigned(cfg, w, core, a, value, behind);
    assert CopyOk(cfg, w.j.s, core);
    CopyIsPlaced(cfg, w.j, core);
    PS.ReturnPlaceIsSlot(KM.Sizes(cfg), w.j.m, core.pcb.idProcess,
                         PS.Process(core, w.j.s.submitted[core.pcb.idProcess]));
    AssignStays(cfg, w.j, store, core, a, value, behind);
    SameStateRecalls(cfg, j', Stored(cfg, w, store, Returns(c, value, behind)));
    ExtendsCopies(cfg, w, j');
    FinishedCopy(cfg, w.j.s, core);
  }

  lemma FinishedCopy(cfg: Config, s: State, core: SM.Core)
    requires cfg.Valid() && cfg.stackSize >= 0 && CopyOk(cfg, s, core) && !core.halted
    ensures CopyOk(cfg, s, SM.Finished(core))
  {
    assert SM.Step(KM.Sizes(cfg), core, SM.Finish) == SM.Finished(core);
    SM.StepKeepsDiscipline(KM.Sizes(cfg), core, SM.Finish);
    PS.StepKeepsReturns(KM.Sizes(cfg), core, SM.Finish);
  }

  /** Every regular step keeps programs with their pages, copies in order, and memory in
      agreement with what was assigned. */
  lemma StepStays(cfg: Config, w: Whole, store: PS.Store, x: Step)
    requires Good(cfg, w, store) && CanHappen(cfg, w, x) && Regular(cfg, w, x)
    ensures Good(cfg, After(cfg, w, x), NextStore(cfg, w, store, x))
  {
    match x {
      case Handles(e) => HandlesStays(cfg, w, store, e);
      case TakesUp(c, rest) => TakesUpStays(cfg, w, store, c, rest);
      case Does(c, op) => DoesStays(cfg, w, store, c, op);
      case Assigns(c, a, value, behind) => AssignsStays(cfg, w, store, c, a, value, behind);
      case Returns(c, value, behind) => ReturnsStays(cfg, w, store, c, value, behind);
      case Calls(c, call, rest) => CallsStays(cfg, w, store, c, call, rest);
    }
  }

  // ----- Runs

  ghost predicate RegularRun(cfg: Config, w: Whole, xs: seq<Step>)
    requires 0 < cfg.pageSize < 0x8000
    decreases |xs|
  {
    xs == [] || (CanHappen(cfg, w, xs[0]) && Regular(cfg, w, xs[0]) && RegularRun(cfg, After(cfg, w, xs[0]), xs[1..]))
  }

  ghost function RunWhole(cfg: Config, w: Whole, xs: seq<Step>): Whole
    requires 0 < cfg.pageSize < 0x8000 && RegularRun(cfg, w, xs)
    decreases |xs|
  {
    if xs == [] then w else RunWhole(cfg, After(cfg, w, xs[0]), xs[1..])
  }

  ghost function RunStore(cfg: Config, w: Whole, store: PS.Store, xs: seq<Step>): PS.Store
    requires 0 < cfg.pageSize < 0x8000 && RegularRun(cfg, w, xs)
    decreases |xs|
  {
    if xs == [] then store else RunStore(cfg, After(cfg, w, xs[0]), NextStore(cfg, w, store, xs[0]), xs[1..])
  }

  lemma {:induction false} RunStays(cfg: Config, w: Whole, store: PS.Store, xs: seq<Step>)
    requires 0 < cfg.pageSize < 0x8000 && Good(cfg, w, store) && RegularRun(cfg, w, xs)
    ensures Good(cfg, RunWhole(cfg, w, xs), RunStore(cfg, w, store, xs))
    decreases |xs|
  {
    if xs != [] {
      StepStays(cfg, w, store, xs[0]);
      RunStays(cfg, After(cfg, w, xs[0]), NextStore(cfg, w, store, xs[0]), xs[1..]);
    }
  }

  /** Some CPU works on the copy, or it is on its way to one, ready, blocked or waiting. */
  ghost predicate IsCopy(w: Whole, p: Pcb) {
    || (exists c :: c in w.cpus && w.cpus[c].pcb == p)
    || (exists c :: c in w.inbox && p in w.inbox[c])
    || p in w.j.s.queues[READY] || p in w.j.s.queues[BLOCK]
    || (exists i :: 0 <= i < |w.j.s.waiting| && p in w.j.s.waiting[i])
  }

  lemma CopiesAreOk(cfg: Config, w: Whole, p: Pcb)
    requires cfg.Valid() && Copies(cfg, w) && IsCopy(w, p)
    ensures CopyOk(cfg, w.j.s, FreshCore(p))
  {
    if c :| c in w.cpus && w.cpus[c].pcb == p {
      assert CopyOk(cfg, w.j.s, w.cpus[c]);
    } else if c :| c in w.inbox && p in w.inbox[c] {
      assert PcbOk(cfg, w.j.s, p);
    } else if i :| 0 <= i < |w.j.s.waiting| && p in w.j.s.waiting[i] {
      assert AllOk(cfg, w.j.s, w.j.s.waiting[i]) && PcbOk(cfg, w.j.s, p);
    } else {
      assert PcbOk(cfg, w.j.s, p);
    }
  }

  /** After every regular run of kernel, CPUs and memory, each copy of the PCB of a program
      that is underway, wherever the copy is, reads at each of its live addresses the 16
      bits that any CPU assigned there last since the program was admitted. */
  lemma EveryCopyReadsBack(cfg: Config, w: Whole, store: PS.Store, xs: seq<Step>, p: Pcb, a: int)
    requires 0 < cfg.pageSize < 0x8000 && Good(cfg, w, store) && RegularRun(cfg, w, xs)
    requires IsCopy(RunWhole(cfg, w, xs), p) && KM.Underway(RunWhole(cfg, w, xs).j.s, p.idProcess)
    requires (p.idProcess, a) in RunStore(cfg, w, store, xs)
    ensures PS.Dereferenced(KM.Sizes(cfg), RunWhole(cfg, w, xs).j.m, p, a)
         == Some(RunStore(cfg, w, store, xs)[(p.idProcess, a)])
  {
    var w' := RunWhole(cfg, w, xs);
    RunStays(cfg, w, store, xs);
    CopiesAreOk(cfg, w', p);
    CopyReads(cfg, w'.j, FreshCore(p), a);
  }

  /** What the kernel queues, blocks or wakes after a call is the PCB as the CPU had it. */
  lemma CallHandsOver(cfg: Config, w: Whole, store: PS.Store, c: int, call: Call, rest: seq<byte>)
    requires Good(cfg, w, store) && CanHappen(cfg, w, Calls(c, call, rest)) && Regular(cfg, w, Calls(c, call, rest))
    ensures After(cfg, w, Calls(c, call, rest)).j.s == Called(w.j.s, c, w.cpus[c].pcb, call)
  {
    CallArrives(cfg, w, c, rest);
  }

  /** A program dispatched again, after a wait or for the first time, goes on with the PCB
      that was queued, and reads back what was last assigned. */
  lemma ResumedReadsBack(cfg: Config, w: Whole, store: PS.Store, xs: seq<Step>, c: int, rest: seq<byte>)
    requires 0 < cfg.pageSize < 0x8000 && Good(cfg, w, store) && RegularRun(cfg, w, xs)
    requires CanHappen(cfg, RunWhole(cfg, w, xs), TakesUp(c, rest))
    ensures var w', store' := RunWhole(cfg, w, xs), RunStore(cfg, w, store, xs);
            var w'' := After(cfg, w', TakesUp(c, rest));
            var p := w'.inbox[c][0];
            && c in w''.cpus && w''.cpus[c] == FreshCore(p)
            && w''.inbox == w'.inbox[c := w'.inbox[c][1..]]
            && forall a :: KM.Underway(w'.j.s, p.idProcess) && (p.idProcess, a) in store' ==>
                 PS.Dereferenced(KM.Sizes(cfg), w''.j.m, w''.cpus[c].pcb, a) == Some(store'[(p.idProcess, a)])
  {
    var w', store' := RunWhole(cfg, w, xs), RunStore(cfg, w, store, xs);
    var p := w'.inbox[c][0];
    RunStays(cfg, w, store, xs);
    TakenUp(cfg, w', c, rest);
    assert p in w'.inbox[c] && IsCopy(w', p);
    forall a | KM.Underway(w'.j.s, p.idProcess) && (p.idProcess, a) in store'
      ensures PS.Dereferenced(KM.Sizes(cfg), w'.j.m, p, a) == Some(store'[(p.idProcess, a)])
    {
      EveryCopyReadsBack(cfg, w, store, xs, p, a);
    }
  }

  // ----- The same without reference to a store

  /** The step stores something at address a of the program. */
  predicate StoresAt(cfg: Config, w: Whole, x: Step, pid: int, a: int) {
    || (x.Assigns? && x.cpu in w.cpus && w.cpus[x.cpu].pcb.idProcess == pid && x.address == a)
    || (x.Returns? && x.cpu in w.cpus && w.cpus[x.cpu].pcb.idProcess == pid && w.cpus[x.cpu].pcb.stack != []
        && PS.ReturnPlace(KM.Sizes(cfg), w.cpus[x.cpu]) == a)
  }

  /** Over the run the program stays admitted and unfinished, and no CPU stores there. */
  ghost predicate Spares(cfg: Config, w: Whole, xs: seq<Step>, pid: int, a: int)
    requires 0 < cfg.pageSize < 0x8000 && RegularRun(cfg, w, xs)
    decreases |xs|
  {
    xs == [] ||
    var w' := After(cfg, w, xs[0]);
    !StoresAt(cfg, w, xs[0], pid, a) && KM.Underway(w'.j.s, pid) && Spares(cfg, w', xs[1..], pid, a)
  }

  lemma {:induction false} SparedIsKept(cfg: Config, w: Whole, store: PS.Store, xs: seq<Step>, pid: int, a: int)
    requires 0 < cfg.pageSize < 0x8000 && RegularRun(cfg, w, xs) && (pid, a) in store && Spares(cfg, w, xs, pid, a)
    ensures var store' := RunStore(cfg, w, store, xs); (pid, a) in store' && store'[(pid, a)] == store[(pid, a)]
    decreases |xs|
  {
    if xs != [] { SparedIsKept(cfg, After(cfg, w, xs[0]), NextStore(cfg, w, store, xs[0]), xs[1..], pid, a); }
  }

  /** What a CPU assigns to a variable of its program is what every copy of the program's PCB
      reads there after every run in which no CPU stores there again and the program is
      neither finished nor killed, however often it waits and is dispatched meanwhile. */
  lemma AssignmentLasts(cfg: Config, w: Whole, c: int, a: int, value: int, behind: PS.Behind, xs: seq<Step>, p: Pcb)
    requires 0 < cfg.pageSize < 0x8000 && KM.Good(cfg, w.j) && Copies(cfg, w)
    requires CanHappen(cfg, w, Assigns(c, a, value, behind)) && Regular(cfg, w, Assigns(c, a, value, behind))
    requires RegularRun(cfg, After(cfg, w, Assigns(c, a, value, behind)), xs)
    requires Spares(cfg, After(cfg, w, Assigns(c, a, value, behind)), xs, w.cpus[c].pcb.idProcess, a)
    requires IsCopy(RunWhole(cfg, After(cfg, w, Assigns(c, a, value, behind)), xs), p)
    requires p.idProcess == w.cpus[c].pcb.idProcess
    ensures var w' := RunWhole(cfg, After(cfg, w, Assigns(c, a, value, behind)), xs);
            PS.Dereferenced(KM.Sizes(cfg), w'.j.m, p, a) == Some(Short(value))
  {
    var x, pid := Assigns(c, a, value, behind), p.idProcess;
    var w1, store1 := After(cfg, w, x), NextStore(cfg, w, map[], x);
    StepStays(cfg, w, map[], x);
    assert (pid, a) in store1 && store1[(pid, a)] == Short(value);
    SparedIsKept(cfg, w1, store1, xs, pid, a);
    SparedIsUnderway(cfg, w1, xs, pid, a);
    EveryCopyReadsBack(cfg, w1, store1, xs, p, a);
  }

  lemma {:induction false} SparedIsUnderway(cfg: Config, w: Whole, xs: seq<Step>, pid: int, a: int)
    requires 0 < cfg.pageSize < 0x8000 && RegularRun(cfg, w, xs) && Spares(cfg, w, xs, pid, a)
    requires KM.Underway(w.j.s, pid)
    ensures KM.Underway(RunWhole(cfg, w, xs).j.s, pid)
    decreases |xs|
  {
    if xs != [] { SparedIsUnderway(cfg, After(cfg, w, xs[0]), xs[1..], pid, a); }
  }

  // ----- Who is sent what

  function Mail(inbox: map<int, seq<Pcb>>, c: int): seq<Pcb> { if c in inbox then inbox[c] else [] }

  /** What a dispatch sends to one CPU, in order. */
  function SentTo(pairs: seq<(Pcb, int)>, c: int): seq<Pcb> {
    if pairs == [] then [] else (if pairs[0].1 == c then [pairs[0].0] else []) + SentTo(pairs[1..], c)
  }

  lemma {:induction false} PostedMail(inbox: map<int, seq<Pcb>>, pairs: seq<(Pcb, int)>, c: int)
    ensures Mail(Posted(inbox, pairs), c) == Mail(inbox, c) + SentTo(pairs, c)
    decreases |pairs|
  {
    if pairs != [] {
      var (p, d) := pairs[0];
      var next := inbox[d := (if d in inbox then inbox[d] else []) + [p]];
      assert Posted(inbox, pairs) == Posted(next, pairs[1..]);
      PostedMail(next, pairs[1..], c);
      assert Mail(next, c) + SentTo(pairs[1..], c) == Mail(inbox, c) + SentTo(pairs, c);
    }
  }

  lemma {:induction false} SentToOne(pairs: seq<(Pcb, int)>, k: nat)
    requires k < |pairs| && forall i :: 0 <= i < |pairs| && i != k ==> pairs[i].1 != pairs[k].1
    ensures SentTo(pairs, pairs[k].1) == [pairs[k].0]
    decreases |pairs|
  {
    if k == 0 {
      assert forall i :: 0 <= i < |pairs[1..]| ==> pairs[1..][i] == pairs[i + 1];
      SentToNone(pairs[1..], pairs[0].1);
    } else {
      assert pairs[1..][k - 1] == pairs[k] && pairs[0].1 != pairs[k].1;
      assert forall i :: 0 <= i < |pairs[1..]| ==> pairs[1..][i] == pairs[i + 1];
      SentToOne(pairs[1..], k - 1);
    }
  }

  lemma {:induction false} SentToNone(pairs: seq<(Pcb, int)>, c: int)
    requires forall i :: 0 <= i < |pairs| ==> pairs[i].1 != c
    ensures SentTo(pairs, c) == []
    decreases |pairs|
  {
    if pairs != [] {
      assert forall i :: 0 <= i < |pairs[1..]| ==> pairs[1..][i] == pairs[i + 1];
      SentToNone(pairs[1..], c);
    }
  }

  /** A planning sends the k-th ready program to the k-th idle CPU, behind what that CPU has
      not taken up yet, and nothing to a CPU it does not use. */
  lemma DispatchReachesItsCpu(cfg: Config, w: Whole, granted: bool, k: nat)
    requires 0 < cfg.pageSize < 0x8000 && CanHappen(cfg, w, Handles(Plan(granted)))
    requires k < Pairs(Admitted(cfg, w.j.s, granted))
    requires forall i :: 0 <= i < Pairs(Admitted(cfg, w.j.s, granted)) && i != k ==> w.j.s.idle[i] != w.j.s.idle[k]
    ensures var t, inbox' := Admitted(cfg, w.j.s, granted), After(cfg, w, Handles(Plan(granted))).inbox;
            && Mail(inbox', w.j.s.idle[k]) == Mail(w.inbox, w.j.s.idle[k]) + [t.queues[READY][k]]
            && forall c :: c !in w.j.s.idle[..Pairs(t)] ==> Mail(inbox', c) == Mail(w.inbox, c)
  {
    var t := Admitted(cfg, w.j.s, granted);
    var pairs := KA.Pairing(t);
    PostedMail(w.inbox, pairs, w.j.s.idle[k]);
    SentToOne(pairs, k);
    forall c | c !in w.j.s.idle[..Pairs(t)] ensures Mail(Posted(w.inbox, pairs), c) == Mail(w.inbox, c) {
      forall i | 0 <= i < |pairs| ensures pairs[i].1 != c { assert pairs[i].1 == w.j.s.idle[..Pairs(t)][i]; }
      PostedMail(w.inbox, pairs, c);
      SentToNone(pairs, c);
    }
  }

  /** What a CPU's own steps make of what it works on. */
  function OwnCore(cfg: Config, core: SM.Core, xs: seq<Step>, c: int): SM.Core
    requires cfg.Valid()
    decreases |xs|
  {
    if xs == [] then core
    else
      match xs[0]
      case Does(d, op) => OwnCore(cfg, if d == c then SM.Step(KM.Sizes(cfg), core, op) else core, xs[1..], c)
      case Returns(d, _, _) =>
        OwnCore(cfg, if d == c then SM.Step(KM.Sizes(cfg), core, SM.Finish) else core, xs[1..], c)
      case _ => OwnCore(cfg, core, xs[1..], c)
  }

  /** Until it takes up another program a CPU works on what its own primitives have made of
      this one, whatever the kernel and the other CPUs do. */
  lemma {:induction false} CpusKeepToThemselves(cfg: Config, w: Whole, xs: seq<Step>, c: int)
    requires 0 < cfg.pageSize < 0x8000 && RegularRun(cfg, w, xs) && c in w.cpus
    requires forall x :: x in xs ==> !(x.TakesUp? && x.cpu == c)
    ensures var w' := RunWhole(cfg, w, xs); c in w'.cpus && w'.cpus[c] == OwnCore(cfg, w.cpus[c], xs, c)
    decreases |xs|
  {
    if xs != [] {
      assert !(xs[0].TakesUp? && xs[0].cpu == c);
      CpusKeepToThemselves(cfg, After(cfg, w, xs[0]), xs[1..], c);
    }
  }

  /** Everything as it starts. */
  lemma StartIsGood(cfg: Config, sems: seq<int>, variables: nat, frames: nat)
    requires cfg.Valid() && PS.ConfigOk(KM.Sizes(cfg)) && frames <= 0x8000
    ensures var m := Memory(seq(frames, i => PT.FREE), seq(frames * cfg.pageSize, i => 0), cfg.pageSize);
            Good(cfg, Whole(KM.Joint(Initial(sems, variables), m), map[], map[]), map[])
  {
    KM.StartIsGood(cfg, sems, variables, frames);
  }
}
