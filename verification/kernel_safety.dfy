// What runs of the scheduler keep: where each program is, how many are in the system,
// where each CPU is, and exactly which events break it.
module KernelSafety {
  import opened Structures
  import opened KernelStates
  import opened Uploads

  /** A pid handed out is in at most one queue, once, and no other is in any. */
  predicate PidOnce(s: State, pid: int) { Total(s.queues, pid) <= if 1 <= pid <= s.generatorPid then 1 else 0 }

  ghost predicate Once(s: State) { s.generatorPid >= 0 && forall pid :: PidOnce(s, pid) }

  /** And it is blocked exactly as often as it waits for a semaphore. */
  predicate PidSound(s: State, pid: int) {
    PidOnce(s, pid) && Count(s.queues[BLOCK], pid) == Total(s.waiting, pid)
  }

  predicate CpuSound(s: State, cpu: int) { multiset(s.idle)[cpu] + multiset(s.executing)[cpu] <= 1 }

  predicate Sized(cfg: Config, s: State) {
    && (InSystem(s) == 0 || InSystem(s) <= cfg.level)
    && |s.queues[EXEC]| == |s.executing|
    && |s.sems| == |s.waiting|
    && |s.queues[NEW]| <= |s.codes|
  }

  ghost predicate Pids(s: State) { s.generatorPid >= 0 && forall pid :: PidSound(s, pid) }

  lemma PidsOnce(s: State)
    requires Pids(s)
    ensures Once(s)
  {
    forall pid: int ensures PidOnce(s, pid) { assert PidSound(s, pid); }
  }

  ghost predicate Sound(cfg: Config, s: State) { Sized(cfg, s) && Pids(s) && forall cpu :: CpuSound(s, cpu) }

  /** Every pid handed out is somewhere. */
  ghost predicate Complete(s: State) {
    forall pid :: 1 <= pid <= s.generatorPid ==> Total(s.queues, pid) == 1
  }

  lemma InitialIsSound(cfg: Config, sems: seq<int>, variables: nat)
    ensures Sound(cfg, Initial(sems, variables)) && Complete(Initial(sems, variables))
  {
    var s := Initial(sems, variables);
    forall pid: int ensures PidSound(s, pid) {
      TotalZero(s.queues, pid);
      TotalZero(s.waiting, pid);
    }
  }

  // ----- One queue operation

  function One(p: Pcb, pid: int): nat { if p.idProcess == pid then 1 else 0 }

  lemma CountAppend(q: seq<Pcb>, p: Pcb, pid: int)
    ensures Count(q + [p], pid) == Count(q, pid) + One(p, pid)
  {
    CountSum(q, [p], pid);
    CountOne(p, pid);
  }

  lemma CountHead(q: seq<Pcb>, pid: int)
    requires q != []
    ensures Count(q[1..], pid) == Count(q, pid) - One(q[0], pid)
  {
  }

  lemma PutCounts(s: State, status: nat, p: Pcb, pid: int)
    requires status < NUM_STATUSES
    ensures Total(Put(s, status, p).queues, pid) == Total(s.queues, pid) + One(p, pid)
    ensures Count(Put(s, status, p).queues[status], pid) == Count(s.queues[status], pid) + One(p, pid)
  {
    CountAppend(s.queues[status], p, pid);
    TotalUpdate(s.queues, status, s.queues[status] + [p], pid);
  }

  lemma TakeCounts(s: State, status: nat, x: int, pid: int)
    requires status < NUM_STATUSES
    ensures Total(Take(s, status, x).queues, pid)
            == Total(s.queues, pid) - if pid == x then Count(s.queues[status], pid) else 0
    ensures Count(Take(s, status, x).queues[status], pid) == if pid == x then 0 else Count(s.queues[status], pid)
  {
    CountWithout(s.queues[status], x, pid);
    TotalUpdate(s.queues, status, Without(s.queues[status], x), pid);
  }

  lemma PurgedCounts(s: State, x: int, pid: int)
    ensures Total(Purged(s, x).queues, pid) == if pid == x then 0 else Total(s.queues, pid)
    ensures forall i :: 0 <= i < NUM_STATUSES ==>
              Count(Purged(s, x).queues[i], pid) == if pid == x then 0 else Count(s.queues[i], pid)
  {
    var t := Purged(s, x);
    forall i | 0 <= i < NUM_STATUSES
      ensures Count(t.queues[i], pid) == if pid == x then 0 else Count(s.queues[i], pid)
    {
      CountWithout(s.queues[i], x, pid);
    }
    if pid == x { TotalZero(t.queues, pid); } else { TotalSame(t.queues, s.queues, pid); }
  }

  /** end_program leaves a program in the exit queue, once, and nowhere else. */
  lemma EndedCounts(s: State, p: Pcb, code: int, pid: int)
    ensures var t := Ended(s, p, code);
            && Total(t.queues, pid) == (if pid == p.idProcess then 1 else Total(s.queues, pid))
            && (forall i :: 0 <= i < EXIT ==>
                 Count(t.queues[i], pid) == if pid == p.idProcess then 0 else Count(s.queues[i], pid))
            && Count(t.queues[EXIT], pid) == (if pid == p.idProcess then 1 else Count(s.queues[EXIT], pid))
  {
    PurgedCounts(s, p.idProcess, pid);
    PutCounts(Purged(s, p.idProcess), EXIT, p.(exitCode := code), pid);
  }

  /** A program that is in one queue is in no other. */
  lemma OnlyThere(s: State, status: nat, pid: int)
    requires status < NUM_STATUSES && Total(s.queues, pid) <= 1 && Count(s.queues[status], pid) > 0
    ensures Count(s.queues[status], pid) == 1
    ensures forall i :: 0 <= i < NUM_STATUSES && i != status ==> Count(s.queues[i], pid) == 0
  {
    TotalAtLeast(s.queues, status, pid);
    forall i | 0 <= i < NUM_STATUSES && i != status ensures Count(s.queues[i], pid) == 0 {
      if i < status { TotalOfTwo(s.queues, i, status, pid); } else { TotalOfTwo(s.queues, status, i, pid); }
    }
  }

  // ----- Programs that arrive, are admitted and are dispatched

  /** Where a pid is: the same in t as in s. */
  predicate Stays(s: State, t: State, pid: int) {
    forall i :: 0 <= i < NUM_STATUSES ==> Count(t.queues[i], pid) == Count(s.queues[i], pid)
  }

  lemma CreatedCounts(cfg: Config, s: State, console: int, program: Program, pid: int)
    requires console in s.consoles
    ensures var t := Created(cfg, s, console, program);
            && Total(t.queues, pid) == Total(s.queues, pid) + (if pid == s.generatorPid + 1 then 1 else 0)
            && Count(t.queues[NEW], pid) == Count(s.queues[NEW], pid) + (if pid == s.generatorPid + 1 then 1 else 0)
            && (pid != s.generatorPid + 1 ==> Stays(s, t, pid))
  {
    PutCounts(s, NEW, NewPcb(cfg, s.generatorPid + 1, program), pid);
  }

  lemma CreatedKeepsPids(cfg: Config, s: State, console: int, program: Program)
    requires Pids(s) && console in s.consoles
    ensures Pids(Created(cfg, s, console, program))
  {
    forall pid: int ensures PidSound(Created(cfg, s, console, program), pid) {
      assert PidSound(s, pid);
      CreatedCounts(cfg, s, console, program, pid);
    }
  }

  /** A new program gets the next pid and is in the new queue, once, and in no other;
      all others stay where they are. */
  lemma CreatedIsSound(cfg: Config, s: State, console: int, program: Program)
    requires Sound(cfg, s) && console in s.consoles
    ensures var t, pid := Created(cfg, s, console, program), s.generatorPid + 1;
            && Sound(cfg, t) && (Complete(s) ==> Complete(t)) && t.generatorPid == pid
            && Count(t.queues[NEW], pid) == 1 == Total(t.queues, pid)
            && forall x :: x != pid ==> Stays(s, t, x)
  {
    var t, new_ := Created(cfg, s, console, program), s.generatorPid + 1;
    CreatedKeepsPids(cfg, s, console, program);
    forall pid: int ensures Total(t.queues, pid) == Total(s.queues, pid) + if pid == new_ then 1 else 0 {
      CreatedCounts(cfg, s, console, program, pid);
    }
    forall x: int | x != new_ ensures Stays(s, t, x) { CreatedCounts(cfg, s, console, program, x); }
    assert PidSound(s, new_);
    CreatedCounts(cfg, s, console, program, new_);
    TotalAtLeast(s.queues, NEW, new_);
    assert forall cpu :: CpuSound(s, cpu) ==> CpuSound(t, cpu);
  }

  /** Whether planning admits a program. */
  predicate Admits(cfg: Config, s: State) { InSystem(s) < cfg.level && s.queues[NEW] != [] }

  lemma AdmittedCounts(cfg: Config, s: State, granted: bool, pid: int)
    requires cfg.Valid() && (s.queues[NEW] != [] ==> s.codes != [])
    ensures var t := Admitted(cfg, s, granted);
            && Total(t.queues, pid) == Total(s.queues, pid) && t.queues[BLOCK] == s.queues[BLOCK]
            && (Admits(cfg, s) && pid != s.queues[NEW][0].idProcess ==> Stays(s, t, pid))
            && (Admits(cfg, s) ==>
                  var one := One(s.queues[NEW][0], pid);
                  && Count(t.queues[NEW], pid) == Count(s.queues[NEW], pid) - one
                  && Count(t.queues[if granted then READY else EXIT], pid)
                     == Count(s.queues[if granted then READY else EXIT], pid) + one)
  {
    if s.queues[NEW] != [] {
      CountHead(s.queues[NEW], pid);
      TotalUpdate(s.queues, NEW, s.queues[NEW][1..], pid);
      var t := s.(codes := s.codes[1..], queues := s.queues[NEW := s.queues[NEW][1..]]);
      PutCounts(t, READY, s.queues[NEW][0].(pagesCode := CodePages(|s.codes[0]|, cfg.pageSize)), pid);
      PutCounts(t, EXIT, s.queues[NEW][0].(exitCode := EXIT_RESOURCE_FAIL), pid);
    }
  }

  lemma PlannedKeepsPids(cfg: Config, s: State, granted: bool)
    requires cfg.Valid() && Pids(s) && (s.queues[NEW] != [] ==> s.codes != [])
    ensures Pids(Admitted(cfg, s, granted)) && Pids(Dispatched(Admitted(cfg, s, granted)))
  {
    var t := Admitted(cfg, s, granted);
    forall pid: int ensures PidSound(t, pid) && PidSound(Dispatched(t), pid) {
      assert PidSound(s, pid);
      AdmittedCounts(cfg, s, granted, pid);
      DispatchedCounts(t, pid);
    }
  }

  /** The oldest new program, if any is admitted, moves to ready or, refused by the
      memory, to exit, and is in that queue only; all others stay where they are. */
  lemma AdmittedIsSound(cfg: Config, s: State, granted: bool)
    requires cfg.Valid() && Sound(cfg, s)
    ensures var t := Admitted(cfg, s, granted);
            && Sound(cfg, t) && (Complete(s) ==> Complete(t))
            && (!Admits(cfg, s) ==> t == s)
            && (Admits(cfg, s) ==>
                  var pid, to := s.queues[NEW][0].idProcess, if granted then READY else EXIT;
                  Count(t.queues[to], pid) == 1 == Total(t.queues, pid) && forall x :: x != pid ==> Stays(s, t, x))
  {
    var t := Admitted(cfg, s, granted);
    PlannedKeepsPids(cfg, s, granted);
    forall pid: int ensures Total(t.queues, pid) == Total(s.queues, pid) { AdmittedCounts(cfg, s, granted, pid); }
    assert forall cpu :: CpuSound(s, cpu) ==> CpuSound(t, cpu);
    if Admits(cfg, s) {
      var pid := s.queues[NEW][0].idProcess;
      assert PidSound(t, pid);
      AdmittedCounts(cfg, s, granted, pid);
      TotalAtLeast(t.queues, if granted then READY else EXIT, pid);
      forall x: int | x != pid ensures Stays(s, t, x) { AdmittedCounts(cfg, s, granted, x); }
    }
  }

  lemma DispatchedCounts(s: State, pid: int)
    ensures var t := Dispatched(s); Total(t.queues, pid) == Total(s.queues, pid) && t.queues[BLOCK] == s.queues[BLOCK]
  {
    var n, ready := Pairs(s), s.queues[READY];
    var mid := s.queues[READY := ready[n..]];
    CountSplit(ready, n, pid);
    CountSum(s.queues[EXEC], ready[..n], pid);
    TotalUpdate(s.queues, READY, ready[n..], pid);
    TotalUpdate(mid, EXEC, s.queues[EXEC] + ready[..n], pid);
  }

  lemma DispatchedCpus(s: State)
    ensures var t := Dispatched(s); multiset(t.idle) + multiset(t.executing) == multiset(s.idle) + multiset(s.executing)
  {
    var n := Pairs(s);
    assert s.idle == s.idle[..n] + s.idle[n..];
  }

  lemma SameCpusSound(s: State, t: State)
    requires multiset(t.idle) + multiset(t.executing) == multiset(s.idle) + multiset(s.executing)
    requires forall cpu :: CpuSound(s, cpu)
    ensures forall cpu :: CpuSound(t, cpu)
  {
    forall cpu: int ensures CpuSound(t, cpu) {
      assert CpuSound(s, cpu);
      assert (multiset(t.idle) + multiset(t.executing))[cpu] == (multiset(s.idle) + multiset(s.executing))[cpu];
    }
  }

  lemma DispatchedIsSound(cfg: Config, s: State)
    requires Sound(cfg, s)
    ensures Sound(cfg, Dispatched(s))
    ensures Complete(s) ==> Complete(Dispatched(s))
  {
    var t := Dispatched(s);
    forall pid: int ensures PidSound(t, pid) && Total(t.queues, pid) == Total(s.queues, pid) {
      assert PidSound(s, pid);
      DispatchedCounts(s, pid);
    }
    DispatchedCpus(s);
    SameCpusSound(s, t);
  }

  // ----- System calls

  lemma RestoredCpus(s: State, cpu: int)
    requires CpuSound(s, cpu) && cpu in s.executing
    ensures var t := Restored(s, cpu);
            && multiset(t.idle) + multiset(t.executing) == multiset(s.idle) + multiset(s.executing)
            && |t.executing| == |s.executing| - 1
  {
    var t := Restored(s, cpu);
    RemovedBag(s.executing, cpu);
    assert multiset(s.executing)[cpu] == 1;
    assert multiset(t.executing) == multiset(s.executing) - multiset{cpu};
    assert |multiset(t.executing)| == |t.executing| && |multiset(s.executing)| == |s.executing|;
  }

  /** A pid handed out that is executing or in no queue: a program some CPU goes on
      with, as after a shared-variable call. */
  predicate Roams(s: State, pid: int) {
    1 <= pid <= s.generatorPid && Total(s.queues, pid) == Count(s.queues[EXEC], pid)
  }

  lemma RoamsIsOut(s: State, pid: int)
    requires Roams(s, pid)
    ensures forall i :: 0 <= i < NUM_STATUSES && i != EXEC ==> Count(s.queues[i], pid) == 0
    ensures Total(Take(s, EXEC, pid).queues, pid) == 0
  {
    forall i | 0 <= i < NUM_STATUSES && i != EXEC ensures Count(s.queues[i], pid) == 0 {
      if i < EXEC { TotalOfTwo(s.queues, i, EXEC, pid); } else { TotalOfTwo(s.queues, EXEC, i, pid); }
    }
    TakeCounts(s, EXEC, pid, pid);
  }

  lemma ExecutingRoams(s: State, pid: int)
    requires PidSound(s, pid) && Count(s.queues[EXEC], pid) > 0
    ensures Roams(s, pid) && Total(s.queues, pid) == 1 && |Take(s, EXEC, pid).queues[EXEC]| == |s.queues[EXEC]| - 1
  {
    TotalAtLeast(s.queues, EXEC, pid);
    LengthWithout(s.queues[EXEC], pid);
  }

  /** How a call leaves the caller's program and the others. */
  predicate PidMoved(s: State, u: State, caller: int, pid: int) {
    && Total(u.queues, pid) == (if pid == caller then 1 else Total(s.queues, pid))
    && Count(u.queues[BLOCK], pid) == Total(u.waiting, pid)
  }

  lemma WaitedMoves(s: State, pcb: Pcb, i: nat, pid: int)
    requires PidSound(s, pid) && Roams(s, pcb.idProcess) && i < |s.sems| == |s.waiting|
    ensures PidMoved(s, Waited(Take(s, EXEC, pcb.idProcess), pcb, i), pcb.idProcess, pid)
  {
    var t := Take(s, EXEC, pcb.idProcess);
    RoamsIsOut(s, pcb.idProcess);
    TakeCounts(s, EXEC, pcb.idProcess, pid);
    if s.sems[i] - 1 > 0 {
      PutCounts(t, READY, pcb, pid);
    } else {
      PutCounts(t, BLOCK, pcb, pid);
      CountAppend(s.waiting[i], pcb, pid);
      TotalUpdate(s.waiting, i, s.waiting[i] + [pcb], pid);
    }
  }

  /** The program a signal wakes is blocked, once. */
  lemma WokenIsBlocked(s: State, pcb: Pcb, i: nat)
    requires Roams(s, pcb.idProcess) && i < |s.waiting| && PidSound(s, Woken(s, pcb, i).idProcess)
    ensures Count(s.queues[BLOCK] + [pcb], Woken(s, pcb, i).idProcess) == 1
    ensures s.waiting[i] != [] ==> Woken(s, pcb, i).idProcess != pcb.idProcess
  {
    var head := Woken(s, pcb, i);
    RoamsIsOut(s, pcb.idProcess);
    CountAppend(s.queues[BLOCK], pcb, head.idProcess);
    if s.waiting[i] != [] {
      TotalAtLeast(s.waiting, i, head.idProcess);
      TotalAtLeast(s.queues, BLOCK, head.idProcess);
    }
  }

  /** A signal, whoever makes it: one more blocked, one more ready, the woken one not
      blocked any more; one more waiting, one less. */
  lemma SignalledCounts(s: State, pcb: Pcb, i: nat, pid: int)
    requires i < |s.sems| == |s.waiting|
    ensures var u, head := Signalled(s, pcb, i), Woken(s, pcb, i);
            && Total(u.queues, pid) == Total(s.queues, pid) + One(pcb, pid)
               + (if pid == head.idProcess then 1 - Count(s.queues[BLOCK], pid) - One(pcb, pid) else 0)
            && Count(u.queues[BLOCK], pid)
               == (if pid == head.idProcess then 0 else Count(s.queues[BLOCK], pid) + One(pcb, pid))
            && Count(u.queues[READY], pid) == Count(s.queues[READY], pid) + One(head, pid)
            && Total(u.waiting, pid) == Total(s.waiting, pid) + One(pcb, pid) - One(head, pid)
  {
    var head, line, b := Woken(s, pcb, i), s.waiting[i] + [pcb], Put(s, BLOCK, pcb);
    var r := Put(b, READY, head);
    PutCounts(s, BLOCK, pcb, pid);
    PutCounts(b, READY, head, pid);
    TakeCounts(r, BLOCK, head.idProcess, pid);
    CountAppend(s.waiting[i], pcb, pid);
    CountHead(line, pid);
    TotalUpdate(s.waiting, i, line[1..], pid);
  }

  lemma SignalledMoves(s: State, pcb: Pcb, i: nat, pid: int)
    requires PidSound(s, pid) && Roams(s, pcb.idProcess) && i < |s.sems| == |s.waiting|
    requires PidSound(s, Woken(s, pcb, i).idProcess)
    ensures PidMoved(s, Signalled(Take(s, EXEC, pcb.idProcess), pcb, i), pcb.idProcess, pid)
  {
    RoamsIsOut(s, pcb.idProcess);
    TakeCounts(s, EXEC, pcb.idProcess, pid);
    WokenIsBlocked(s, pcb, i);
    CountAppend(s.queues[BLOCK], pcb, Woken(s, pcb, i).idProcess);
    SignalledCounts(Take(s, EXEC, pcb.idProcess), pcb, i, pid);
  }

  lemma SignalledSizes(s: State, pcb: Pcb, i: nat)
    requires Roams(s, pcb.idProcess) && i < |s.sems| == |s.waiting| && PidSound(s, Woken(s, pcb, i).idProcess)
    ensures var t := Take(s, EXEC, pcb.idProcess);
            var u := Signalled(t, pcb, i);
            && |u.queues[BLOCK]| == |s.queues[BLOCK]| && |u.queues[READY]| == |s.queues[READY]| + 1
            && u.queues[NEW] == s.queues[NEW] && u.queues[EXEC] == t.queues[EXEC]
  {
    WokenIsBlocked(s, pcb, i);
    LengthWithout(s.queues[BLOCK] + [pcb], Woken(s, pcb, i).idProcess);
  }

  predicate Shares(call: Call) { call.GetShared? || call.SetShared? }

  /** Whether a call leaves each program in at most one queue, and blocked when it
      waits: the end of a program that is not blocked, and a wait or a signal of one
      that is executing or nowhere. */
  predicate Keeps(s: State, pid: int, call: Call) {
    match call
    case ProgramEnd => 1 <= pid <= s.generatorPid && Count(s.queues[BLOCK], pid) == 0
    case Wait(_) => Roams(s, pid)
    case Signal(_) => Roams(s, pid)
    case _ => true
  }

  /** What a call does to the places of all programs. */
  lemma ServedMoves(s: State, pcb: Pcb, call: Call, pid: int)
    requires Pids(s) && InRange(s, call) && Keeps(s, pcb.idProcess, call)
    ensures var u := Served(s, pcb, call);
            && Count(u.queues[BLOCK], pid) == Total(u.waiting, pid)
            && Total(u.queues, pid) == (if pid != pcb.idProcess then Total(s.queues, pid)
                                        else if Shares(call) || call.OtherCall?
                                        then Total(s.queues, pid) - Count(s.queues[EXEC], pid)
                                        else 1)
  {
    assert PidSound(s, pid);
    TotalAtLeast(s.queues, EXEC, pid);
    TakeCounts(s, EXEC, pcb.idProcess, pid);
    match call {
      case ProgramEnd => EndedCounts(Take(s, EXEC, pcb.idProcess), pcb, EXIT_SUCCESSFUL, pid);
      case Wait(i) => WaitedMoves(s, pcb, i, pid);
      case Signal(i) =>
        assert PidSound(s, Woken(s, pcb, i).idProcess);
        SignalledMoves(s, pcb, i, pid);
      case _ =>
    }
  }

  lemma BadEndShows(s: State, pcb: Pcb)
    requires PidSound(s, pcb.idProcess) && !Keeps(s, pcb.idProcess, ProgramEnd)
    ensures !PidSound(Served(s, pcb, ProgramEnd), pcb.idProcess)
  {
    EndedCounts(Take(s, EXEC, pcb.idProcess), pcb, EXIT_SUCCESSFUL, pcb.idProcess);
  }

  lemma BadWaitShows(s: State, pcb: Pcb, i: nat)
    requires PidSound(s, pcb.idProcess) && !Roams(s, pcb.idProcess) && i < |s.sems| == |s.waiting|
    ensures !PidSound(Served(s, pcb, Wait(i)), pcb.idProcess)
  {
    var pid, t := pcb.idProcess, Take(s, EXEC, pcb.idProcess);
    TotalAtLeast(s.queues, EXEC, pid);
    TakeCounts(s, EXEC, pid, pid);
    PutCounts(t, READY, pcb, pid);
    PutCounts(t, BLOCK, pcb, pid);
  }

  lemma BadSignalShows(s: State, pcb: Pcb, i: nat)
    requires PidSound(s, pcb.idProcess) && !Roams(s, pcb.idProcess) && i < |s.sems| == |s.waiting|
    ensures !PidSound(Served(s, pcb, Signal(i)), pcb.idProcess)
  {
    var pid, t := pcb.idProcess, Take(s, EXEC, pcb.idProcess);
    TotalAtLeast(s.queues, EXEC, pid);
    TotalAtLeast(s.queues, BLOCK, pid);
    TakeCounts(s, EXEC, pid, pid);
    if s.waiting[i] != [] { TotalAtLeast(s.waiting, i, pid); }
    SignalledCounts(t, pcb, i, pid);
  }

  /** A call of any CPU with any PCB keeps every program in at most one queue, and
      blocked when it waits, if and only if it is such. */
  lemma CallKeepsPidsIff(s: State, cpu: int, pcb: Pcb, call: Call)
    requires Pids(s) && InRange(s, call)
    ensures Pids(Called(s, cpu, pcb, call)) <==> Keeps(s, pcb.idProcess, call)
  {
    var u := Served(s, pcb, call);
    assert PidSound(s, pcb.idProcess);
    if Keeps(s, pcb.idProcess, call) {
      forall pid: int ensures PidSound(Called(s, cpu, pcb, call), pid) {
        assert PidSound(s, pid);
        ServedMoves(s, pcb, call, pid);
      }
    } else {
      match call {
        case ProgramEnd => BadEndShows(s, pcb);
        case Wait(i) => BadWaitShows(s, pcb, i);
        case Signal(i) => BadSignalShows(s, pcb, i);
        case _ =>
      }
      assert !PidSound(Called(s, cpu, pcb, call), pcb.idProcess);
    }
  }

  lemma EndedSizes(s: State, p: Pcb, code: int)
    requires forall i :: 0 <= i < EXIT ==> Count(s.queues[i], p.idProcess) == 0
    ensures forall i :: 0 <= i < EXIT ==> Ended(s, p, code).queues[i] == s.queues[i]
  {
    forall i | 0 <= i < EXIT ensures Ended(s, p, code).queues[i] == s.queues[i] {
      LengthWithout(s.queues[i], p.idProcess);
    }
  }

  /** One program off its CPU, and at most one more ready or blocked. */
  predicate Eased(s: State, u: State) {
    && |u.queues[EXEC]| == |s.queues[EXEC]| - 1
    && |u.queues[READY]| + |u.queues[BLOCK]| <= |s.queues[READY]| + |s.queues[BLOCK]| + 1
    && u.queues[NEW] == s.queues[NEW] && u.codes == s.codes && u.generatorPid == s.generatorPid
    && |u.sems| == |s.sems| && |u.waiting| == |s.waiting| && u.executing == s.executing
  }

  lemma EasedIsSized(cfg: Config, s: State, u: State, cpu: int)
    requires Sized(cfg, s) && Eased(s, u) && CpuSound(u, cpu) && cpu in u.executing
    ensures Sized(cfg, Restored(u, cpu))
  {
    RestoredCpus(u, cpu);
  }

  lemma EndedEases(s: State, pcb: Pcb)
    requires PidSound(s, pcb.idProcess) && Count(s.queues[EXEC], pcb.idProcess) > 0
    ensures Eased(s, Ended(Take(s, EXEC, pcb.idProcess), pcb, EXIT_SUCCESSFUL))
  {
    ExecutingRoams(s, pcb.idProcess);
    RoamsIsOut(s, pcb.idProcess);
    TakeCounts(s, EXEC, pcb.idProcess, pcb.idProcess);
    EndedSizes(Take(s, EXEC, pcb.idProcess), pcb, EXIT_SUCCESSFUL);
  }

  lemma ServedEases(s: State, pcb: Pcb, call: Call)
    requires PidSound(s, pcb.idProcess) && Count(s.queues[EXEC], pcb.idProcess) > 0 && InRange(s, call)
    requires call.Signal? ==> PidSound(s, Woken(s, pcb, call.sem).idProcess)
    ensures Eased(s, Served(s, pcb, call))
  {
    ExecutingRoams(s, pcb.idProcess);
    match call {
      case ProgramEnd => EndedEases(s, pcb);
      case Signal(i) => SignalledSizes(s, pcb, i);
      case _ =>
    }
  }

  /** The call of a CPU that is executing, with a program that is. */
  predicate Proper(s: State, cpu: int, pid: int) { cpu in s.executing && Count(s.queues[EXEC], pid) > 0 }

  lemma CalledSizes(cfg: Config, s: State, cpu: int, pcb: Pcb, call: Call)
    requires Sound(cfg, s) && Proper(s, cpu, pcb.idProcess) && InRange(s, call)
    ensures Sized(cfg, Called(s, cpu, pcb, call)) <==> !call.OtherCall?
  {
    assert PidSound(s, pcb.idProcess) && CpuSound(s, cpu);
    if call.Signal? { assert PidSound(s, Woken(s, pcb, call.sem).idProcess); }
    var u := Served(s, pcb, call);
    ServedEases(s, pcb, call);
    assert CpuSound(u, cpu);
    EasedIsSized(cfg, s, u, cpu);
  }

  lemma CalledCpus(s: State, cpu: int, pcb: Pcb, call: Call)
    requires CpuSound(s, cpu) && cpu in s.executing && InRange(s, call)
    ensures var u := Called(s, cpu, pcb, call);
            multiset(u.idle) + multiset(u.executing) == multiset(s.idle) + multiset(s.executing)
  {
    RestoredCpus(s, cpu);
  }

  lemma CalledIsSound(cfg: Config, s: State, cpu: int, pcb: Pcb, call: Call)
    requires Sound(cfg, s) && Proper(s, cpu, pcb.idProcess) && InRange(s, call) && !call.OtherCall?
    ensures Sound(cfg, Called(s, cpu, pcb, call))
    ensures Complete(s) ==> (Complete(Called(s, cpu, pcb, call)) <==> !Shares(call))
  {
    var u, caller := Called(s, cpu, pcb, call), pcb.idProcess;
    assert PidSound(s, caller) && CpuSound(s, cpu);
    ExecutingRoams(s, caller);
    RoamsIsOut(s, caller);
    CallKeepsPidsIff(s, cpu, pcb, call);
    forall pid: int ensures Total(u.queues, pid) == if pid == caller && Shares(call) then 0 else Total(s.queues, pid) {
      ServedMoves(s, pcb, call, pid);
    }
    CalledSizes(cfg, s, cpu, pcb, call);
    CalledCpus(s, cpu, pcb, call);
    SameCpusSound(s, u);
  }

  /** A program that waits and is blocked, while its CPU goes on with it to its end: the
      program is in exit, and still waits for the semaphore. */
  lemma BlockedCallerEnds(s: State, cpu: int, pcb: Pcb, i: nat, pcb': Pcb)
    requires Pids(s) && Roams(s, pcb.idProcess) && InRange(s, Wait(i)) && s.sems[i] <= 1
    requires pcb'.idProcess == pcb.idProcess
    ensures var t := Called(s, cpu, pcb, Wait(i));
            var u := Called(t, cpu, pcb', ProgramEnd);
            && Pids(t) && !Keeps(t, pcb.idProcess, ProgramEnd) && !Pids(u)
            && Total(u.queues, pcb.idProcess) == 1 == Count(u.queues[EXIT], pcb.idProcess)
            && Total(u.waiting, pcb.idProcess) == 1
  {
    var pid, t := pcb.idProcess, Called(s, cpu, pcb, Wait(i));
    CallKeepsPidsIff(s, cpu, pcb, Wait(i));
    RoamsIsOut(s, pid);
    CountAppend(s.queues[BLOCK], pcb, pid);
    assert PidSound(s, pid) && PidSound(t, pid);
    CallKeepsPidsIff(t, cpu, pcb', ProgramEnd);
    EndedCounts(Take(t, EXEC, pid), pcb', EXIT_SUCCESSFUL, pid);
  }

  /** A CPU that was idle is in the idle list twice after its call. */
  lemma IdleCallerIsDoubled(s: State, cpu: int, pcb: Pcb, call: Call)
    requires cpu in s.idle && InRange(s, call) && !call.OtherCall?
    ensures !CpuSound(Called(s, cpu, pcb, call), cpu)
  {
  }

  /** A CPU gives up its place for a program that was not executing. */
  lemma AbsentCallerLosesCpu(s: State, cpu: int, pcb: Pcb, call: Call)
    requires cpu in s.executing && CpuSound(s, cpu) && Count(s.queues[EXEC], pcb.idProcess) == 0
    requires InRange(s, call) && !call.OtherCall?
    ensures var u := Called(s, cpu, pcb, call);
            |u.queues[EXEC]| == |s.queues[EXEC]| && |u.executing| == |s.executing| - 1
  {
    LengthWithout(s.queues[EXEC], pcb.idProcess);
    RestoredCpus(Served(s, pcb, call), cpu);
  }

  /** A call of a connected CPU keeps everything in order if and only if the CPU is
      executing and so is the program the call carries. */
  lemma CalledIsSoundIff(cfg: Config, s: State, cpu: int, pcb: Pcb, call: Call)
    requires Sound(cfg, s) && (cpu in s.idle || cpu in s.executing) && InRange(s, call) && !call.OtherCall?
    ensures Sound(cfg, Called(s, cpu, pcb, call)) <==> Proper(s, cpu, pcb.idProcess)
  {
    if cpu in s.idle { IdleCallerIsDoubled(s, cpu, pcb, call); }
    if Proper(s, cpu, pcb.idProcess) {
      assert CpuSound(s, cpu);
      CalledIsSound(cfg, s, cpu, pcb, call);
    } else if cpu in s.executing {
      assert CpuSound(s, cpu);
      AbsentCallerLosesCpu(s, cpu, pcb, call);
    }
  }

  /** An unknown call keeps everything in order if and only if it carries a program that
      is not executing; then it changes nothing. */
  lemma OtherCallIsSoundIff(cfg: Config, s: State, cpu: int, pcb: Pcb)
    requires Sound(cfg, s)
    ensures Sound(cfg, Called(s, cpu, pcb, OtherCall)) <==> Count(s.queues[EXEC], pcb.idProcess) == 0
    ensures Count(s.queues[EXEC], pcb.idProcess) == 0 ==> Called(s, cpu, pcb, OtherCall) == s
  {
    LengthWithout(s.queues[EXEC], pcb.idProcess);
    assert s.queues[EXEC := s.queues[EXEC]] == s.queues;
  }

  lemma GivenBackTwice(s: State, cpu: int)
    requires CpuSound(s, cpu) && cpu in s.executing
    ensures var t := Restored(s, cpu);
            && multiset(Restored(t, cpu).idle)[cpu] == 2 && cpu !in t.executing && cpu !in Restored(t, cpu).executing
  {
    var t := Restored(s, cpu);
    RemovedBag(s.executing, cpu);
    RemovedBag(t.executing, cpu);
    assert cpu !in multiset(t.executing) && cpu !in multiset(Restored(t, cpu).executing);
    assert multiset(s.executing)[cpu] > 0 && multiset(s.idle)[cpu] == 0;
    assert multiset(t.idle)[cpu] == 1;
    assert multiset(t.idle + [cpu])[cpu] == multiset(t.idle)[cpu] + 1;
  }

  /** A program that used a shared variable ends on a CPU that has been given back: the
      program is in exit after all, and the CPU is twice among the idle ones. */
  lemma SharedCallerEnds(cfg: Config, s: State, cpu: int, pcb: Pcb, call: Call, pcb': Pcb)
    requires Sound(cfg, s) && Proper(s, cpu, pcb.idProcess) && InRange(s, call) && Shares(call)
    requires pcb'.idProcess == pcb.idProcess
    ensures var t := Called(s, cpu, pcb, call);
            var u := Called(t, cpu, pcb', ProgramEnd);
            && Total(t.queues, pcb.idProcess) == 0
            && Total(u.queues, pcb.idProcess) == 1 == Count(u.queues[EXIT], pcb.idProcess)
            && multiset(u.idle)[cpu] == 2 && cpu !in u.executing
  {
    var t := Called(s, cpu, pcb, call);
    assert PidSound(s, pcb.idProcess) && CpuSound(s, cpu);
    ExecutingRoams(s, pcb.idProcess);
    ServedMoves(s, pcb, call, pcb.idProcess);
    EndedCounts(Take(t, EXEC, pcb.idProcess), pcb', EXIT_SUCCESSFUL, pcb.idProcess);
    GivenBackTwice(s, cpu);
  }

  // ----- Calls, when only the queues matter

  /** Whether a call leaves each program in at most one queue, blocked or not: the end of
      any program handed out, a wait of one that is executing or nowhere, and a signal of
      such a one that wakes itself, a blocked one, or one that is nowhere. */
  predicate KeepsOnce(s: State, pcb: Pcb, call: Call)
    requires InRange(s, call)
  {
    match call
    case ProgramEnd => 1 <= pcb.idProcess <= s.generatorPid
    case Wait(_) => Roams(s, pcb.idProcess)
    case Signal(i) => KeepsTurn(s, pcb.idProcess, Woken(s, pcb, i).idProcess)
    case _ => true
  }

  predicate KeepsTurn(s: State, caller: int, woken: int) {
    && 1 <= caller <= s.generatorPid && 1 <= woken <= s.generatorPid
    && if woken == caller
       then Total(s.queues, caller) == Count(s.queues[EXEC], caller) + Count(s.queues[BLOCK], caller)
       else Roams(s, caller) && Total(s.queues, woken) == Count(s.queues[BLOCK], woken)
  }

  /** A signal by one program, counted over all queues. */
  lemma TurnCounts(s: State, pcb: Pcb, i: nat, pid: int)
    requires i < |s.sems| == |s.waiting|
    ensures var u, caller, woken := Served(s, pcb, Signal(i)), pcb.idProcess, Woken(s, pcb, i).idProcess;
            Total(u.queues, pid) == Total(s.queues, pid)
              + (if pid == caller then 1 - Count(s.queues[EXEC], pid) else 0)
              + (if pid == woken then 1 - Count(s.queues[BLOCK], pid) - One(pcb, pid) else 0)
  {
    TakeCounts(s, EXEC, pcb.idProcess, pid);
    SignalledCounts(Take(s, EXEC, pcb.idProcess), pcb, i, pid);
  }

  lemma WaitCounts(s: State, pcb: Pcb, i: nat, pid: int)
    requires i < |s.sems| == |s.waiting|
    ensures Total(Served(s, pcb, Wait(i)).queues, pid)
            == Total(s.queues, pid) + if pid == pcb.idProcess then 1 - Count(s.queues[EXEC], pid) else 0
  {
    var t := Take(s, EXEC, pcb.idProcess);
    TakeCounts(s, EXEC, pcb.idProcess, pid);
    PutCounts(t, READY, pcb, pid);
    PutCounts(t, BLOCK, pcb, pid);
  }

  lemma SignalKeepsOnceIff(s: State, pcb: Pcb, i: nat)
    requires Once(s) && i < |s.sems| == |s.waiting|
    ensures Once(Served(s, pcb, Signal(i))) <==> KeepsTurn(s, pcb.idProcess, Woken(s, pcb, i).idProcess)
  {
    var u, caller, woken := Served(s, pcb, Signal(i)), pcb.idProcess, Woken(s, pcb, i).idProcess;
    AtLeastBoth(s, caller);
    AtLeastBoth(s, woken);
    TurnCounts(s, pcb, i, caller);
    TurnCounts(s, pcb, i, woken);
    assert PidOnce(s, caller) && PidOnce(s, woken);
    if KeepsTurn(s, caller, woken) {
      forall pid: int ensures PidOnce(u, pid) {
        assert PidOnce(s, pid);
        TurnCounts(s, pcb, i, pid);
      }
    } else {
      assert !PidOnce(u, caller) || !PidOnce(u, woken);
    }
  }

  lemma AtLeastBoth(s: State, pid: int)
    ensures Count(s.queues[EXEC], pid) + Count(s.queues[BLOCK], pid) <= Total(s.queues, pid)
  {
    TotalOfTwo(s.queues, EXEC, BLOCK, pid);
  }

  lemma WaitKeepsOnceIff(s: State, pcb: Pcb, i: nat)
    requires Once(s) && i < |s.sems| == |s.waiting|
    ensures Once(Served(s, pcb, Wait(i))) <==> Roams(s, pcb.idProcess)
  {
    var u, caller := Served(s, pcb, Wait(i)), pcb.idProcess;
    AtLeastBoth(s, caller);
    WaitCounts(s, pcb, i, caller);
    assert PidOnce(s, caller);
    if Roams(s, caller) {
      forall pid: int ensures PidOnce(u, pid) {
        assert PidOnce(s, pid);
        WaitCounts(s, pcb, i, pid);
      }
    } else {
      assert !PidOnce(u, caller);
    }
  }

  lemma EndKeepsOnceIff(s: State, pcb: Pcb)
    requires Once(s)
    ensures Once(Served(s, pcb, ProgramEnd)) <==> 1 <= pcb.idProcess <= s.generatorPid
  {
    var t, u := Take(s, EXEC, pcb.idProcess), Served(s, pcb, ProgramEnd);
    forall pid: int ensures Total(u.queues, pid) == if pid == pcb.idProcess then 1 else Total(s.queues, pid) {
      TakeCounts(s, EXEC, pcb.idProcess, pid);
      EndedCounts(t, pcb, EXIT_SUCCESSFUL, pid);
    }
    if 1 <= pcb.idProcess <= s.generatorPid {
      forall pid: int ensures PidOnce(u, pid) { assert PidOnce(s, pid); }
    } else {
      assert !PidOnce(u, pcb.idProcess);
    }
  }

  lemma CallKeepsOnceIff(s: State, cpu: int, pcb: Pcb, call: Call)
    requires Once(s) && InRange(s, call)
    ensures Once(Called(s, cpu, pcb, call)) <==> KeepsOnce(s, pcb, call)
  {
    var u := Served(s, pcb, call);
    assert forall pid :: PidOnce(Called(s, cpu, pcb, call), pid) == PidOnce(u, pid);
    match call {
      case ProgramEnd => EndKeepsOnceIff(s, pcb);
      case Wait(i) => WaitKeepsOnceIff(s, pcb, i);
      case Signal(i) => SignalKeepsOnceIff(s, pcb, i);
      case _ =>
        forall pid: int ensures PidOnce(u, pid) {
          assert PidOnce(s, pid);
          TakeCounts(s, EXEC, pcb.idProcess, pid);
        }
    }
  }

  // ----- Consoles that go away

  lemma KilledCounts(s: State, pid: int, x: int)
    requires Total(s.queues, pid) <= 1
    ensures var t := Killed(s, pid);
            && Total(t.queues, x) == Total(s.queues, x)
            && Count(t.queues[BLOCK], x) == if x == pid then 0 else Count(s.queues[BLOCK], x)
  {
    var status := StatusFrom(s.queues, pid, 0);
    if status >= 0 {
      OnlyThere(s, status, pid);
      TotalAtLeast(s.queues, status, pid);
      if status != EXEC { EndedCounts(s, First(s.queues[status], pid), EXIT_CONSOLE_KILLED, x); }
    }
  }

  /** Where a killed program was: everywhere but in the exec and exit queues. */
  lemma KilledQueues(s: State, pid: int)
    requires Total(s.queues, pid) <= 1
    ensures var t := Killed(s, pid);
            && t == s.(queues := t.queues)
            && t.queues[EXEC] == s.queues[EXEC] && t.queues[NEW] == Without(s.queues[NEW], pid)
            && t.queues[READY] == Without(s.queues[READY], pid) && t.queues[BLOCK] == Without(s.queues[BLOCK], pid)
  {
    var status := StatusFrom(s.queues, pid, 0);
    forall i | 0 <= i < EXIT && Count(s.queues[i], pid) == 0 ensures Without(s.queues[i], pid) == s.queues[i] {
      LengthWithout(s.queues[i], pid);
    }
    if status >= 0 { OnlyThere(s, status, pid); }
  }

  /** Killing takes programs out of the system and leaves the rest of the state alone. */
  predicate Thinned(s: State, t: State) {
    && t == s.(queues := t.queues) && t.queues[EXEC] == s.queues[EXEC]
    && |t.queues[NEW]| <= |s.queues[NEW]| && |t.queues[READY]| <= |s.queues[READY]|
    && |t.queues[BLOCK]| <= |s.queues[BLOCK]|
  }

  lemma KilledThins(s: State, pid: int)
    requires Total(s.queues, pid) <= 1
    ensures Thinned(s, Killed(s, pid))
  {
    KilledQueues(s, pid);
    LengthWithout(s.queues[NEW], pid);
    LengthWithout(s.queues[READY], pid);
    LengthWithout(s.queues[BLOCK], pid);
  }

  lemma {:induction false} KilledAllCounts(s: State, pids: seq<int>, x: int)
    requires forall pid :: pid in pids ==> Total(s.queues, pid) <= 1
    ensures var t := KilledAll(s, pids);
            && Thinned(s, t) && Total(t.queues, x) == Total(s.queues, x)
            && Count(t.queues[BLOCK], x) == if x in pids then 0 else Count(s.queues[BLOCK], x)
    decreases |pids|
  {
    if pids != [] {
      var t := Killed(s, pids[0]);
      KilledThins(s, pids[0]);
      KilledCounts(s, pids[0], x);
      forall pid | pid in pids[1..] ensures Total(t.queues, pid) <= 1 { KilledCounts(s, pids[0], pid); }
      KilledAllCounts(t, pids[1..], x);
      assert pids == [pids[0]] + pids[1..];
    }
  }

  /** Some program of the console waits for a semaphore. */
  predicate HasBlocked(s: State, console: int)
    requires console in s.consoles
  {
    exists pid :: pid in s.consoles[console] && Count(s.queues[BLOCK], pid) > 0
  }

  lemma DroppedCounts(s: State, console: int, x: int)
    requires Once(s) && console in s.consoles
    ensures var t := Dropped(s, console);
            && Total(t.queues, x) == Total(s.queues, x)
            && Thinned(s.(consoles := s.consoles - {console}), t)
            && Count(t.queues[BLOCK], x) == if x in s.consoles[console] then 0 else Count(s.queues[BLOCK], x)
  {
    forall pid | pid in s.consoles[console] ensures Total(s.queues, pid) <= 1 { assert PidOnce(s, pid); }
    KilledAllCounts(s.(consoles := s.consoles - {console}), s.consoles[console], x);
  }

  lemma DroppedKeepsPidsIff(s: State, console: int)
    requires Pids(s) && console in s.consoles
    ensures Pids(Dropped(s, console)) <==> !HasBlocked(s, console)
  {
    var t := Dropped(s, console);
    PidsOnce(s);
    DroppedCounts(s, console, 0);
    if HasBlocked(s, console) {
      var pid :| pid in s.consoles[console] && Count(s.queues[BLOCK], pid) > 0;
      assert PidSound(s, pid);
      DroppedCounts(s, console, pid);
      assert !PidSound(t, pid);
    } else {
      forall pid: int ensures PidSound(t, pid) {
        assert PidSound(s, pid);
        DroppedCounts(s, console, pid);
      }
    }
  }

  lemma DroppedIsSoundIff(cfg: Config, s: State, console: int)
    requires Sound(cfg, s) && console in s.consoles
    ensures Sound(cfg, Dropped(s, console)) <==> !HasBlocked(s, console)
    ensures Complete(s) ==> Complete(Dropped(s, console))
  {
    var t := Dropped(s, console);
    PidsOnce(s);
    forall x: int ensures Total(t.queues, x) == Total(s.queues, x) { DroppedCounts(s, console, x); }
    DroppedCounts(s, console, 0);
    DroppedKeepsPidsIff(s, console);
    assert forall cpu :: CpuSound(s, cpu) ==> CpuSound(t, cpu);
  }

  // ----- Steps and runs

  /** The events that put a program into two queues or let it wait without being
      blocked, or the other way round. */
  predicate Slips(s: State, e: Event)
    requires Enabled(s, e)
  {
    (e.ConsoleDrops? && HasBlocked(s, e.client)) || (e.Syscall? && !Keeps(s, e.pcb.idProcess, e.call))
  }

  /** The events after which queues, wait lists and processors no longer agree. */
  predicate Derails(s: State, e: Event)
    requires Enabled(s, e)
  {
    || (e.ConsoleDrops? && HasBlocked(s, e.client))
    || (e.Syscall? && e.call.OtherCall? && Count(s.queues[EXEC], e.pcb.idProcess) > 0)
    || (e.Syscall? && !e.call.OtherCall? && !Proper(s, e.client, e.pcb.idProcess))
  }

  predicate Forgets(e: Event) { e.Syscall? && Shares(e.call) }

  /** Every program stays in at most one queue, blocked when it waits, at every event
      but exactly those. */
  lemma StepKeepsPidsIff(cfg: Config, s: State, e: Event)
    requires cfg.Valid() && Pids(s) && Enabled(s, e)
    ensures Pids(Next(cfg, s, e)) <==> !Slips(s, e)
  {
    match e {
      case NewProgram(c, program) => CreatedKeepsPids(cfg, s, c, program);
      case Syscall(c, pcb, call) => CallKeepsPidsIff(s, c, pcb, call);
      case ConsoleDrops(c) => DroppedKeepsPidsIff(s, c);
      case Plan(granted) => PlannedKeepsPids(cfg, s, granted);
      case _ => assert forall pid :: PidSound(s, pid) ==> PidSound(Next(cfg, s, e), pid);
    }
  }

  /** The events that put a program into two queues, or one that does not exist into one. */
  predicate Doubles(s: State, e: Event)
    requires Enabled(s, e)
  {
    e.Syscall? && !KeepsOnce(s, e.pcb, e.call)
  }

  /** Every program stays in at most one queue at every event but exactly those, kills of
      blocked programs among them. */
  lemma StepKeepsOnceIff(cfg: Config, s: State, e: Event)
    requires cfg.Valid() && Once(s) && Enabled(s, e)
    ensures Once(Next(cfg, s, e)) <==> !Doubles(s, e)
  {
    if e.Syscall? {
      CallKeepsOnceIff(s, e.client, e.pcb, e.call);
    } else {
      if e.ConsoleDrops? { DroppedCounts(s, e.client, 0); }
      forall pid: int ensures PidOnce(Next(cfg, s, e), pid) { EventKeepsPidOnce(cfg, s, e, pid); }
    }
  }

  lemma EventKeepsPidOnce(cfg: Config, s: State, e: Event, pid: int)
    requires cfg.Valid() && Once(s) && Enabled(s, e) && !e.Syscall?
    ensures PidOnce(Next(cfg, s, e), pid)
  {
    assert PidOnce(s, pid);
    match e {
      case NewProgram(c, program) => CreatedCounts(cfg, s, c, program, pid);
      case ConsoleDrops(c) => DroppedCounts(s, c, pid);
      case Plan(granted) =>
        AdmittedCounts(cfg, s, granted, pid);
        DispatchedCounts(Admitted(cfg, s, granted), pid);
      case _ =>
    }
  }

  lemma ClientIsSound(cfg: Config, s: State, e: Event)
    requires cfg.Valid() && Sound(cfg, s) && Enabled(s, e) && (e.ConsoleConnects? || e.CpuConnects?)
    ensures Sound(cfg, Next(cfg, s, e))
    ensures Complete(s) ==> Complete(Next(cfg, s, e))
  {
    var t := Next(cfg, s, e);
    assert forall pid :: PidSound(s, pid) ==> PidSound(t, pid);
    forall cpu: int ensures CpuSound(t, cpu) {
      assert CpuSound(s, cpu);
    }
  }

  /** From a sound state every event but a derailing one leads to a sound state. */
  lemma StepIsSoundIff(cfg: Config, s: State, e: Event)
    requires cfg.Valid() && Sound(cfg, s) && Enabled(s, e)
    ensures Sound(cfg, Next(cfg, s, e)) <==> !Derails(s, e)
  {
    match e {
      case NewProgram(c, program) => CreatedIsSound(cfg, s, c, program);
      case Syscall(c, pcb, call) =>
        if call.OtherCall? { OtherCallIsSoundIff(cfg, s, c, pcb); } else { CalledIsSoundIff(cfg, s, c, pcb, call); }
      case ConsoleDrops(c) => DroppedIsSoundIff(cfg, s, c);
      case Plan(granted) =>
        AdmittedIsSound(cfg, s, granted);
        DispatchedIsSound(cfg, Admitted(cfg, s, granted));
      case _ => ClientIsSound(cfg, s, e);
    }
  }

  /** A program is lost exactly by a shared-variable call. */
  lemma StepIsCompleteIff(cfg: Config, s: State, e: Event)
    requires cfg.Valid() && Sound(cfg, s) && Complete(s) && Enabled(s, e) && !Derails(s, e)
    ensures Complete(Next(cfg, s, e)) <==> !Forgets(e)
  {
    match e {
      case NewProgram(c, program) => CreatedIsSound(cfg, s, c, program);
      case Syscall(c, pcb, call) =>
        if call.OtherCall? {
          OtherCallIsSoundIff(cfg, s, c, pcb);
        } else {
          CalledIsSound(cfg, s, c, pcb, call);
        }
      case ConsoleDrops(c) => DroppedIsSoundIff(cfg, s, c);
      case Plan(granted) =>
        AdmittedIsSound(cfg, s, granted);
        DispatchedIsSound(cfg, Admitted(cfg, s, granted));
      case _ => ClientIsSound(cfg, s, e);
    }
  }

  predicate NeverSlips(cfg: Config, s: State, es: seq<Event>)
    requires cfg.Valid() && AllEnabled(cfg, s, es)
    decreases |es|
  {
    es == [] || (!Slips(s, es[0]) && NeverSlips(cfg, Next(cfg, s, es[0]), es[1..]))
  }

  predicate NeverDoubles(cfg: Config, s: State, es: seq<Event>)
    requires cfg.Valid() && AllEnabled(cfg, s, es)
    decreases |es|
  {
    es == [] || (!Doubles(s, es[0]) && NeverDoubles(cfg, Next(cfg, s, es[0]), es[1..]))
  }

  /** A run without slips puts no program into two queues either. */
  lemma {:induction false} NeverSlipsNeverDoubles(cfg: Config, s: State, es: seq<Event>)
    requires cfg.Valid() && Pids(s) && AllEnabled(cfg, s, es) && NeverSlips(cfg, s, es)
    ensures NeverDoubles(cfg, s, es)
    decreases |es|
  {
    if es != [] {
      PidsOnce(s);
      StepKeepsPidsIff(cfg, s, es[0]);
      PidsOnce(Next(cfg, s, es[0]));
      StepKeepsOnceIff(cfg, s, es[0]);
      NeverSlipsNeverDoubles(cfg, Next(cfg, s, es[0]), es[1..]);
    }
  }

  lemma {:induction false} RunKeepsOnce(cfg: Config, s: State, es: seq<Event>)
    requires cfg.Valid() && Once(s) && AllEnabled(cfg, s, es) && NeverDoubles(cfg, s, es)
    ensures Once(Run(cfg, s, es))
    decreases |es|
  {
    if es != [] {
      StepKeepsOnceIff(cfg, s, es[0]);
      RunKeepsOnce(cfg, Next(cfg, s, es[0]), es[1..]);
    }
  }

  predicate NeverDerails(cfg: Config, s: State, es: seq<Event>)
    requires cfg.Valid() && AllEnabled(cfg, s, es)
    decreases |es|
  {
    es == [] || (!Derails(s, es[0]) && NeverDerails(cfg, Next(cfg, s, es[0]), es[1..]))
  }

  /** So it is over every run without those events, also when programs go on calling
      after they have used a shared variable. */
  lemma {:induction false} RunKeepsPids(cfg: Config, s: State, es: seq<Event>)
    requires cfg.Valid() && Pids(s) && AllEnabled(cfg, s, es) && NeverSlips(cfg, s, es)
    ensures Pids(Run(cfg, s, es))
    decreases |es|
  {
    if es != [] {
      StepKeepsPidsIff(cfg, s, es[0]);
      RunKeepsPids(cfg, Next(cfg, s, es[0]), es[1..]);
    }
  }

  /** An event that does not derail does not slip. */
  lemma OnTrackKeepsPids(cfg: Config, s: State, e: Event)
    requires cfg.Valid() && Sound(cfg, s) && Enabled(s, e) && !Derails(s, e)
    ensures !Slips(s, e)
  {
    StepIsSoundIff(cfg, s, e);
    StepKeepsPidsIff(cfg, s, e);
  }

  /** Over every run without derailing events: each pid is in at most one queue, exactly
      one if no shared variable is used, and the bounds hold. */
  lemma {:induction false} RunIsSound(cfg: Config, s: State, es: seq<Event>)
    requires cfg.Valid() && Sound(cfg, s) && AllEnabled(cfg, s, es) && NeverDerails(cfg, s, es)
    ensures Sound(cfg, Run(cfg, s, es)) && NeverSlips(cfg, s, es)
    ensures Complete(s) && (forall e :: e in es ==> !Forgets(e)) ==> Complete(Run(cfg, s, es))
    decreases |es|
  {
    if es != [] {
      StepIsSoundIff(cfg, s, es[0]);
      OnTrackKeepsPids(cfg, s, es[0]);
      if Complete(s) { StepIsCompleteIff(cfg, s, es[0]); }
      RunIsSound(cfg, Next(cfg, s, es[0]), es[1..]);
    }
  }

  // ----- Processors

  function Connected(es: seq<Event>): multiset<int>
    decreases |es|
  {
    if es == [] then multiset{}
    else (if es[0].CpuConnects? then multiset{es[0].client} else multiset{}) + Connected(es[1..])
  }

  function Processors(s: State): multiset<int> { multiset(s.idle) + multiset(s.executing) }

  lemma DropKeepsCpus(s: State, pids: seq<int>)
    ensures KilledAll(s, pids).idle == s.idle && KilledAll(s, pids).executing == s.executing
    decreases |pids|
  {
    if pids != [] { DropKeepsCpus(Killed(s, pids[0]), pids[1..]); }
  }

  lemma StepKeepsCpus(cfg: Config, s: State, e: Event)
    requires cfg.Valid() && Sound(cfg, s) && Enabled(s, e) && !Derails(s, e)
    ensures Processors(Next(cfg, s, e)) == Processors(s) + if e.CpuConnects? then multiset{e.client} else multiset{}
  {
    match e {
      case CpuConnects(c) => assert Processors(Next(cfg, s, e)) == Processors(s) + multiset{c};
      case Syscall(c, pcb, call) =>
        assert CpuSound(s, c);
        if !call.OtherCall? { CalledCpus(s, c, pcb, call); }
      case ConsoleDrops(c) => DropKeepsCpus(s.(consoles := s.consoles - {c}), s.consoles[c]);
      case Plan(granted) => DispatchedCpus(Admitted(cfg, s, granted));
      case _ =>
    }
  }

  /** Every processor ever accepted is in one of the two lists, once. */
  lemma {:induction false} RunKeepsCpus(cfg: Config, s: State, es: seq<Event>)
    requires cfg.Valid() && Sound(cfg, s) && AllEnabled(cfg, s, es) && NeverDerails(cfg, s, es)
    ensures Processors(Run(cfg, s, es)) == Processors(s) + Connected(es)
    decreases |es|
  {
    if es != [] {
      StepKeepsCpus(cfg, s, es[0]);
      StepIsSoundIff(cfg, s, es[0]);
      RunKeepsCpus(cfg, Next(cfg, s, es[0]), es[1..]);
    }
  }

  lemma RestoredCpuSet(s: State, cpu: int, c: int)
    requires cpu in s.idle || cpu in s.executing
    ensures c in Processors(Restored(s, cpu)) <==> c in Processors(s)
  {
    RemovedBag(s.executing, cpu);
    assert multiset(s.idle + [cpu])[c] == multiset(s.idle)[c] + if c == cpu then 1 else 0;
  }

  lemma CalledCpuSet(s: State, cpu: int, pcb: Pcb, call: Call, c: int)
    requires (cpu in s.idle || cpu in s.executing) && InRange(s, call)
    ensures c in Processors(Called(s, cpu, pcb, call)) <==> c in Processors(s)
  {
    var u := Served(s, pcb, call);
    assert u.idle == s.idle && u.executing == s.executing;
    RestoredCpuSet(u, cpu, c);
  }

  lemma StepKeepsCpuSet(cfg: Config, s: State, e: Event, c: int)
    requires cfg.Valid() && Enabled(s, e)
    ensures c in Processors(Next(cfg, s, e)) <==> c in Processors(s) || (e.CpuConnects? && c == e.client)
  {
    match e {
      case Syscall(cpu, pcb, call) => CalledCpuSet(s, cpu, pcb, call, c);
      case ConsoleDrops(k) => DropKeepsCpus(s.(consoles := s.consoles - {k}), s.consoles[k]);
      case Plan(granted) => DispatchedCpus(Admitted(cfg, s, granted));
      case _ =>
    }
  }

  /** Over every run, also one in which a CPU is given back twice, the processors in the
      two lists are exactly those ever accepted. */
  lemma {:induction false} RunKeepsCpuSet(cfg: Config, s: State, es: seq<Event>, c: int)
    requires cfg.Valid() && AllEnabled(cfg, s, es)
    ensures c in Processors(Run(cfg, s, es)) <==> c in Processors(s) || c in Connected(es)
    decreases |es|
  {
    if es != [] {
      StepKeepsCpuSet(cfg, s, es[0], c);
      RunKeepsCpuSet(cfg, Next(cfg, s, es[0]), es[1..], c);
    }
  }

  /** From the start of the kernel, over every run without slips: a pid handed out is in
      at most one queue, once, no other is in any, and the blocked programs are those
      that wait for a semaphore. The processors are those that were accepted. */
  lemma EveryRunKeepsPids(cfg: Config, sems: seq<int>, variables: nat, es: seq<Event>)
    requires cfg.Valid() && AllEnabled(cfg, Initial(sems, variables), es)
    requires NeverSlips(cfg, Initial(sems, variables), es)
    ensures var t := Run(cfg, Initial(sems, variables), es);
            && (forall pid :: Total(t.queues, pid) <= 1 && (Total(t.queues, pid) == 1 ==> 1 <= pid <= t.generatorPid))
            && (forall pid :: Count(t.queues[BLOCK], pid) == Total(t.waiting, pid))
            && (forall c :: c in Processors(t) <==> c in Connected(es))
  {
    var s := Initial(sems, variables);
    var t := Run(cfg, s, es);
    InitialIsSound(cfg, sems, variables);
    RunKeepsPids(cfg, s, es);
    forall pid: int ensures Total(t.queues, pid) <= 1 && (Total(t.queues, pid) == 1 ==> 1 <= pid <= t.generatorPid)
      ensures Count(t.queues[BLOCK], pid) == Total(t.waiting, pid)
    {
      assert PidSound(t, pid);
    }
    forall c ensures c in Processors(t) <==> c in Connected(es) { RunKeepsCpuSet(cfg, s, es, c); }
  }

  /** And over every run without derailing events also: no program is lost unless a
      shared variable is used, the level is respected, executing programs and CPUs are
      as many, and each processor accepted is in one of the two lists, once. */
  lemma EveryRun(cfg: Config, sems: seq<int>, variables: nat, es: seq<Event>)
    requires cfg.Valid() && AllEnabled(cfg, Initial(sems, variables), es)
    requires NeverDerails(cfg, Initial(sems, variables), es)
    ensures NeverSlips(cfg, Initial(sems, variables), es)
    ensures var t := Run(cfg, Initial(sems, variables), es);
            && ((forall e :: e in es ==> !Forgets(e)) ==>
                 forall pid :: 1 <= pid <= t.generatorPid ==> Total(t.queues, pid) == 1)
            && (InSystem(t) == 0 || InSystem(t) <= cfg.level)
            && |t.queues[EXEC]| == |t.executing|
            && Processors(t) == Connected(es) && forall cpu :: Processors(t)[cpu] <= 1
  {
    var s := Initial(sems, variables);
    var t := Run(cfg, s, es);
    InitialIsSound(cfg, sems, variables);
    RunIsSound(cfg, s, es);
    RunKeepsCpus(cfg, s, es);
    assert Processors(s) == multiset{};
    forall cpu: int ensures Processors(t)[cpu] <= 1 { assert CpuSound(t, cpu); }
  }
}
