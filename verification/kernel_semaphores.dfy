// Kernel/src/syscall.c:16-51 over whole runs: a semaphore's value, the order in which
// its wait list is served, who is woken, and what a kill does to it.
module KernelSemaphores {
  import opened Structures
  import opened KernelStates
  import opened KernelSafety

  predicate Waits(e: Event, i: nat) { e.Syscall? && e.call == Wait(i) }

  predicate Signals(e: Event, i: nat) { e.Syscall? && e.call == Signal(i) }

  /** The code blocks a program whose wait leaves the value at 0 or below. */
  predicate Blocks(s: State, e: Event, i: nat)
    requires i < |s.sems|
  {
    Waits(e, i) && s.sems[i] <= 1
  }

  /** Who joins the list of semaphore i, and who leaves it, at an event. */
  function Joins(s: State, e: Event, i: nat): seq<Pcb>
    requires i < |s.sems|
  {
    if Blocks(s, e, i) || Signals(e, i) then [e.pcb] else []
  }

  function Leaves(s: State, e: Event, i: nat): seq<Pcb>
    requires i < |s.waiting|
  {
    if Signals(e, i) then [Woken(s, e.pcb, i)] else []
  }

  predicate HasSem(s: State, i: nat) { i < |s.sems| == |s.waiting| }

  /** Killing programs does not touch semaphores. */
  lemma {:induction false} KillsKeepSems(s: State, pids: seq<int>)
    ensures KilledAll(s, pids).sems == s.sems && KilledAll(s, pids).waiting == s.waiting
    decreases |pids|
  {
    if pids != [] { KillsKeepSems(Killed(s, pids[0]), pids[1..]); }
  }

  lemma DispatchKeepsSems(cfg: Config, s: State, granted: bool)
    requires cfg.Valid() && (s.queues[NEW] != [] ==> s.codes != [])
    ensures var t := Dispatched(Admitted(cfg, s, granted)); t.sems == s.sems && t.waiting == s.waiting
  {
  }

  /** One step on semaphore i: its value moves by one, and what was waiting followed by
      who joins is who leaves followed by what waits. */
  lemma StepOnSem(cfg: Config, s: State, e: Event, i: nat)
    requires cfg.Valid() && Enabled(s, e) && HasSem(s, i)
    ensures var t := Next(cfg, s, e);
            && HasSem(t, i)
            && t.sems[i] == s.sems[i] + (if Signals(e, i) then 1 else if Waits(e, i) then -1 else 0)
            && Leaves(s, e, i) + t.waiting[i] == s.waiting[i] + Joins(s, e, i)
            && |t.waiting[i]| == |s.waiting[i]| + (if Blocks(s, e, i) then 1 else 0)
  {
    var t := Next(cfg, s, e);
    match e {
      case ConsoleDrops(c) => KillsKeepSems(s.(consoles := s.consoles - {c}), s.consoles[c]);
      case Plan(granted) => DispatchKeepsSems(cfg, s, granted);
      case Syscall(c, pcb, call) => CallOnSem(s, pcb, call, i);
      case _ =>
    }
  }

  lemma CallOnSem(s: State, pcb: Pcb, call: Call, i: nat)
    requires InRange(s, call) && HasSem(s, i)
    ensures var t, e := Served(s, pcb, call), Syscall(0, pcb, call);
            && HasSem(t, i)
            && t.sems[i] == s.sems[i] + (if Signals(e, i) then 1 else if Waits(e, i) then -1 else 0)
            && Leaves(s, e, i) + t.waiting[i] == s.waiting[i] + Joins(s, e, i)
            && |t.waiting[i]| == |s.waiting[i]| + (if Blocks(s, e, i) then 1 else 0)
  {
    var line := s.waiting[i] + [pcb];
    assert line == [line[0]] + line[1..];
  }

  // ----- Runs

  function Delta(es: seq<Event>, i: nat): int
    decreases |es|
  {
    if es == [] then 0 else (if Signals(es[0], i) then 1 else if Waits(es[0], i) then -1 else 0) + Delta(es[1..], i)
  }

  /** Everyone who joins, and leaves, the list of semaphore i during a run. */
  function Joined(cfg: Config, s: State, es: seq<Event>, i: nat): seq<Pcb>
    requires cfg.Valid() && AllEnabled(cfg, s, es) && HasSem(s, i)
    decreases |es|
  {
    if es == [] then []
    else
      StepOnSem(cfg, s, es[0], i);
      Joins(s, es[0], i) + Joined(cfg, Next(cfg, s, es[0]), es[1..], i)
  }

  function Left(cfg: Config, s: State, es: seq<Event>, i: nat): seq<Pcb>
    requires cfg.Valid() && AllEnabled(cfg, s, es) && HasSem(s, i)
    decreases |es|
  {
    if es == [] then []
    else
      StepOnSem(cfg, s, es[0], i);
      Leaves(s, es[0], i) + Left(cfg, Next(cfg, s, es[0]), es[1..], i)
  }

  /** Over any run, kills included: a semaphore's value is its initial value minus the
      waits plus the signals; programs leave its list in the order they joined; and
      the list never gets shorter. */
  lemma {:induction false} RunOnSem(cfg: Config, s: State, es: seq<Event>, i: nat)
    requires cfg.Valid() && AllEnabled(cfg, s, es) && HasSem(s, i)
    ensures var t := Run(cfg, s, es);
            && HasSem(t, i)
            && t.sems[i] == s.sems[i] + Delta(es, i)
            && Left(cfg, s, es, i) + t.waiting[i] == s.waiting[i] + Joined(cfg, s, es, i)
            && |s.waiting[i]| <= |t.waiting[i]|
    decreases |es|
  {
    if es != [] {
      var t := Next(cfg, s, es[0]);
      StepOnSem(cfg, s, es[0], i);
      RunOnSem(cfg, t, es[1..], i);
      Chain(Leaves(s, es[0], i), Left(cfg, t, es[1..], i), Run(cfg, s, es).waiting[i], t.waiting[i],
            Joined(cfg, t, es[1..], i), s.waiting[i], Joins(s, es[0], i));
    }
  }

  /** From the start of the kernel: the configured value, and nobody waits who has not
      joined. */
  lemma ValuesFromTheStart(cfg: Config, sems: seq<int>, variables: nat, es: seq<Event>, i: nat)
    requires cfg.Valid() && AllEnabled(cfg, Initial(sems, variables), es) && i < |sems|
    ensures var s := Initial(sems, variables);
            var t := Run(cfg, s, es);
            && HasSem(s, i) && HasSem(t, i) && t.sems[i] == sems[i] + Delta(es, i)
            && Left(cfg, s, es, i) + t.waiting[i] == Joined(cfg, s, es, i)
  {
    RunOnSem(cfg, Initial(sems, variables), es, i);
  }

  // ----- Who is woken

  /** A signal wakes exactly one program: the one that has waited longest, or the
      caller when nobody waits. The caller takes its place among the blocked. */
  lemma SignalPassesTheTurn(s: State, cpu: int, pcb: Pcb, i: nat)
    requires Pids(s) && HasSem(s, i) && Roams(s, pcb.idProcess)
    ensures var t, head := Called(s, cpu, pcb, Signal(i)), Woken(s, pcb, i);
            && t.queues[READY] == s.queues[READY] + [head]
            && |t.queues[BLOCK]| == |s.queues[BLOCK]| && Count(t.queues[BLOCK], head.idProcess) == 0
            && (s.waiting[i] == [] ==> head == pcb && t.queues[BLOCK] == s.queues[BLOCK])
            && (s.waiting[i] != [] ==> head == s.waiting[i][0] && Count(t.queues[BLOCK], pcb.idProcess) == 1)
  {
    var head, t := Woken(s, pcb, i), Take(s, EXEC, pcb.idProcess);
    assert PidSound(s, pcb.idProcess) && PidSound(s, head.idProcess);
    SignalledSizes(s, pcb, i);
    WokenIsBlocked(s, pcb, i);
    CountWithout(s.queues[BLOCK] + [pcb], head.idProcess, head.idProcess);
    CountWithout(s.queues[BLOCK] + [pcb], head.idProcess, pcb.idProcess);
    RoamsIsOut(s, pcb.idProcess);
    CountAppend(s.queues[BLOCK], pcb, pcb.idProcess);
    if s.waiting[i] == [] { WithoutLast(s.queues[BLOCK], pcb); }
  }

  lemma {:induction false} WithoutLast(q: seq<Pcb>, p: Pcb)
    requires Count(q, p.idProcess) == 0
    ensures Without(q + [p], p.idProcess) == q
  {
    if q == [] {
      assert q + [p] == [p] && [p][1..] == [];
    } else {
      assert (q + [p])[1..] == q[1..] + [p];
      WithoutLast(q[1..], p);
    }
  }

  /** A wait blocks its program exactly when it leaves the value at 0 or below. */
  lemma WaitBlocksIff(s: State, cpu: int, pcb: Pcb, i: nat)
    requires HasSem(s, i) && Roams(s, pcb.idProcess)
    ensures var t := Called(s, cpu, pcb, Wait(i));
            && (Count(t.queues[BLOCK], pcb.idProcess) == 1 <==> t.sems[i] <= 0)
            && (Count(t.queues[READY], pcb.idProcess) == 1 <==> t.sems[i] > 0)
  {
    RoamsIsOut(s, pcb.idProcess);
    CountAppend(s.queues[BLOCK], pcb, pcb.idProcess);
    CountAppend(s.queues[READY], pcb, pcb.idProcess);
  }

  // ----- Blocked programs keep their places in the system

  lemma {:induction false} KillsKeepBlocked(s: State, pids: seq<int>)
    requires forall pid :: pid in pids ==> Total(s.queues, pid) <= 1 && Count(s.queues[BLOCK], pid) == 0
    ensures KilledAll(s, pids).queues[BLOCK] == s.queues[BLOCK]
    decreases |pids|
  {
    if pids != [] {
      KilledQueues(s, pids[0]);
      LengthWithout(s.queues[BLOCK], pids[0]);
      forall pid | pid in pids[1..] ensures Total(Killed(s, pids[0]).queues, pid) <= 1 {
        KilledCounts(s, pids[0], pid);
      }
      KillsKeepBlocked(Killed(s, pids[0]), pids[1..]);
    }
  }

  lemma StepNeverUnblocks(cfg: Config, s: State, e: Event)
    requires cfg.Valid() && Pids(s) && Enabled(s, e) && !Slips(s, e)
    ensures |Next(cfg, s, e).queues[BLOCK]| >= |s.queues[BLOCK]|
  {
    match e {
      case Syscall(c, pcb, call) =>
        match call {
          case Signal(i) => SignalPassesTheTurn(s, c, pcb, i);
          case ProgramEnd => LengthWithout(s.queues[BLOCK], pcb.idProcess);
          case _ =>
        }
      case ConsoleDrops(c) =>
        forall pid | pid in s.consoles[c] ensures Total(s.queues, pid) <= 1 && Count(s.queues[BLOCK], pid) == 0 {
          assert PidSound(s, pid);
        }
        KillsKeepBlocked(s.(consoles := s.consoles - {c}), s.consoles[c]);
      case Plan(granted) => AdmittedCounts(cfg, s, granted, 0);
      case _ =>
    }
  }

  /** Every wait that blocks takes a place of the multiprogramming level for good: a
      signal only hands the place over. */
  lemma {:induction false} RunNeverUnblocks(cfg: Config, s: State, es: seq<Event>)
    requires cfg.Valid() && Pids(s) && AllEnabled(cfg, s, es) && NeverSlips(cfg, s, es)
    ensures |Run(cfg, s, es).queues[BLOCK]| >= |s.queues[BLOCK]|
    decreases |es|
  {
    if es != [] {
      StepNeverUnblocks(cfg, s, es[0]);
      StepKeepsPidsIff(cfg, s, es[0]);
      RunNeverUnblocks(cfg, Next(cfg, s, es[0]), es[1..]);
    }
  }

  // ----- What a kill leaves behind

  /** No pid is in two queues. */
  ghost predicate Single(s: State) { forall pid :: Total(s.queues, pid) <= 1 }

  lemma SignalCounts(s: State, pcb: Pcb, i: nat, pid: int)
    requires HasSem(s, i) && Roams(s, pcb.idProcess)
    ensures var t, head := Served(s, pcb, Signal(i)), Woken(s, pcb, i).idProcess;
            && Total(t.queues, pid) == (if pid == pcb.idProcess then 1
                                        else Total(s.queues, pid)
                                             + if pid == head then 1 - Count(s.queues[BLOCK], pid) else 0)
            && Count(t.queues[READY], pid) == Count(s.queues[READY], pid) + One(Woken(s, pcb, i), pid)
            && t.queues[EXIT] == s.queues[EXIT]
  {
    RoamsIsOut(s, pcb.idProcess);
    TakeCounts(s, EXEC, pcb.idProcess, pid);
    SignalledCounts(Take(s, EXEC, pcb.idProcess), pcb, i, pid);
  }

  /** A signal leaves every pid in at most one queue if and only if the program it
      wakes is the caller, is blocked, or is in no queue at all. */
  lemma SignalIsSingleIff(s: State, pcb: Pcb, i: nat)
    requires HasSem(s, i) && Single(s) && Roams(s, pcb.idProcess)
    ensures var pid := Woken(s, pcb, i).idProcess;
            Single(Served(s, pcb, Signal(i)))
            <==> pid == pcb.idProcess || Count(s.queues[BLOCK], pid) > 0 || Total(s.queues, pid) == 0
  {
    var t, head := Served(s, pcb, Signal(i)), Woken(s, pcb, i).idProcess;
    SignalCounts(s, pcb, i, head);
    TotalAtLeast(s.queues, BLOCK, head);
    if head == pcb.idProcess || Count(s.queues[BLOCK], head) > 0 || Total(s.queues, head) == 0 {
      forall pid: int ensures Total(t.queues, pid) <= 1 { SignalCounts(s, pcb, i, pid); }
    }
  }

  lemma {:induction false} KillsReachExit(s: State, pids: seq<int>, pid: int)
    requires forall x :: x in pids ==> Total(s.queues, x) <= 1
    requires Count(s.queues[EXIT], pid) == 1 || (pid in pids && Count(s.queues[BLOCK], pid) > 0)
    ensures Count(KilledAll(s, pids).queues[EXIT], pid) == 1
    decreases |pids|
  {
    if pids != [] {
      var t, status := Killed(s, pids[0]), StatusFrom(s.queues, pids[0], 0);
      forall x | x in pids[1..] ensures Total(t.queues, x) <= 1 { KilledCounts(s, pids[0], x); }
      KilledCounts(s, pids[0], pid);
      if status >= 0 {
        OnlyThere(s, status, pids[0]);
        if status != EXEC { EndedCounts(s, First(s.queues[status], pids[0]), EXIT_CONSOLE_KILLED, pid); }
      }
      assert pids == [pids[0]] + pids[1..];
      KillsReachExit(t, pids[1..], pid);
    }
  }

  /** A blocked program, once killed, is in exit. */
  lemma KilledIsInExit(s: State, console: int, pid: int)
    requires Once(s) && console in s.consoles && pid in s.consoles[console] && Count(s.queues[BLOCK], pid) > 0
    ensures 1 <= pid <= s.generatorPid && Count(Dropped(s, console).queues[EXIT], pid) == 1
  {
    assert PidOnce(s, pid);
    TotalAtLeast(s.queues, BLOCK, pid);
    forall x | x in s.consoles[console] ensures Total(s.queues, x) <= 1 { assert PidOnce(s, x); }
    KillsReachExit(s.(consoles := s.consoles - {console}), s.consoles[console], pid);
  }

  /** A program killed while it waits first in line comes back with the next signal:
      it is then ready to run and finished at once. */
  lemma KilledWaiterReturns(s: State, console: int, cpu: int, pcb: Pcb, i: nat)
    requires Once(s) && console in s.consoles && HasSem(s, i)
    requires s.waiting[i] != [] && s.waiting[i][0].idProcess in s.consoles[console]
    requires Count(s.queues[BLOCK], s.waiting[i][0].idProcess) > 0
    requires HasSem(Dropped(s, console), i) && Roams(Dropped(s, console), pcb.idProcess)
    ensures var t, pid := Called(Dropped(s, console), cpu, pcb, Signal(i)), s.waiting[i][0].idProcess;
            Count(t.queues[READY], pid) >= 1 && Count(t.queues[EXIT], pid) == 1 && Total(t.queues, pid) == 2
  {
    var pid, t := s.waiting[i][0].idProcess, Dropped(s, console);
    assert PidOnce(s, pid);
    TotalAtLeast(s.queues, BLOCK, pid);
    DroppedCounts(s, console, pid);
    KillsKeepSems(s.(consoles := s.consoles - {console}), s.consoles[console]);
    KilledIsInExit(s, console, pid);
    SignalCounts(t, pcb, i, pid);
    if pid == pcb.idProcess { RoamsIsOut(t, pid); }
  }

  /** One such state: program 1 waits, program 2 runs on processor 3 and is about to
      signal when the console of program 1 goes away. */
  lemma KilledWaiterExample(one: Pcb, two: Pcb)
    requires one.idProcess == 1 && two.idProcess == 2
    ensures var cfg := Config(2, 1, 0, 1);
            var s := State([[], [], [two], [one], []], [], [3], map[1 := [1], 2 := [2]], [], [0], [[one]], [], 2,
                           map[]);
            && Sound(cfg, s) && Complete(s)
            && Enabled(s, ConsoleDrops(1))
            && Enabled(Dropped(s, 1), Syscall(3, two, Signal(0))) && Proper(Dropped(s, 1), 3, 2)
            && Total(Called(Dropped(s, 1), 3, two, Signal(0)).queues, 1) == 2
  {
    var cfg := Config(2, 1, 0, 1);
    var s := State([[], [], [two], [one], []], [], [3], map[1 := [1], 2 := [2]], [], [0], [[one]], [], 2, map[]);
    forall pid: int ensures PidSound(s, pid) && Total(s.queues, pid) == if 1 <= pid <= 2 then 1 else 0 {
      ExampleCounts(one, two, pid);
    }
    forall cpu: int ensures CpuSound(s, cpu) {
    }
    PidsOnce(s);
    DroppedCounts(s, 1, 2);
    KillsKeepSems(s.(consoles := s.consoles - {1}), s.consoles[1]);
    CountOne(one, 1);
    CountOne(two, 2);
    KilledWaiterReturns(s, 1, 3, two, 0);
  }

  lemma ExampleCounts(one: Pcb, two: Pcb, pid: int)
    requires one.idProcess == 1 && two.idProcess == 2
    ensures Total([[], [], [two], [one], []], pid) == if 1 <= pid <= 2 then 1 else 0
    ensures Total([[one]], pid) == Count([one], pid)
  {
    var none: seq<seq<Pcb>> := [[], [], [], [], []];
    TotalZero(none, pid);
    CountOne(one, pid);
    CountOne(two, pid);
    TotalUpdate(none, EXEC, [two], pid);
    TotalUpdate(none[EXEC := [two]], BLOCK, [one], pid);
    assert none[EXEC := [two]][BLOCK := [one]] == [[], [], [two], [one], []];
    assert [[one]][1..] == [];
  }
}
