// Kernel/src over whole runs, told from the events alone: which programs belong to which
// console and what becomes of them when it goes (Kernel.c:100-118, server.c:80-95), what a
// program is started as (Kernel.c:63-98), and which exit code it is left with
// (exitcode.c:6-10).
module KernelHistories {
  import opened Structures
  import opened KernelStates
  import opened KernelSafety
  import KA = KernelAdmission

  // ----- Whose programs they are

  /** The pid given out last: one for each program submitted. */
  function LastPid(es: seq<Event>): nat
    decreases |es|
  {
    if es == [] then 0 else LastPid(es[..|es| - 1]) + if es[|es| - 1].NewProgram? then 1 else 0
  }

  /** The console has connected and not gone since. */
  predicate Connected(es: seq<Event>, c: int)
    decreases |es|
  {
    es != []
    && var e := es[|es| - 1];
    || e == ConsoleConnects(c)
    || (e != ConsoleDrops(c) && Connected(es[..|es| - 1], c))
  }

  /** The pids of the programs it has submitted since it connected, in order. */
  function Submissions(es: seq<Event>, c: int): seq<int>
    decreases |es|
  {
    if es == [] then []
    else
      var e, before := es[|es| - 1], es[..|es| - 1];
      if e == ConsoleConnects(c) then []
      else if e.NewProgram? && e.client == c then Submissions(before, c) + [LastPid(es)]
      else Submissions(before, c)
  }

  /** The run up to the last event, and that event. */
  lemma {:induction false} RunSnoc(cfg: Config, s: State, es: seq<Event>, e: Event)
    requires cfg.Valid() && AllEnabled(cfg, s, es + [e])
    ensures AllEnabled(cfg, s, es) && Enabled(Run(cfg, s, es), e)
    ensures Run(cfg, s, es + [e]) == Next(cfg, Run(cfg, s, es), e)
    decreases |es|
  {
    if es == [] {
      assert es + [e] == [e] && [e][1..] == [];
    } else {
      assert (es + [e])[1..] == es[1..] + [e];
      RunSnoc(cfg, Next(cfg, s, es[0]), es[1..], e);
    }
  }

  lemma {:induction false} KillsKeepConsoles(s: State, pids: seq<int>)
    ensures KilledAll(s, pids).consoles == s.consoles && KilledAll(s, pids).generatorPid == s.generatorPid
    decreases |pids|
  {
    if pids != [] { KillsKeepConsoles(Killed(s, pids[0]), pids[1..]); }
  }

  lemma EventOnConsoles(cfg: Config, s: State, e: Event, c: int)
    requires cfg.Valid() && Enabled(s, e)
    ensures var t := Next(cfg, s, e);
            && t.generatorPid == s.generatorPid + (if e.NewProgram? then 1 else 0)
            && (c in t.consoles <==> e == ConsoleConnects(c) || (e != ConsoleDrops(c) && c in s.consoles))
            && (c in t.consoles ==>
                  t.consoles[c] == if e == ConsoleConnects(c) then []
                                   else if e.NewProgram? && e.client == c then s.consoles[c] + [t.generatorPid]
                                   else s.consoles[c])
  {
    if e.ConsoleDrops? { KillsKeepConsoles(s.(consoles := s.consoles - {e.client}), s.consoles[e.client]); }
  }

  /** After every run from the start the kernel knows exactly the consoles that are
      connected, and for each exactly the pids of its programs, in order. */
  lemma {:induction false} ConsolesOwnTheirPrograms(cfg: Config, sems: seq<int>, variables: nat, es: seq<Event>, c: int)
    requires cfg.Valid() && AllEnabled(cfg, Initial(sems, variables), es)
    ensures var t := Run(cfg, Initial(sems, variables), es);
            && t.generatorPid == LastPid(es)
            && (c in t.consoles <==> Connected(es, c))
            && (c in t.consoles ==> t.consoles[c] == Submissions(es, c))
    decreases |es|
  {
    if es != [] {
      var before, e := es[..|es| - 1], es[|es| - 1];
      assert es == before + [e];
      RunSnoc(cfg, Initial(sems, variables), before, e);
      ConsolesOwnTheirPrograms(cfg, sems, variables, before, c);
      EventOnConsoles(cfg, Run(cfg, Initial(sems, variables), before), e, c);
    }
  }

  // ----- What becomes of them

  lemma {:induction false} WithoutIff(q: seq<Pcb>, x: int, p: Pcb)
    ensures p in Without(q, x) <==> p in q && p.idProcess != x
  {
    if q != [] {
      WithoutIff(q[1..], x, p);
      assert q == [q[0]] + q[1..];
    }
  }

  /** In exit, once, in no other queue, and with that code. */
  ghost predicate EndedWith(s: State, pid: int, code: int) {
    && Count(s.queues[EXIT], pid) == 1 == Total(s.queues, pid)
    && forall p :: p in s.queues[EXIT] && p.idProcess == pid ==> p.exitCode == code
  }

  /** Nothing has happened to a program. */
  ghost predicate Untouched(s: State, t: State, pid: int) {
    Stays(s, t, pid) && forall p: Pcb :: p.idProcess == pid ==> (p in t.queues[EXIT] <==> p in s.queues[EXIT])
  }

  lemma EndIsEnd(s: State, p: Pcb, code: int)
    ensures EndedWith(Ended(s, p, code), p.idProcess, code)
    ensures var exit := Ended(s, p, code).queues[EXIT]; exit[|exit| - 1] == p.(exitCode := code)
  {
    EndedCounts(s, p, code, p.idProcess);
    forall q | q in Ended(s, p, code).queues[EXIT] && q.idProcess == p.idProcess ensures q.exitCode == code {
      WithoutIff(s.queues[EXIT], p.idProcess, q);
    }
  }

  lemma EndTouchesNoOther(s: State, p: Pcb, code: int, x: int)
    requires x != p.idProcess
    ensures Untouched(s, Ended(s, p, code), x)
  {
    EndedCounts(s, p, code, x);
    forall q: Pcb | q.idProcess == x ensures q in Ended(s, p, code).queues[EXIT] <==> q in s.queues[EXIT] {
      WithoutIff(s.queues[EXIT], p.idProcess, q);
    }
  }

  /** Whether a kill reaches a program: it is in some queue and not executing. */
  predicate Killable(s: State, pid: int) { Total(s.queues, pid) > 0 && Count(s.queues[EXEC], pid) == 0 }

  lemma KilledEnds(s: State, pid: int, x: int)
    requires Total(s.queues, pid) <= 1
    ensures var t := Killed(s, pid);
            if x == pid && Killable(s, pid) then EndedWith(t, x, -6) else Untouched(s, t, x)
  {
    var status := StatusFrom(s.queues, pid, 0);
    TotalZero(s.queues, pid);
    if status >= 0 {
      OnlyThere(s, status, pid);
      if status != EXEC {
        var p := First(s.queues[status], pid);
        EndIsEnd(s, p, EXIT_CONSOLE_KILLED);
        if x != pid { EndTouchesNoOther(s, p, EXIT_CONSOLE_KILLED, x); }
      }
    }
  }

  lemma UntouchedTwice(s: State, t: State, u: State, x: int, code: int)
    requires Untouched(t, u, x)
    ensures Untouched(s, t, x) ==> Untouched(s, u, x)
    ensures EndedWith(t, x, code) ==> EndedWith(u, x, code)
    ensures Total(u.queues, x) == Total(t.queues, x) && (Killable(u, x) <==> Killable(t, x))
  {
    TotalSame(t.queues, u.queues, x);
  }

  lemma {:induction false} KillsEnd(s: State, pids: seq<int>, x: int)
    requires forall pid :: pid in pids ==> Total(s.queues, pid) <= 1
    ensures var t := KilledAll(s, pids);
            if x in pids && Killable(s, x) then EndedWith(t, x, -6) else Untouched(s, t, x)
    decreases |pids|
  {
    if pids != [] {
      var t, rest := Killed(s, pids[0]), pids[1..];
      assert pids == [pids[0]] + rest;
      KilledEnds(s, pids[0], x);
      forall pid | pid in rest ensures Total(t.queues, pid) <= 1 { KilledCounts(s, pids[0], pid); }
      KillsEnd(t, rest, x);
      EndedIsKillable(t, x);
      if Untouched(s, t, x) { UntouchedTwice(s, s, t, x, -6); }
      if Untouched(t, KilledAll(t, rest), x) { UntouchedTwice(s, t, KilledAll(t, rest), x, -6); }
    }
  }

  lemma EndedIsKillable(s: State, x: int)
    ensures EndedWith(s, x, -6) ==> Killable(s, x)
  {
    if EndedWith(s, x, -6) { TotalOfTwo(s.queues, EXEC, EXIT, x); }
  }

  /** A console that goes away takes along exactly its programs that are in a queue and not
      executing, also those that had ended with another code: each is in exit, once, killed. */
  lemma DropEndsPrograms(s: State, console: int, x: int)
    requires Once(s) && console in s.consoles
    ensures var t := Dropped(s, console);
            && console !in t.consoles
            && if x in s.consoles[console] && Killable(s, x) then EndedWith(t, x, -6) else Untouched(s, t, x)
  {
    var r := s.(consoles := s.consoles - {console});
    forall pid | pid in s.consoles[console] ensures Total(r.queues, pid) <= 1 { assert PidOnce(s, pid); }
    KillsEnd(r, s.consoles[console], x);
    KillsKeepConsoles(r, s.consoles[console]);
  }

  /** From the start: after every run that doubles no program, a console that goes away ends
      exactly those it submitted since it connected, executing ones excepted. */
  lemma EveryDropEndsItsPrograms(cfg: Config, sems: seq<int>, variables: nat, es: seq<Event>, c: int, x: int)
    requires cfg.Valid() && AllEnabled(cfg, Initial(sems, variables), es)
    requires NeverDoubles(cfg, Initial(sems, variables), es) && Connected(es, c)
    ensures var s := Run(cfg, Initial(sems, variables), es);
            && Enabled(s, ConsoleDrops(c))
            && var t := Next(cfg, s, ConsoleDrops(c));
            if x in Submissions(es, c) && Killable(s, x) then EndedWith(t, x, -6) else Untouched(s, t, x)
  {
    InitialIsSound(cfg, sems, variables);
    PidsOnce(Initial(sems, variables));
    RunKeepsOnce(cfg, Initial(sems, variables), es);
    ConsolesOwnTheirPrograms(cfg, sems, variables, es, c);
    DropEndsPrograms(Run(cfg, Initial(sems, variables), es), c, x);
  }

  /** The end a CPU reports: in exit, once, with code 0, as the last there. */
  lemma ReportedEnd(s: State, cpu: int, pcb: Pcb)
    ensures var t := Called(s, cpu, pcb, ProgramEnd);
            && EndedWith(t, pcb.idProcess, 0)
            && t.queues[EXIT][|t.queues[EXIT]| - 1] == pcb.(exitCode := 0)
  {
    EndIsEnd(Take(s, EXEC, pcb.idProcess), pcb, EXIT_SUCCESSFUL);
  }

  // ----- What a program is started as

  /** The programs submitted, by pid. */
  function Programs(es: seq<Event>): map<int, Program>
    decreases |es|
  {
    if es == [] then map[]
    else
      var e, before := es[|es| - 1], Programs(es[..|es| - 1]);
      if e.NewProgram? then before[LastPid(es) := e.program] else before
  }

  /** Some call has carried the program's PCB. */
  ghost predicate HasCalled(es: seq<Event>, pid: int) { exists e :: e in es && e.Syscall? && e.pcb.idProcess == pid }

  predicate AsSubmitted(cfg: Config, es: seq<Event>, p: Pcb) {
    && p.idProcess in Programs(es)
    && var program := Programs(es)[p.idProcess];
    && p.PC == program.start && p.indexCode == program.instructions && p.indexTag == program.tags
    && p.quantum == cfg.quantum && p.stack == [] && p.stackPointer == 0 && p.status == 0 && p.exitCode == 0
  }

  ghost predicate Unchanged(cfg: Config, es: seq<Event>, q: seq<Pcb>) {
    forall p :: p in q ==> HasCalled(es, p.idProcess) || AsSubmitted(cfg, es, p)
  }

  ghost predicate AllCalled(es: seq<Event>, q: seq<Pcb>) { forall p :: p in q ==> HasCalled(es, p.idProcess) }

  ghost predicate Started(cfg: Config, es: seq<Event>, s: State) {
    && Unchanged(cfg, es, s.queues[NEW]) && Unchanged(cfg, es, s.queues[READY]) && Unchanged(cfg, es, s.queues[EXEC])
    && forall i :: 0 <= i < |s.waiting| ==> AllCalled(es, s.waiting[i])
  }

  lemma {:induction false} ProgramsByPid(es: seq<Event>)
    ensures forall pid :: pid in Programs(es) <==> 1 <= pid <= LastPid(es)
    decreases |es|
  {
    if es != [] { ProgramsByPid(es[..|es| - 1]); }
  }

  /** One more event. */
  lemma Later(cfg: Config, es: seq<Event>, e: Event)
    ensures forall pid :: HasCalled(es, pid) ==> HasCalled(es + [e], pid)
    ensures forall p :: AsSubmitted(cfg, es, p) ==> AsSubmitted(cfg, es + [e], p)
    ensures e.Syscall? ==> HasCalled(es + [e], e.pcb.idProcess)
    ensures LastPid(es + [e]) == LastPid(es) + if e.NewProgram? then 1 else 0
    ensures e.NewProgram? ==> Programs(es + [e]) == Programs(es)[LastPid(es) + 1 := e.program]
  {
    var all := es + [e];
    assert all[..|all| - 1] == es && all[|all| - 1] == e && e in all;
    ProgramsByPid(es);
    forall pid | HasCalled(es, pid) ensures HasCalled(all, pid) {
      var x :| x in es && x.Syscall? && x.pcb.idProcess == pid;
      assert x in all;
    }
  }

  lemma LaterUnchanged(cfg: Config, es: seq<Event>, e: Event, q: seq<Pcb>, x: int)
    ensures Unchanged(cfg, es, q) ==> Unchanged(cfg, es + [e], q) && Unchanged(cfg, es + [e], Without(q, x))
    ensures AllCalled(es, q) ==> AllCalled(es + [e], q)
  {
    Later(cfg, es, e);
    forall p | p in Without(q, x) ensures p in q { WithoutIff(q, x, p); }
  }

  /** What a later state must keep to. */
  ghost predicate Drawn(cfg: Config, es: seq<Event>, s: State, t: State) {
    && (forall p :: p in t.queues[NEW] ==> p in s.queues[NEW] || HasCalled(es, p.idProcess) || AsSubmitted(cfg, es, p))
    && (forall p :: p in t.queues[READY] ==>
          p in s.queues[READY] || HasCalled(es, p.idProcess) || AsSubmitted(cfg, es, p))
    && (forall p :: p in t.queues[EXEC] ==>
          p in s.queues[EXEC] || p in s.queues[READY] || HasCalled(es, p.idProcess) || AsSubmitted(cfg, es, p))
    && |t.waiting| == |s.waiting|
    && forall i :: 0 <= i < |t.waiting| ==>
         forall p :: p in t.waiting[i] ==> p in s.waiting[i] || HasCalled(es, p.idProcess)
  }

  lemma DrawnStarts(cfg: Config, es: seq<Event>, e: Event, s: State, t: State)
    requires Started(cfg, es, s) && Drawn(cfg, es + [e], s, t)
    ensures Started(cfg, es + [e], t)
  {
    Later(cfg, es, e);
    forall i | 0 <= i < |t.waiting| ensures AllCalled(es + [e], t.waiting[i]) {
      assert AllCalled(es, s.waiting[i]);
    }
  }

  lemma CallDraws(cfg: Config, es: seq<Event>, s: State, cpu: int, pcb: Pcb, call: Call)
    requires InRange(s, call) && HasCalled(es, pcb.idProcess)
    requires forall i :: 0 <= i < |s.waiting| ==> AllCalled(es, s.waiting[i])
    ensures Drawn(cfg, es, s, Called(s, cpu, pcb, call))
  {
    var t := Called(s, cpu, pcb, call);
    forall p | p in t.queues[NEW] ensures p in s.queues[NEW] { WithoutIff(s.queues[NEW], pcb.idProcess, p); }
    forall p | p in t.queues[EXEC] ensures p in s.queues[EXEC] {
      WithoutIff(Without(s.queues[EXEC], pcb.idProcess), pcb.idProcess, p);
      WithoutIff(s.queues[EXEC], pcb.idProcess, p);
    }
    forall p | p in t.queues[READY] ensures p in s.queues[READY] || HasCalled(es, p.idProcess) {
      WithoutIff(s.queues[READY], pcb.idProcess, p);
      if call.Signal? { assert AllCalled(es, s.waiting[call.sem]); }
    }
  }

  lemma {:induction false} KillsDraw(cfg: Config, es: seq<Event>, s: State, pids: seq<int>)
    ensures Drawn(cfg, es, s, KilledAll(s, pids))
    decreases |pids|
  {
    if pids != [] {
      var t := Killed(s, pids[0]);
      forall p: Pcb
        ensures p in t.queues[NEW] ==> p in s.queues[NEW]
        ensures p in t.queues[READY] ==> p in s.queues[READY]
        ensures p in t.queues[EXEC] ==> p in s.queues[EXEC]
      {
        WithoutIff(s.queues[NEW], pids[0], p);
        WithoutIff(s.queues[READY], pids[0], p);
        WithoutIff(s.queues[EXEC], pids[0], p);
      }
      KillsDraw(cfg, es, t, pids[1..]);
    }
  }

  lemma PlanDraws(cfg: Config, es: seq<Event>, s: State, granted: bool)
    requires cfg.Valid() && Enabled(s, Plan(granted)) && Unchanged(cfg, es, s.queues[NEW])
    ensures Drawn(cfg, es, s, Next(cfg, s, Plan(granted)))
  {
    var t := Admitted(cfg, s, granted);
    forall p | p in t.queues[READY]
      ensures p in s.queues[READY] || HasCalled(es, p.idProcess) || AsSubmitted(cfg, es, p)
    {
      if p !in s.queues[READY] { assert s.queues[NEW][0] in s.queues[NEW]; }
    }
  }

  lemma StepStarts(cfg: Config, es: seq<Event>, s: State, e: Event)
    requires cfg.Valid() && Enabled(s, e) && s.generatorPid == LastPid(es) && Started(cfg, es, s)
    ensures Started(cfg, es + [e], Next(cfg, s, e))
  {
    Later(cfg, es, e);
    match e {
      case NewProgram(c, program) =>
      case Syscall(c, pcb, call) =>
        forall i | 0 <= i < |s.waiting| ensures AllCalled(es + [e], s.waiting[i]) {
          assert AllCalled(es, s.waiting[i]);
        }
        CallDraws(cfg, es + [e], s, c, pcb, call);
      case ConsoleDrops(c) => KillsDraw(cfg, es + [e], s.(consoles := s.consoles - {c}), s.consoles[c]);
      case Plan(granted) =>
        LaterUnchanged(cfg, es, e, s.queues[NEW], 0);
        PlanDraws(cfg, es + [e], s, granted);
      case _ =>
    }
    DrawnStarts(cfg, es, e, s, Next(cfg, s, e));
  }

  /** After every run from the start, a program that has made no call, new, ready or
      executing, has the start, the instructions and the tags it was submitted with, the
      configured quantum and an empty stack: so it is dispatched the first time. */
  lemma {:induction false} ProgramsStartAsSubmitted(cfg: Config, sems: seq<int>, variables: nat, es: seq<Event>)
    requires cfg.Valid() && AllEnabled(cfg, Initial(sems, variables), es)
    ensures Started(cfg, es, Run(cfg, Initial(sems, variables), es))
    decreases |es|
  {
    if es != [] {
      var before, e := es[..|es| - 1], es[|es| - 1];
      assert es == before + [e];
      RunSnoc(cfg, Initial(sems, variables), before, e);
      ConsolesOwnTheirPrograms(cfg, sems, variables, before, 0);
      ProgramsStartAsSubmitted(cfg, sems, variables, before);
      StepStarts(cfg, before, Run(cfg, Initial(sems, variables), before), e);
    }
  }

  /** Who is dispatched at a planning after such a run, and has made no call before. */
  lemma FirstDispatch(cfg: Config, sems: seq<int>, variables: nat, es: seq<Event>, granted: bool, k: nat)
    requires cfg.Valid() && AllEnabled(cfg, Initial(sems, variables), es)
    requires Enabled(Run(cfg, Initial(sems, variables), es), Plan(granted))
    requires k < Pairs(Admitted(cfg, Run(cfg, Initial(sems, variables), es), granted))
    ensures var pairs := KA.Pairing(Admitted(cfg, Run(cfg, Initial(sems, variables), es), granted));
            HasCalled(es, pairs[k].0.idProcess) || AsSubmitted(cfg, es, pairs[k].0)
  {
    var s := Run(cfg, Initial(sems, variables), es);
    ProgramsStartAsSubmitted(cfg, sems, variables, es);
    PlanDraws(cfg, es, s, granted);
    var t := Admitted(cfg, s, granted);
    assert t.queues[READY][k] in t.queues[READY][..Pairs(t)];
    assert t.queues[READY][k] in Dispatched(t).queues[EXEC];
  }
}
