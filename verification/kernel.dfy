// Kernel/src: the handlers as they run, on the kernel's global lists. Each is proved to
// take the state where KernelStates says.
module Kernels {
  import opened Bytes
  import opened Structures
  import opened KernelStates
  import KernelAdmission

  /** mlist_find by pid. */
  method Find(q: seq<Pcb>, pid: int) returns (r: Option<Pcb>)
    ensures r == if Count(q, pid) > 0 then Some(First(q, pid)) else None
  {
    var i := 0;
    assert q[0..] == q;
    while i < |q| && q[i].idProcess != pid
      invariant i <= |q| && Count(q[i..], pid) == Count(q, pid)
      invariant Count(q, pid) > 0 ==> First(q[i..], pid) == First(q, pid)
    {
      assert q[i..][1..] == q[i + 1..];
      i := i + 1;
    }
    r := if i < |q| then Some(q[i]) else None;
  }

  /** mlist_remove by pid. */
  method Remove(q: seq<Pcb>, pid: int) returns (r: seq<Pcb>)
    ensures r == Without(q, pid)
  {
    r := [];
    assert q[0..] == q;
    for i := 0 to |q|
      invariant r + Without(q[i..], pid) == Without(q, pid)
    {
      assert q[i..][1..] == q[i + 1..];
      if q[i].idProcess != pid { r := r + [q[i]]; }
    }
  }

  method RemoveClient(xs: seq<int>, x: int) returns (r: seq<int>)
    ensures r == Removed(xs, x)
  {
    r := [];
    assert xs[0..] == xs;
    for i := 0 to |xs|
      invariant r + Removed(xs[i..], x) == Removed(xs, x)
    {
      assert xs[i..][1..] == xs[i + 1..];
      if xs[i] != x { r := r + [xs[i]]; }
    }
  }

  class Kernel {
    const cfg: Config
    var pcbNew: seq<Pcb>
    var pcbReady: seq<Pcb>
    var pcbExec: seq<Pcb>
    var pcbBlock: seq<Pcb>
    var pcbExit: seq<Pcb>
    var cpuConectadas: seq<int>
    var cpuExecuting: seq<int>
    var consolasConectadas: map<int, seq<int>>
    var codesMs: seq<seq<byte>>
    var semAnsisop: seq<int>
    var solicitudesSem: seq<seq<Pcb>>
    var sharedValues: seq<int>
    var generatorPid: int
    ghost var submitted: map<int, seq<byte>>

    ghost function S(): State
      reads this
    {
      var queues: seq<seq<Pcb>> := [pcbNew, pcbReady, pcbExec, pcbBlock, pcbExit];
      assert |queues| == NUM_STATUSES;
      State(queues, cpuConectadas, cpuExecuting, consolasConectadas, codesMs,
            semAnsisop, solicitudesSem, sharedValues, generatorPid, submitted)
    }

    constructor (cfg: Config, sems: seq<int>, variables: nat)
      ensures S() == Initial(sems, variables) && this.cfg == cfg
    {
      this.cfg := cfg;
      pcbNew, pcbReady, pcbExec, pcbBlock, pcbExit := [], [], [], [], [];
      cpuConectadas, cpuExecuting, consolasConectadas, codesMs := [], [], map[], [];
      semAnsisop, solicitudesSem, sharedValues := sems, seq(|sems|, _ => []), seq(variables, _ => 0);
      generatorPid, submitted := 0, map[];
    }

    /** status_queue. */
    function Queue(status: nat): (q: seq<Pcb>)
      requires status < NUM_STATUSES
      reads this
      ensures q == S().queues[status]
    {
      if status == NEW then pcbNew else if status == READY then pcbReady else if status == EXEC then pcbExec
      else if status == BLOCK then pcbBlock else pcbExit
    }

    method SetQueue(status: nat, q: seq<Pcb>)
      requires status < NUM_STATUSES
      modifies this
      ensures S() == old(S()).(queues := old(S()).queues[status := q])
    {
      if status == NEW { pcbNew := q; }
      else if status == READY { pcbReady := q; }
      else if status == EXEC { pcbExec := q; }
      else if status == BLOCK { pcbBlock := q; }
      else { pcbExit := q; }
    }

    method Append(status: nat, pcb: Pcb)
      requires status < NUM_STATUSES
      modifies this
      ensures S() == Put(old(S()), status, pcb)
    {
      SetQueue(status, Queue(status) + [pcb]);
    }

    method RemoveFrom(status: nat, pid: int)
      requires status < NUM_STATUSES
      modifies this
      ensures S() == Take(old(S()), status, pid)
    {
      var q := Remove(Queue(status), pid);
      SetQueue(status, q);
    }

    /** pcb_by_id: the queues are searched from new to exit. */
    method PcbById(pid: int) returns (pcb: Option<Pcb>)
      ensures pcb == var i := StatusFrom(S().queues, pid, 0);
                     if i == -1 then None else Some(First(S().queues[i], pid))
    {
      pcb := None;
      for i := 0 to NUM_STATUSES
        invariant StatusFrom(S().queues, pid, 0) == StatusFrom(S().queues, pid, i)
      {
        pcb := Find(Queue(i), pid);
        if pcb.Some? { return; }
      }
      return None;
    }

    /** pcb_status. */
    method PcbStatus(pid: int) returns (status: int)
      ensures status == StatusFrom(S().queues, pid, 0)
    {
      for i := 0 to NUM_STATUSES
        invariant StatusFrom(S().queues, pid, 0) == StatusFrom(S().queues, pid, i)
      {
        var pcb := Find(Queue(i), pid);
        if pcb.Some? { return i; }
      }
      return -1;
    }

    /** pcb_remove. */
    method PcbRemove(pid: int)
      modifies this
      ensures S() == Purged(old(S()), pid)
    {
      ghost var was := S();
      for i := 0 to NUM_STATUSES
        invariant S() == was.(queues := S().queues)
        invariant forall j :: 0 <= j < NUM_STATUSES ==>
                    S().queues[j] == if j < i then Without(was.queues[j], pid) else was.queues[j]
      {
        RemoveFrom(i, pid);
      }
      assert S().queues == Purged(was, pid).queues;
    }

    /** end_program. */
    method EndProgram(pcb: Pcb, code: int)
      modifies this
      ensures S() == Ended(old(S()), pcb, code)
    {
      PcbRemove(pcb.idProcess);
      Append(EXIT, pcb.(exitCode := code));
    }

    method RestoreCpu(cpu: int)
      modifies this
      ensures S() == Restored(old(S()), cpu)
    {
      cpuExecuting := RemoveClient(cpuExecuting, cpu);
      cpuConectadas := cpuConectadas + [cpu];
    }

    /** gestion_datos_newPcb. */
    method CreatePcb(console: int, program: Program)
      requires console in consolasConectadas
      modifies this
      ensures S() == Created(cfg, old(S()), console, program)
    {
      generatorPid := generatorPid + 1;
      codesMs := codesMs + [program.code];
      consolasConectadas := consolasConectadas[console := consolasConectadas[console] + [generatorPid]];
      submitted := submitted[generatorPid := program.code];
      Append(NEW, NewPcb(cfg, generatorPid, program));
    }

    /** gestion_syscall, with what is sent back to the CPU. */
    method HandleCall(cpu: int, pcb: Pcb, call: Call) returns (answer: Option<int>)
      requires InRange(S(), call)
      modifies this
      ensures S() == Called(old(S()), cpu, pcb, call) && answer == Answer(old(S()), call)
    {
      answer := None;
      RemoveFrom(EXEC, pcb.idProcess);
      match call {
        case ProgramEnd =>
          EndProgram(pcb, EXIT_SUCCESSFUL);
          RestoreCpu(cpu);
        case Wait(i) =>
          HandleWait(pcb, i);
          RestoreCpu(cpu);
        case Signal(i) =>
          HandleSignal(pcb, i);
          RestoreCpu(cpu);
        case GetShared(v) =>
          answer := Some(sharedValues[v]);
          RestoreCpu(cpu);
        case SetShared(v, value) =>
          sharedValues := sharedValues[v := value];
          RestoreCpu(cpu);
        case OtherCall =>
      }
    }

    method HandleWait(pcb: Pcb, i: nat)
      requires i < |S().sems| == |S().waiting|
      modifies this
      ensures S() == Waited(old(S()), pcb, i)
    {
      semAnsisop := semAnsisop[i := semAnsisop[i] - 1];
      if semAnsisop[i] > 0 {
        Append(READY, pcb);
      } else {
        Append(BLOCK, pcb);
        solicitudesSem := solicitudesSem[i := solicitudesSem[i] + [pcb]];
      }
    }

    method HandleSignal(pcb: Pcb, i: nat)
      requires i < |S().sems| == |S().waiting|
      modifies this
      ensures S() == Signalled(old(S()), pcb, i)
    {
      semAnsisop := semAnsisop[i := semAnsisop[i] + 1];
      Append(BLOCK, pcb);
      solicitudesSem := solicitudesSem[i := solicitudesSem[i] + [pcb]];
      var ready := solicitudesSem[i][0];
      solicitudesSem := solicitudesSem[i := solicitudesSem[i][1..]];
      Append(READY, ready);
      RemoveFrom(BLOCK, ready.idProcess);
    }

    /** The first half of planificacion; request is what the memory is asked for. */
    method Admit(granted: bool) returns (request: Option<(int, int)>)
      requires cfg.Valid() && (S().queues[NEW] != [] ==> S().codes != [])
      modifies this
      ensures S() == Admitted(cfg, old(S()), granted) && request == Request(cfg, old(S()))
    {
      request := None;
      var progsInSystem := |pcbReady| + |pcbExec| + |pcbBlock|;
      if progsInSystem < cfg.level && pcbNew != [] {
        var code := codesMs[0];
        codesMs := codesMs[1..];
        var pages := |code| / cfg.pageSize + (if |code| % cfg.pageSize != 0 then 1 else 0) + cfg.stackSize;
        var pcb := pcbNew[0];
        SetQueue(NEW, pcbNew[1..]);
        request := Some((pcb.idProcess, pages));
        if granted {
          Append(READY, pcb.(pagesCode := pages - cfg.stackSize));
        } else {
          Append(EXIT, pcb.(exitCode := EXIT_RESOURCE_FAIL));
        }
      }
    }

    /** The loop of planificacion; sent is who was told to run what. */
    method Dispatch() returns (sent: seq<(Pcb, int)>)
      modifies this
      ensures S() == Dispatched(old(S()))
      ensures sent == KernelAdmission.Pairing(old(S()))
      ensures pcbReady == [] || cpuConectadas == []
    {
      sent := [];
      ghost var was := S();
      AfterNone(was);
      while pcbReady != [] && cpuConectadas != []
        invariant |sent| <= Pairs(was) && S() == After(was, |sent|)
        invariant pcbReady == was.queues[READY][|sent|..] && cpuConectadas == was.idle[|sent|..]
        invariant forall k :: 0 <= k < |sent| ==> sent[k] == (was.queues[READY][k], was.idle[k])
        decreases |pcbReady|
      {
        AfterOne(was, |sent|);
        var pcb, cpu := pcbReady[0], cpuConectadas[0];
        sent := sent + [(pcb, cpu)];
        SetQueue(READY, pcbReady[1..]);
        cpuConectadas := cpuConectadas[1..];
        Append(EXEC, pcb);
        cpuExecuting := cpuExecuting + [cpu];
        assert S().queues[READY] == pcbReady;
      }
      assert |sent| == Pairs(was);
    }

    /** planificacion, with the memory's answer to the admission. */
    method Schedule(granted: bool) returns (sent: seq<(Pcb, int)>)
      requires cfg.Valid() && Enabled(S(), Plan(granted))
      modifies this
      ensures S() == Next(cfg, old(S()), Plan(granted))
      ensures sent == KernelAdmission.Pairing(Admitted(cfg, old(S()), granted))
    {
      var _ := Admit(granted);
      sent := Dispatch();
    }

    /** destroy_console. */
    method DestroyConsole(console: int)
      requires console in consolasConectadas
      modifies this
      ensures S() == Dropped(old(S()), console)
    {
      var pids := consolasConectadas[console];
      consolasConectadas := consolasConectadas - {console};
      ghost var all := KilledAll(S(), pids);
      assert pids[0..] == pids;
      for i := 0 to |pids|
        invariant KilledAll(S(), pids[i..]) == all
      {
        assert pids[i..][1..] == pids[i + 1..];
        var pcb := PcbById(pids[i]);
        if pcb.Some? {
          var status := PcbStatus(pcb.value.idProcess);
          if status != EXEC { EndProgram(pcb.value, EXIT_CONSOLE_KILLED); }
        }
      }
    }

    /** One event of init_server's loop. */
    method Handle(e: Event)
      requires cfg.Valid() && Enabled(S(), e)
      modifies this
      ensures S() == Next(cfg, old(S()), e)
    {
      match e {
        case ConsoleConnects(c) => consolasConectadas := consolasConectadas[c := []];
        case CpuConnects(c) => cpuConectadas := cpuConectadas + [c];
        case NewProgram(c, program) => CreatePcb(c, program);
        case Syscall(c, pcb, call) => var _ := HandleCall(c, pcb, call);
        case ConsoleDrops(c) => DestroyConsole(c);
        case Plan(granted) => var _ := Schedule(granted);
      }
    }

    method Serve(es: seq<Event>)
      requires cfg.Valid() && AllEnabled(cfg, S(), es)
      modifies this
      ensures S() == Run(cfg, old(S()), es)
    {
      ghost var last := Run(cfg, S(), es);
      assert es[0..] == es;
      for i := 0 to |es|
        invariant AllEnabled(cfg, S(), es[i..]) && Run(cfg, S(), es[i..]) == last
      {
        assert es[i..][0] == es[i] && es[i..][1..] == es[i + 1..];
        Handle(es[i]);
      }
    }
  }

  /** The state after n turns of the dispatch loop. */
  ghost function After(s: State, n: nat): State
    requires n <= Pairs(s)
  {
    s.(queues := s.queues[READY := s.queues[READY][n..]][EXEC := s.queues[EXEC] + s.queues[READY][..n]],
       idle := s.idle[n..],
       executing := s.executing + s.idle[..n])
  }

  lemma AfterNone(s: State)
    ensures After(s, 0) == s
  {
    var t := After(s, 0);
    assert t.queues[READY] == s.queues[READY][0..] == s.queues[READY];
    assert t.queues[EXEC] == s.queues[EXEC] + s.queues[READY][..0] == s.queues[EXEC];
    assert t.queues == s.queues && s.idle[0..] == s.idle && s.executing + s.idle[..0] == s.executing;
  }

  lemma AfterOne(s: State, n: nat)
    requires n < Pairs(s)
    ensures var t, r := After(s, n), s.queues[READY];
            After(s, n + 1) == t.(queues := t.queues[READY := t.queues[READY][1..]]
                                                    [EXEC := t.queues[EXEC] + [t.queues[READY][0]]],
                                  idle := t.idle[1..],
                                  executing := t.executing + [t.idle[0]])
  {
    var r := s.queues[READY];
    assert r[..n + 1] == r[..n] + [r[n]] && s.idle[..n + 1] == s.idle[..n] + [s.idle[n]];
    assert r[n..][1..] == r[n + 1..] && s.idle[n..][1..] == s.idle[n + 1..];
    assert s.queues[EXEC] + (r[..n] + [r[n]]) == (s.queues[EXEC] + r[..n]) + [r[n]];
    assert s.executing + (s.idle[..n] + [s.idle[n]]) == (s.executing + s.idle[..n]) + [s.idle[n]];
    var t := After(s, n);
    assert After(s, n + 1).queues
        == t.queues[READY := t.queues[READY][1..]][EXEC := t.queues[EXEC] + [t.queues[READY][0]]];
  }
}
