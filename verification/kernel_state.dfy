// Kernel/src: the scheduler's state and what each handler makes of it. Handlers run
// one at a time under mutex_planificacion, so each is one step.
module KernelStates {
  import opened Bytes
  import opened Structures
  import opened Uploads

  const NEW := 0
  const READY := 1
  const EXEC := 2
  const BLOCK := 3
  const EXIT := 4
  const NUM_STATUSES := 5

  const EXIT_SUCCESSFUL := 0
  const EXIT_RESOURCE_FAIL := -1
  const EXIT_CONSOLE_KILLED := -6

  /** pcb_new, pcb_ready, pcb_exec, pcb_block and pcb_exit, as status_queue orders them. */
  type Queues = q: seq<seq<Pcb>> | |q| == NUM_STATUSES witness [[], [], [], [], []]

  datatype Config = Config(level: int, pageSize: int, stackSize: int, quantum: int) {
    predicate Valid() { pageSize > 0 }
  }

  datatype State = State(
    queues: Queues,
    idle: seq<int>,                      // cpu_conectadas
    executing: seq<int>,                 // cpu_executing
    consoles: map<int, seq<int>>,        // consolas_conectadas with their pids
    codes: seq<seq<byte>>,               // codes_ms
    sems: seq<int>,                      // sem_ansisop
    waiting: seq<seq<Pcb>>,              // solicitudes_sem
    shared: seq<int>,                    // shared_values
    generatorPid: int,
    submitted: map<int, seq<byte>>)      // history: what was submitted as each pid

  /** What the external parser makes of a program's text. */
  datatype Program = Program(code: seq<byte>, start: int, instructions: seq<Instruction>, tags: seq<Tag>)

  datatype Call =
    | ProgramEnd
    | Wait(sem: nat)
    | Signal(sem: nat)
    | GetShared(v: nat)
    | SetShared(v: nat, value: int)
    | OtherCall

  datatype Event =
    | ConsoleConnects(client: int)
    | CpuConnects(client: int)
    | NewProgram(client: int, program: Program)
    | Syscall(client: int, pcb: Pcb, call: Call)
    | ConsoleDrops(client: int)
    | Plan(granted: bool)                // with the memory's answer to the admission

  // ----- Lists keyed by pid

  function Count(q: seq<Pcb>, pid: int): nat {
    if q == [] then 0 else (if q[0].idProcess == pid then 1 else 0) + Count(q[1..], pid)
  }

  /** mlist_remove of the PCBs of a pid. */
  function Without(q: seq<Pcb>, pid: int): seq<Pcb> {
    if q == [] then [] else (if q[0].idProcess == pid then [] else [q[0]]) + Without(q[1..], pid)
  }

  /** mlist_find of a pid. */
  function First(q: seq<Pcb>, pid: int): (p: Pcb)
    requires Count(q, pid) > 0
    ensures p.idProcess == pid && p in q
  {
    if q[0].idProcess == pid then q[0] else First(q[1..], pid)
  }

  function Total(qs: seq<seq<Pcb>>, pid: int): nat {
    if qs == [] then 0 else Count(qs[0], pid) + Total(qs[1..], pid)
  }

  /** mlist_remove of a client. */
  function Removed(xs: seq<int>, x: int): seq<int> {
    if xs == [] then [] else (if xs[0] == x then [] else [xs[0]]) + Removed(xs[1..], x)
  }

  lemma {:induction false} CountSum(a: seq<Pcb>, b: seq<Pcb>, pid: int)
    ensures Count(a + b, pid) == Count(a, pid) + Count(b, pid)
  {
    if a == [] {
      assert a + b == b;
    } else {
      CountSum(a[1..], b, pid);
      assert (a + b)[1..] == a[1..] + b;
    }
  }

  lemma CountSplit(q: seq<Pcb>, n: nat, pid: int)
    requires n <= |q|
    ensures Count(q, pid) == Count(q[..n], pid) + Count(q[n..], pid)
  {
    assert q == q[..n] + q[n..];
    CountSum(q[..n], q[n..], pid);
  }

  lemma CountOne(p: Pcb, pid: int)
    ensures Count([p], pid) == if p.idProcess == pid then 1 else 0
  {
    assert [p][1..] == [];
  }

  lemma {:induction false} CountWithout(q: seq<Pcb>, x: int, pid: int)
    ensures Count(Without(q, x), pid) == if pid == x then 0 else Count(q, pid)
  {
    if q != [] {
      CountWithout(q[1..], x, pid);
      CountOne(q[0], pid);
      CountSum(if q[0].idProcess == x then [] else [q[0]], Without(q[1..], x), pid);
    }
  }

  lemma {:induction false} LengthWithout(q: seq<Pcb>, x: int)
    ensures |Without(q, x)| == |q| - Count(q, x)
    ensures Count(q, x) == 0 ==> Without(q, x) == q
  {
    if q != [] { LengthWithout(q[1..], x); }
  }

  lemma {:induction false} TotalUpdate(qs: seq<seq<Pcb>>, i: nat, q: seq<Pcb>, pid: int)
    requires i < |qs|
    ensures Total(qs[i := q], pid) == Total(qs, pid) - Count(qs[i], pid) + Count(q, pid)
  {
    if i > 0 {
      TotalUpdate(qs[1..], i - 1, q, pid);
      assert qs[i := q][1..] == qs[1..][i - 1 := q];
    } else {
      assert qs[i := q][1..] == qs[1..];
    }
  }

  lemma {:induction false} TotalAtLeast(qs: seq<seq<Pcb>>, i: nat, pid: int)
    requires i < |qs|
    ensures Count(qs[i], pid) <= Total(qs, pid)
  {
    if i > 0 { TotalAtLeast(qs[1..], i - 1, pid); }
  }

  /** Two lists that both hold a pid hold it twice between them. */
  lemma {:induction false} TotalOfTwo(qs: seq<seq<Pcb>>, i: nat, j: nat, pid: int)
    requires i < j < |qs|
    ensures Count(qs[i], pid) + Count(qs[j], pid) <= Total(qs, pid)
  {
    if i > 0 { TotalOfTwo(qs[1..], i - 1, j - 1, pid); } else { TotalAtLeast(qs[1..], j - 1, pid); }
  }

  lemma {:induction false} TotalZero(qs: seq<seq<Pcb>>, pid: int)
    ensures Total(qs, pid) == 0 <==> forall i :: 0 <= i < |qs| ==> Count(qs[i], pid) == 0
  {
    if qs != [] {
      TotalZero(qs[1..], pid);
      assert forall i :: 1 <= i < |qs| ==> qs[1..][i - 1] == qs[i];
    }
  }

  lemma {:induction false} TotalSame(qs: seq<seq<Pcb>>, rs: seq<seq<Pcb>>, pid: int)
    requires |qs| == |rs| && forall i :: 0 <= i < |qs| ==> Count(qs[i], pid) == Count(rs[i], pid)
    ensures Total(qs, pid) == Total(rs, pid)
  {
    if qs != [] { TotalSame(qs[1..], rs[1..], pid); }
  }

  lemma {:induction false} RemovedBag(xs: seq<int>, x: int)
    ensures multiset(Removed(xs, x)) == multiset(xs)[x := 0]
  {
    if xs != [] {
      RemovedBag(xs[1..], x);
      assert xs == [xs[0]] + xs[1..];
      assert multiset(Removed(xs, x)) == multiset(if xs[0] == x then [] else [xs[0]]) + multiset(Removed(xs[1..], x));
    }
  }

  // ----- Parts of handlers

  /** mlist_append to a queue. */
  function Put(s: State, status: nat, pcb: Pcb): State
    requires status < NUM_STATUSES
  {
    s.(queues := s.queues[status := s.queues[status] + [pcb]])
  }

  /** mlist_remove of a pid from a queue. */
  function Take(s: State, status: nat, pid: int): State
    requires status < NUM_STATUSES
  {
    s.(queues := s.queues[status := Without(s.queues[status], pid)])
  }

  /** pcb_remove. */
  function Purged(s: State, pid: int): State {
    s.(queues := seq(NUM_STATUSES, i requires 0 <= i < NUM_STATUSES => Without(s.queues[i], pid)))
  }

  /** end_program. */
  function Ended(s: State, pcb: Pcb, code: int): State {
    Put(Purged(s, pcb.idProcess), EXIT, pcb.(exitCode := code))
  }

  /** restoreCPU. */
  function Restored(s: State, cpu: int): State {
    s.(executing := Removed(s.executing, cpu), idle := s.idle + [cpu])
  }

  // ----- Handlers

  /** crear_pcb_proceso. */
  function NewPcb(cfg: Config, pid: int, program: Program): Pcb {
    Pcb(pid, program.start, cfg.quantum, NEW, 0, program.instructions, program.tags, [], 0, 0)
  }

  /** gestion_datos_newPcb. */
  function Created(cfg: Config, s: State, console: int, program: Program): State
    requires console in s.consoles
  {
    var pid := s.generatorPid + 1;
    Put(s.(generatorPid := pid,
           codes := s.codes + [program.code],
           consoles := s.consoles[console := s.consoles[console] + [pid]],
           submitted := s.submitted[pid := program.code]),
        NEW, NewPcb(cfg, pid, program))
  }

  function InSystem(s: State): nat { |s.queues[READY]| + |s.queues[EXEC]| + |s.queues[BLOCK]| }

  /** The first half of planificacion: at most one admission. */
  function Admitted(cfg: Config, s: State, granted: bool): State
    requires cfg.Valid() && (s.queues[NEW] != [] ==> s.codes != [])
  {
    if InSystem(s) < cfg.level && s.queues[NEW] != [] then
      var pcb := s.queues[NEW][0];
      var t := s.(codes := s.codes[1..], queues := s.queues[NEW := s.queues[NEW][1..]]);
      if granted then Put(t, READY, pcb.(pagesCode := CodePages(|s.codes[0]|, cfg.pageSize)))
      else Put(t, EXIT, pcb.(exitCode := EXIT_RESOURCE_FAIL))
    else s
  }

  /** The pages asked of the memory, and for whom, if a program is to be admitted. */
  function Request(cfg: Config, s: State): Option<(int, int)>
    requires cfg.Valid() && (s.queues[NEW] != [] ==> s.codes != [])
  {
    if InSystem(s) < cfg.level && s.queues[NEW] != [] then
      Some((s.queues[NEW][0].idProcess, CodePages(|s.codes[0]|, cfg.pageSize) + cfg.stackSize))
    else None
  }

  /** How many programs the dispatch loop starts. */
  function Pairs(s: State): nat { if |s.queues[READY]| < |s.idle| then |s.queues[READY]| else |s.idle| }

  /** The second half: the oldest ready programs on the CPUs longest idle. */
  function Dispatched(s: State): State {
    var n := Pairs(s);
    s.(queues := s.queues[READY := s.queues[READY][n..]][EXEC := s.queues[EXEC] + s.queues[READY][..n]],
       idle := s.idle[n..],
       executing := s.executing + s.idle[..n])
  }

  function Waited(s: State, pcb: Pcb, i: nat): State
    requires i < |s.sems| == |s.waiting|
  {
    var value := s.sems[i] - 1;
    var t := s.(sems := s.sems[i := value]);
    if value > 0 then Put(t, READY, pcb)
    else Put(t, BLOCK, pcb).(waiting := s.waiting[i := s.waiting[i] + [pcb]])
  }

  /** Whom a signal wakes. */
  function Woken(s: State, pcb: Pcb, i: nat): Pcb
    requires i < |s.waiting|
  {
    (s.waiting[i] + [pcb])[0]
  }

  /** The caller queues up itself, then the head of the list becomes ready. */
  function Signalled(s: State, pcb: Pcb, i: nat): State
    requires i < |s.sems| == |s.waiting|
  {
    var head := Woken(s, pcb, i);
    var t := Put(Put(s, BLOCK, pcb), READY, head);
    Take(t.(sems := s.sems[i := s.sems[i] + 1], waiting := s.waiting[i := (s.waiting[i] + [pcb])[1..]]),
         BLOCK, head.idProcess)
  }

  predicate InRange(s: State, call: Call) {
    match call
    case Wait(i) => i < |s.sems| == |s.waiting|
    case Signal(i) => i < |s.sems| == |s.waiting|
    case GetShared(v) => v < |s.shared|
    case SetShared(v, _) => v < |s.shared|
    case _ => true
  }

  /** What a call has done before its CPU is given back. */
  function Served(s: State, pcb: Pcb, call: Call): State
    requires InRange(s, call)
  {
    var t := Take(s, EXEC, pcb.idProcess);
    match call
    case ProgramEnd => Ended(t, pcb, EXIT_SUCCESSFUL)
    case Wait(i) => Waited(t, pcb, i)
    case Signal(i) => Signalled(t, pcb, i)
    case SetShared(v, value) => t.(shared := t.shared[v := value])
    case _ => t
  }

  /** gestion_syscall. A call of another kind leaves its CPU where it is. */
  function Called(s: State, cpu: int, pcb: Pcb, call: Call): State
    requires InRange(s, call)
  {
    if call.OtherCall? then Served(s, pcb, call) else Restored(Served(s, pcb, call), cpu)
  }

  /** What a call is answered with: the value of a shared variable. */
  function Answer(s: State, call: Call): Option<int>
    requires InRange(s, call)
  {
    if call.GetShared? then Some(s.shared[call.v]) else None
  }

  /** pcb_status: the first queue that holds the pid, from a status on, or -1. */
  function StatusFrom(queues: Queues, pid: int, from: nat): (i: int)
    requires from <= NUM_STATUSES
    ensures i == -1 || from <= i < NUM_STATUSES
    ensures i >= 0 ==> Count(queues[i], pid) > 0
    ensures forall j :: from <= j < (if i == -1 then NUM_STATUSES else i) ==> Count(queues[j], pid) == 0
    decreases NUM_STATUSES - from
  {
    if from == NUM_STATUSES then -1
    else if Count(queues[from], pid) > 0 then from
    else StatusFrom(queues, pid, from + 1)
  }

  /** One pid of a console that went away. */
  function Killed(s: State, pid: int): State {
    var status := StatusFrom(s.queues, pid, 0);
    if status == -1 || status == EXEC then s
    else Ended(s, First(s.queues[status], pid), EXIT_CONSOLE_KILLED)
  }

  function KilledAll(s: State, pids: seq<int>): State
    decreases |pids|
  {
    if pids == [] then s else KilledAll(Killed(s, pids[0]), pids[1..])
  }

  /** destroy_console. */
  function Dropped(s: State, console: int): State
    requires console in s.consoles
  {
    KilledAll(s.(consoles := s.consoles - {console}), s.consoles[console])
  }

  /** What can happen: calls come from a connected CPU, which need not have been sent the
      program they carry; names are known, and clients are who they say. */
  predicate Enabled(s: State, e: Event) {
    match e
    case ConsoleConnects(c) => c !in s.consoles && c !in s.idle && c !in s.executing
    case CpuConnects(c) => c !in s.consoles && c !in s.idle && c !in s.executing
    case NewProgram(c, _) => c in s.consoles
    case Syscall(c, pcb, call) => (c in s.idle || c in s.executing) && InRange(s, call)
    case ConsoleDrops(c) => c in s.consoles
    case Plan(_) => s.queues[NEW] != [] ==> s.codes != []
  }

  function Next(cfg: Config, s: State, e: Event): State
    requires cfg.Valid() && Enabled(s, e)
  {
    match e
    case ConsoleConnects(c) => s.(consoles := s.consoles[c := []])
    case CpuConnects(c) => s.(idle := s.idle + [c])
    case NewProgram(c, program) => Created(cfg, s, c, program)
    case Syscall(c, pcb, call) => Called(s, c, pcb, call)
    case ConsoleDrops(c) => Dropped(s, c)
    case Plan(granted) => Dispatched(Admitted(cfg, s, granted))
  }

  predicate AllEnabled(cfg: Config, s: State, es: seq<Event>)
    requires cfg.Valid()
    decreases |es|
  {
    es == [] || (Enabled(s, es[0]) && AllEnabled(cfg, Next(cfg, s, es[0]), es[1..]))
  }

  function Run(cfg: Config, s: State, es: seq<Event>): State
    requires cfg.Valid() && AllEnabled(cfg, s, es)
    decreases |es|
  {
    if es == [] then s else Run(cfg, Next(cfg, s, es[0]), es[1..])
  }

  /** After init and get_config. */
  function Initial(sems: seq<int>, variables: nat): State {
    State([[], [], [], [], []], [], [], map[], [], sems, seq(|sems|, _ => []), seq(variables, _ => 0), 0, map[])
  }

  /** Two stretches of a queue's history make one. */
  lemma Chain<T>(out: seq<T>, outs: seq<T>, last: seq<T>, mid: seq<T>, joins: seq<T>, first: seq<T>, join: seq<T>)
    requires out + mid == first + join && outs + last == mid + joins
    ensures (out + outs) + last == first + (join + joins)
  {
    assert (out + outs) + last == out + (outs + last);
    assert out + (mid + joins) == (out + mid) + joins;
    assert (first + join) + joins == first + (join + joins);
  }
}
