// Kernel/src/Kernel.c:100-213: which code an admitted program gets, and which program
// runs on which processor.
module KernelAdmission {
  import opened Bytes
  import opened Structures
  import opened Uploads
  import opened KernelStates
  import opened KernelSafety

  // ----- Codes

  /** The k-th stored code is what was submitted as the k-th new program. */
  predicate CodeAt(s: State, k: nat)
    requires k < |s.queues[NEW]| <= |s.codes|
  {
    var pid := s.queues[NEW][k].idProcess;
    pid in s.submitted && s.submitted[pid] == s.codes[k]
  }

  predicate OwnCode(s: State) {
    |s.codes| == |s.queues[NEW]| && forall k :: 0 <= k < |s.queues[NEW]| ==> CodeAt(s, k)
  }

  lemma {:induction false} MemberCounts(q: seq<Pcb>, k: nat)
    requires k < |q|
    ensures Count(q, q[k].idProcess) > 0
  {
    if k > 0 { MemberCounts(q[1..], k - 1); }
  }

  /** The pids of new programs have been handed out. */
  lemma NewIsOld(s: State, k: nat)
    requires k < |s.queues[NEW]| && PidOnce(s, s.queues[NEW][k].idProcess)
    ensures 1 <= s.queues[NEW][k].idProcess <= s.generatorPid
  {
    MemberCounts(s.queues[NEW], k);
    TotalAtLeast(s.queues, NEW, s.queues[NEW][k].idProcess);
  }

  lemma CreatedOwnsCode(cfg: Config, s: State, console: int, program: Program)
    requires Once(s) && OwnCode(s) && console in s.consoles
    ensures OwnCode(Created(cfg, s, console, program))
  {
    var t := Created(cfg, s, console, program);
    forall k | 0 <= k < |t.queues[NEW]| ensures CodeAt(t, k) {
      if k < |s.queues[NEW]| {
        assert PidOnce(s, s.queues[NEW][k].idProcess) && CodeAt(s, k);
        NewIsOld(s, k);
      }
    }
  }

  lemma AdmittedOwnsCode(cfg: Config, s: State, granted: bool)
    requires cfg.Valid() && OwnCode(s)
    ensures OwnCode(Admitted(cfg, s, granted))
  {
    var t := Admitted(cfg, s, granted);
    if t != s {
      forall k | 0 <= k < |t.queues[NEW]| ensures CodeAt(t, k) {
        var j := k + 1;
        assert CodeAt(s, j);
      }
    }
  }

  predicate HasNew(s: State, pids: seq<int>) { exists pid :: pid in pids && Count(s.queues[NEW], pid) > 0 }

  lemma {:induction false} KillsKeepNewIff(s: State, pids: seq<int>)
    requires forall pid :: pid in pids ==> Total(s.queues, pid) <= 1
    ensures var t := KilledAll(s, pids);
            && (HasNew(s, pids) ==> |t.queues[NEW]| < |s.queues[NEW]|)
            && (!HasNew(s, pids) ==> t.queues[NEW] == s.queues[NEW])
    decreases |pids|
  {
    if pids != [] {
      var t, rest := Killed(s, pids[0]), pids[1..];
      assert pids == [pids[0]] + rest;
      KilledQueues(s, pids[0]);
      LengthWithout(s.queues[NEW], pids[0]);
      forall pid | pid in rest ensures Total(t.queues, pid) <= 1 { KilledCounts(s, pids[0], pid); }
      KillsKeepNewIff(t, rest);
      KilledAllCounts(t, rest, 0);
      if Count(s.queues[NEW], pids[0]) == 0 {
        assert HasNew(s, pids) <==> HasNew(t, rest);
      }
    }
  }

  lemma DroppedOwnsCodeIff(s: State, console: int)
    requires Once(s) && OwnCode(s) && console in s.consoles
    ensures OwnCode(Dropped(s, console)) <==> !HasNew(s, s.consoles[console])
  {
    var r, t := s.(consoles := s.consoles - {console}), Dropped(s, console);
    forall pid | pid in s.consoles[console] ensures Total(r.queues, pid) <= 1 { assert PidOnce(s, pid); }
    KillsKeepNewIff(r, s.consoles[console]);
    DroppedCounts(s, console, 0);
    if !HasNew(s, s.consoles[console]) {
      forall k | 0 <= k < |t.queues[NEW]| ensures CodeAt(t, k) { assert CodeAt(s, k); }
    }
  }

  lemma CalledOwnsCodeIff(s: State, cpu: int, pcb: Pcb, call: Call)
    requires OwnCode(s) && InRange(s, call)
    ensures OwnCode(Called(s, cpu, pcb, call)) <==> !(call.ProgramEnd? && Count(s.queues[NEW], pcb.idProcess) > 0)
  {
    var t := Called(s, cpu, pcb, call);
    LengthWithout(s.queues[NEW], pcb.idProcess);
    if !(call.ProgramEnd? && Count(s.queues[NEW], pcb.idProcess) > 0) {
      assert t.queues[NEW] == s.queues[NEW] && t.codes == s.codes && t.submitted == s.submitted;
      KeepsCodes(s, t);
    }
  }

  /** A new program is killed, or some CPU reports the end of one. */
  predicate EndsNew(s: State, e: Event)
    requires Enabled(s, e)
  {
    || (e.ConsoleDrops? && HasNew(s, s.consoles[e.client]))
    || (e.Syscall? && e.call.ProgramEnd? && HasNew(s, [e.pcb.idProcess]))
  }

  /** Each program still finds its own code, after any event, if and only if no new
      program has ended at it. */
  lemma StepOwnsCodeIff(cfg: Config, s: State, e: Event)
    requires cfg.Valid() && Once(s) && OwnCode(s) && Enabled(s, e)
    ensures OwnCode(Next(cfg, s, e)) <==> !EndsNew(s, e)
  {
    match e {
      case NewProgram(c, program) => CreatedOwnsCode(cfg, s, c, program);
      case Syscall(c, pcb, call) =>
        CalledOwnsCodeIff(s, c, pcb, call);
        assert pcb.idProcess in [pcb.idProcess];
      case ConsoleDrops(c) => DroppedOwnsCodeIff(s, c);
      case Plan(granted) =>
        AdmittedOwnsCode(cfg, s, granted);
        KeepsCodes(Admitted(cfg, s, granted), Dispatched(Admitted(cfg, s, granted)));
      case _ => KeepsCodes(s, Next(cfg, s, e));
    }
  }

  lemma KeepsCodes(s: State, t: State)
    requires OwnCode(s) && t.queues[NEW] == s.queues[NEW] && t.codes == s.codes && t.submitted == s.submitted
    ensures OwnCode(t)
  {
    forall k | 0 <= k < |t.queues[NEW]| ensures CodeAt(t, k) { assert CodeAt(s, k); }
  }

  /** The memory is asked for pages for what was submitted as the oldest new program;
      the program then becomes the last ready one, or ends for lack of resources. */
  lemma AdmissionUsesOwnCode(cfg: Config, s: State)
    requires cfg.Valid() && OwnCode(s) && InSystem(s) < cfg.level && s.queues[NEW] != []
    ensures var pcb := s.queues[NEW][0];
            && pcb.idProcess in s.submitted
            && var pages := CodePages(|s.submitted[pcb.idProcess]|, cfg.pageSize);
            && Request(cfg, s) == Some((pcb.idProcess, pages + cfg.stackSize))
            && Admitted(cfg, s, true).queues[READY] == s.queues[READY] + [pcb.(pagesCode := pages)]
            && Admitted(cfg, s, false).queues[EXIT] == s.queues[EXIT] + [pcb.(exitCode := -1)]
            && forall granted :: Admitted(cfg, s, granted).queues[NEW] == s.queues[NEW][1..]
  {
    assert CodeAt(s, 0);
  }

  /** After a new program at the head of its queue is killed, the next one to be
      admitted is loaded with the dead program's code. */
  lemma KilledNewShiftsCodes(s: State, console: int)
    requires Once(s) && OwnCode(s) && console in s.consoles
    requires |s.queues[NEW]| > 1 && s.consoles[console] == [s.queues[NEW][0].idProcess]
    ensures var t, dead := Dropped(s, console), s.queues[NEW][0].idProcess;
            && t.queues[NEW] == s.queues[NEW][1..] && t.codes == s.codes
            && dead in s.submitted && t.codes[0] == s.submitted[dead]
  {
    var q := s.queues[NEW];
    var pid, r := q[0].idProcess, s.(consoles := s.consoles - {console});
    assert PidOnce(s, pid) && CodeAt(s, 0);
    TotalAtLeast(s.queues, NEW, pid);
    LengthWithout(q[1..], pid);
    KilledQueues(r, pid);
    assert [pid][1..] == [] && KilledAll(r, [pid]) == KilledAll(Killed(r, pid), []);
  }

  // ----- Runs

  predicate NeverEndsNew(cfg: Config, s: State, es: seq<Event>)
    requires cfg.Valid() && AllEnabled(cfg, s, es)
    decreases |es|
  {
    es == [] || (!EndsNew(s, es[0]) && NeverEndsNew(cfg, Next(cfg, s, es[0]), es[1..]))
  }

  /** Over every run, kills of blocked programs included, at which no new program ends
      and none gets into two queues. */
  lemma {:induction false} RunOwnsCode(cfg: Config, s: State, es: seq<Event>)
    requires cfg.Valid() && Once(s) && OwnCode(s) && AllEnabled(cfg, s, es)
    requires NeverDoubles(cfg, s, es) && NeverEndsNew(cfg, s, es)
    ensures OwnCode(Run(cfg, s, es))
    decreases |es|
  {
    if es != [] {
      StepOwnsCodeIff(cfg, s, es[0]);
      StepKeepsOnceIff(cfg, s, es[0]);
      RunOwnsCode(cfg, Next(cfg, s, es[0]), es[1..]);
    }
  }

  // ----- There is always a code to take

  predicate Supplied(s: State) { |s.queues[NEW]| <= |s.codes| }

  lemma {:induction false} KillsKeepSupply(s: State, pids: seq<int>)
    requires Supplied(s)
    ensures Supplied(KilledAll(s, pids))
    decreases |pids|
  {
    if pids != [] {
      LengthWithout(s.queues[NEW], pids[0]);
      KillsKeepSupply(Killed(s, pids[0]), pids[1..]);
    }
  }

  /** Over every run, whatever happens in it, planning finds a code for the program it
      admits. */
  lemma {:induction false} RunKeepsSupply(cfg: Config, s: State, es: seq<Event>, granted: bool)
    requires cfg.Valid() && Supplied(s) && AllEnabled(cfg, s, es)
    ensures Supplied(Run(cfg, s, es)) && Enabled(Run(cfg, s, es), Plan(granted))
    decreases |es|
  {
    if es != [] {
      match es[0] {
        case Syscall(_, pcb, _) => LengthWithout(s.queues[NEW], pcb.idProcess);
        case ConsoleDrops(c) => KillsKeepSupply(s.(consoles := s.consoles - {c}), s.consoles[c]);
        case _ =>
      }
      RunKeepsSupply(cfg, Next(cfg, s, es[0]), es[1..], granted);
    }
  }

  // ----- Dispatch

  /** The k-th program started and the processor it is started on. */
  function Pairing(s: State): (pairs: seq<(Pcb, int)>)
    ensures |pairs| == Pairs(s)
  {
    seq(Pairs(s), k requires 0 <= k < Pairs(s) => (s.queues[READY][k], s.idle[k]))
  }

  /** Planning leaves no ready program beside an idle processor; programs and processors
      are paired in the order they became free, and both queues keep their order. */
  lemma DispatchExhausts(s: State)
    ensures var t, pairs := Dispatched(s), Pairing(s);
            && (t.queues[READY] == [] || t.idle == [])
            && |t.queues[EXEC]| == |s.queues[EXEC]| + |pairs| && |t.executing| == |s.executing| + |pairs|
            && (forall k :: 0 <= k < |pairs| ==>
                 pairs[k].0 == s.queues[READY][k] == t.queues[EXEC][|s.queues[EXEC]| + k])
            && (forall k :: 0 <= k < |pairs| ==> pairs[k].1 == s.idle[k] == t.executing[|s.executing| + k])
            && s.queues[READY][|pairs|..] == t.queues[READY] && s.idle[|pairs|..] == t.idle
  {
  }

  /** Who becomes ready at an event, and who is started. */
  function Readied(cfg: Config, s: State, e: Event): seq<Pcb>
    requires cfg.Valid() && Enabled(s, e)
  {
    match e
    case Plan(granted) => Admitted(cfg, s, granted).queues[READY][|s.queues[READY]|..]
    case Syscall(_, pcb, Wait(i)) => if s.sems[i] > 1 then [pcb] else []
    case Syscall(_, pcb, Signal(i)) => [Woken(s, pcb, i)]
    case _ => []
  }

  function Started(cfg: Config, s: State, e: Event): seq<Pcb>
    requires cfg.Valid() && Enabled(s, e)
  {
    match e
    case Plan(granted) => var t := Admitted(cfg, s, granted); t.queues[READY][..Pairs(t)]
    case _ => []
  }

  /** A ready program is killed, or some CPU reports the end of one. */
  predicate EndsReady(s: State, e: Event)
    requires Enabled(s, e)
  {
    || (e.ConsoleDrops? && HasReady(s, s.consoles[e.client]))
    || (e.Syscall? && e.call.ProgramEnd? && HasReady(s, [e.pcb.idProcess]))
  }

  predicate HasReady(s: State, pids: seq<int>) { exists pid :: pid in pids && Count(s.queues[READY], pid) > 0 }

  lemma {:induction false} KillsKeepReadyIff(s: State, pids: seq<int>)
    requires forall pid :: pid in pids ==> Total(s.queues, pid) <= 1
    ensures var t := KilledAll(s, pids);
            && (HasReady(s, pids) ==> |t.queues[READY]| < |s.queues[READY]|)
            && (!HasReady(s, pids) ==> t.queues[READY] == s.queues[READY])
    decreases |pids|
  {
    if pids != [] {
      var t, rest := Killed(s, pids[0]), pids[1..];
      assert pids == [pids[0]] + rest;
      KilledQueues(s, pids[0]);
      LengthWithout(s.queues[READY], pids[0]);
      forall pid | pid in rest ensures Total(t.queues, pid) <= 1 { KilledCounts(s, pids[0], pid); }
      KillsKeepReadyIff(t, rest);
      KilledAllCounts(t, rest, 0);
      if Count(s.queues[READY], pids[0]) == 0 {
        assert HasReady(s, pids) <==> HasReady(t, rest);
      }
    }
  }

  lemma PlanInOrder(cfg: Config, s: State, granted: bool)
    requires cfg.Valid() && Enabled(s, Plan(granted))
    ensures var e := Plan(granted);
            Started(cfg, s, e) + Next(cfg, s, e).queues[READY] == s.queues[READY] + Readied(cfg, s, e)
  {
    var t := Admitted(cfg, s, granted).queues[READY];
    var n := Pairs(Admitted(cfg, s, granted));
    assert t == t[..n] + t[n..] && t == t[..|s.queues[READY]|] + t[|s.queues[READY]|..];
    assert t[..|s.queues[READY]|] == s.queues[READY];
  }

  lemma CallInOrderIff(cfg: Config, s: State, e: Event)
    requires cfg.Valid() && Enabled(s, e) && e.Syscall?
    ensures Started(cfg, s, e) + Next(cfg, s, e).queues[READY] == s.queues[READY] + Readied(cfg, s, e)
            <==> !EndsReady(s, e)
  {
    assert e.pcb.idProcess in [e.pcb.idProcess];
    LengthWithout(s.queues[READY], e.pcb.idProcess);
  }

  lemma DropInOrderIff(s: State, console: int)
    requires Once(s) && console in s.consoles
    ensures Dropped(s, console).queues[READY] == s.queues[READY] <==> !HasReady(s, s.consoles[console])
  {
    var r := s.(consoles := s.consoles - {console});
    forall pid | pid in s.consoles[console] ensures Total(r.queues, pid) <= 1 { assert PidOnce(s, pid); }
    assert HasReady(r, s.consoles[console]) <==> HasReady(s, s.consoles[console]);
    KillsKeepReadyIff(r, s.consoles[console]);
  }

  /** The ready queue gives at its head whom it starts and takes at its end who becomes
      ready, at any event, if and only if no ready program ends at it. */
  lemma StepInOrderIff(cfg: Config, s: State, e: Event)
    requires cfg.Valid() && Once(s) && Enabled(s, e)
    ensures Started(cfg, s, e) + Next(cfg, s, e).queues[READY] == s.queues[READY] + Readied(cfg, s, e)
            <==> !EndsReady(s, e)
  {
    match e {
      case Plan(granted) => PlanInOrder(cfg, s, granted);
      case Syscall(_, _, _) => CallInOrderIff(cfg, s, e);
      case ConsoleDrops(c) =>
        var q := Next(cfg, s, e).queues[READY];
        DropInOrderIff(s, c);
        assert [] + q == q && s.queues[READY] + [] == s.queues[READY];
      case _ =>
    }
  }

  predicate NeverEndsReady(cfg: Config, s: State, es: seq<Event>)
    requires cfg.Valid() && AllEnabled(cfg, s, es)
    decreases |es|
  {
    es == [] || (!EndsReady(s, es[0]) && NeverEndsReady(cfg, Next(cfg, s, es[0]), es[1..]))
  }

  function AllReadied(cfg: Config, s: State, es: seq<Event>): seq<Pcb>
    requires cfg.Valid() && AllEnabled(cfg, s, es)
    decreases |es|
  {
    if es == [] then [] else Readied(cfg, s, es[0]) + AllReadied(cfg, Next(cfg, s, es[0]), es[1..])
  }

  function AllStarted(cfg: Config, s: State, es: seq<Event>): seq<Pcb>
    requires cfg.Valid() && AllEnabled(cfg, s, es)
    decreases |es|
  {
    if es == [] then [] else Started(cfg, s, es[0]) + AllStarted(cfg, Next(cfg, s, es[0]), es[1..])
  }

  /** Over a run at which no ready program ends and none gets into two queues, programs
      are started in the order in which they became ready; those left are still ready, in
      that order. */
  lemma {:induction false} RunInOrder(cfg: Config, s: State, es: seq<Event>)
    requires cfg.Valid() && Once(s) && AllEnabled(cfg, s, es)
    requires NeverDoubles(cfg, s, es) && NeverEndsReady(cfg, s, es)
    ensures AllStarted(cfg, s, es) + Run(cfg, s, es).queues[READY] == s.queues[READY] + AllReadied(cfg, s, es)
    decreases |es|
  {
    if es != [] {
      var t, rest := Next(cfg, s, es[0]), es[1..];
      StepInOrderIff(cfg, s, es[0]);
      StepKeepsOnceIff(cfg, s, es[0]);
      RunInOrder(cfg, t, rest);
      Chain(Started(cfg, s, es[0]), AllStarted(cfg, t, rest), Run(cfg, s, es).queues[READY], t.queues[READY],
            AllReadied(cfg, t, rest), s.queues[READY], Readied(cfg, s, es[0]));
    }
  }

  // ----- Which processor is next

  /** Whom an event makes idle: a CPU that connects, and any CPU whose call is known. */
  function Freed(e: Event): seq<int> {
    match e
    case CpuConnects(c) => [c]
    case Syscall(c, _, call) => if call.OtherCall? then [] else [c]
    case _ => []
  }

  /** Who is given a program at it. */
  function Used(cfg: Config, s: State, e: Event): seq<int>
    requires cfg.Valid() && Enabled(s, e)
  {
    match e
    case Plan(granted) => s.idle[..Pairs(Admitted(cfg, s, granted))]
    case _ => []
  }

  /** The idle list gives at its head whom it uses and takes at its end who is freed, at
      every event. */
  lemma StepServesCpus(cfg: Config, s: State, e: Event)
    requires cfg.Valid() && Enabled(s, e)
    ensures Used(cfg, s, e) + Next(cfg, s, e).idle == s.idle + Freed(e)
  {
    match e {
      case ConsoleDrops(c) => DropKeepsCpus(s.(consoles := s.consoles - {c}), s.consoles[c]);
      case Plan(granted) =>
        var n := Pairs(Admitted(cfg, s, granted));
        assert s.idle == s.idle[..n] + s.idle[n..];
      case _ =>
    }
  }

  /** The k-th program started at an event runs on the k-th processor used. */
  lemma StartedOnUsed(cfg: Config, s: State, e: Event)
    requires cfg.Valid() && Enabled(s, e)
    ensures |Started(cfg, s, e)| == |Used(cfg, s, e)|
    ensures e.Plan? ==> forall k :: 0 <= k < |Used(cfg, s, e)| ==>
              Pairing(Admitted(cfg, s, e.granted))[k] == (Started(cfg, s, e)[k], Used(cfg, s, e)[k])
  {
  }

  function AllUsed(cfg: Config, s: State, es: seq<Event>): seq<int>
    requires cfg.Valid() && AllEnabled(cfg, s, es)
    decreases |es|
  {
    if es == [] then [] else Used(cfg, s, es[0]) + AllUsed(cfg, Next(cfg, s, es[0]), es[1..])
  }

  function AllFreed(es: seq<Event>): seq<int>
    decreases |es|
  {
    if es == [] then [] else Freed(es[0]) + AllFreed(es[1..])
  }

  /** Over every run at all, processors are given programs in the order in which they became
      idle, as many as programs are started; those left are still idle, in that order. */
  lemma {:induction false} RunServesCpus(cfg: Config, s: State, es: seq<Event>)
    requires cfg.Valid() && AllEnabled(cfg, s, es)
    ensures AllUsed(cfg, s, es) + Run(cfg, s, es).idle == s.idle + AllFreed(es)
    ensures |AllUsed(cfg, s, es)| == |AllStarted(cfg, s, es)|
    decreases |es|
  {
    if es != [] {
      var t, rest := Next(cfg, s, es[0]), es[1..];
      StepServesCpus(cfg, s, es[0]);
      StartedOnUsed(cfg, s, es[0]);
      RunServesCpus(cfg, t, rest);
      Chain(Used(cfg, s, es[0]), AllUsed(cfg, t, rest), Run(cfg, s, es).idle, t.idle,
            AllFreed(rest), s.idle, Freed(es[0]));
    }
  }
}
