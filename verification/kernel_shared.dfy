// Kernel/src/syscall.c:52-78 over whole runs: shared variables read as last set.
module KernelSharedValues {
  import opened Bytes
  import opened KernelStates

  predicate Sets(e: Event, v: nat) { e.Syscall? && e.call.SetShared? && e.call.v == v }

  /** The value set last by some program, or the one before the run. */
  function LastSet(es: seq<Event>, v: nat, before: int): int
    decreases |es|
  {
    if es == [] then before
    else if Sets(es[|es| - 1], v) then es[|es| - 1].call.value
    else LastSet(es[..|es| - 1], v, before)
  }

  lemma {:induction false} LastSetTail(es: seq<Event>, v: nat, before: int)
    requires es != []
    ensures LastSet(es, v, before) == LastSet(es[1..], v, if Sets(es[0], v) then es[0].call.value else before)
    decreases |es|
  {
    var last := |es| - 1;
    if last == 0 {
      assert es[..0] == [];
    } else {
      assert es[..last][1..] == es[1..][..last - 1];
      if !Sets(es[last], v) { LastSetTail(es[..last], v, before); }
    }
  }

  lemma {:induction false} KillsKeepShared(s: State, pids: seq<int>)
    ensures KilledAll(s, pids).shared == s.shared
    decreases |pids|
  {
    if pids != [] { KillsKeepShared(Killed(s, pids[0]), pids[1..]); }
  }

  lemma StepOnShared(cfg: Config, s: State, e: Event, v: nat)
    requires cfg.Valid() && Enabled(s, e) && v < |s.shared|
    ensures var t := Next(cfg, s, e);
            |t.shared| == |s.shared| && t.shared[v] == if Sets(e, v) then e.call.value else s.shared[v]
  {
    if e.ConsoleDrops? {
      KillsKeepShared(s.(consoles := s.consoles - {e.client}), s.consoles[e.client]);
    }
  }

  /** After any run a program that asks for a shared variable is answered with the value
      that any program set last. */
  lemma {:induction false} AnswerIsLastSet(cfg: Config, s: State, es: seq<Event>, v: nat)
    requires cfg.Valid() && AllEnabled(cfg, s, es) && v < |s.shared|
    ensures var t := Run(cfg, s, es);
            InRange(t, GetShared(v)) && Answer(t, GetShared(v)) == Some(LastSet(es, v, s.shared[v]))
    decreases |es|
  {
    if es != [] {
      StepOnShared(cfg, s, es[0], v);
      LastSetTail(es, v, s.shared[v]);
      AnswerIsLastSet(cfg, Next(cfg, s, es[0]), es[1..], v);
    }
  }

  /** From the start of the kernel a shared variable is 0 until it is set. */
  lemma AnswersFromTheStart(cfg: Config, sems: seq<int>, variables: nat, es: seq<Event>, v: nat)
    requires cfg.Valid() && AllEnabled(cfg, Initial(sems, variables), es) && v < variables
    ensures var t := Run(cfg, Initial(sems, variables), es);
            InRange(t, GetShared(v)) && Answer(t, GetShared(v)) == Some(LastSet(es, v, 0))
  {
    AnswerIsLastSet(cfg, Initial(sems, variables), es, v);
  }
}
