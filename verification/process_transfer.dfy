// The PCB of a running program between kernel and CPU (Kernel/src/Kernel.c:203-208,
// CPU/src/CPU.c:76-83): what the stack discipline says about its 16-bit fields.
module ProcessTransfers {
  import opened Bytes
  import opened Structures
  import opened StackMachine
  import opened PagedSystems
  import PC = PcbCodec

  /** What is left to ask of a PCB whose stack is in order: its plain numbers, the
      instruction and tag lists, the number of contexts, and in each context the
      numbers that are no variable's place. */
  predicate Carried(p: Pcb) {
    && (forall i :: i in PC.Head(p) ==> PC.FitsShort(i))
    && (forall i :: i in p.indexCode ==> PC.FitsInstruction(i)) && (forall t :: t in p.indexTag ==> PC.FitsTag(t))
    && |p.stack| < 0x8000 && forall c :: c in p.stack ==> PlainFits(c)
  }

  predicate PlainFits(c: Context) {
    && PC.FitsShort(c.retPos) && PC.FitsPos(c.retVar)
    && (forall v :: v in c.args ==> -0x80 <= v.id < 0x80) && (forall v :: v in c.vars ==> -0x80 <= v.id < 0x80)
  }

  lemma PlaceFits(cfg: Config, a: int)
    requires ConfigOk(cfg) && Slot(cfg, a) && cfg.stackSize <= 0x7fff
    ensures PC.FitsPos(Place(cfg, a))
  {
    SlotInPage(cfg, a);
  }

  lemma {:induction false} OneOfMany(stack: seq<Context>, i: nat)
    requires i < |stack|
    ensures Count(stack[i]) <= Total(stack)
  {
    var last := |stack| - 1;
    if i < last { OneOfMany(stack[..last], i); }
  }

  lemma ContextFitsIff(cfg: Config, core: Core, i: nat)
    requires ConfigOk(cfg) && cfg.stackSize <= 0x7fff && Disciplined(cfg, core) && i < |core.pcb.stack|
    requires core.pcb.stackPointer < 0x8000
    ensures PC.FitsContext(core.pcb.stack[i]) <==> PlainFits(core.pcb.stack[i])
  {
    var c := core.pcb.stack[i];
    StackPointerCounts(cfg, core.pcb.stack, core.pcb.stackPointer);
    OneOfMany(core.pcb.stack, i);
    forall v | v in c.args || v in c.vars ensures PC.FitsPos(v.mempos) {
      VariablesAreLive(cfg, core, i, v);
      LiveIsSlot(cfg, core, Address(cfg, v.mempos));
      PlaceFits(cfg, Address(cfg, v.mempos));
    }
  }

  /** The PCB of any process of a system in order comes back from its trip between kernel
      and CPU as it was, whatever follows it, if and only if its plain numbers and lists
      fit: the places of variables and the lengths of their lists always do. */
  lemma TripIsLosslessIff(cfg: Config, sys: System, pid: int, rest: seq<byte>)
    requires Inv(cfg, sys) && pid in sys.procs
    ensures var p := sys.procs[pid].core.pcb;
            PC.DecodePcb(PC.EncodePcb(p) + rest) == Some(p) <==> Carried(p)
  {
    TripOfCoreIff(cfg, sys.procs[pid].core, rest);
  }

  /** Of any PCB, in fact, whose stack is in order, wherever it is. */
  lemma TripOfCoreIff(cfg: Config, core: Core, rest: seq<byte>)
    requires ConfigOk(cfg) && cfg.stackSize <= 0x7fff && Disciplined(cfg, core)
    ensures PC.DecodePcb(PC.EncodePcb(core.pcb) + rest) == Some(core.pcb) <==> Carried(core.pcb)
  {
    var p := core.pcb;
    PC.PcbRoundTripIff(p, rest);
    assert p.stackPointer in PC.Head(p);
    if p.stackPointer < 0x8000 {
      forall i | 0 <= i < |p.stack| ensures PC.FitsContext(p.stack[i]) <==> PlainFits(p.stack[i]) {
        ContextFitsIff(cfg, core, i);
      }
      assert (forall c :: c in p.stack ==> PC.FitsContext(c)) <==> (forall c :: c in p.stack ==> PlainFits(c));
    }
  }
}
