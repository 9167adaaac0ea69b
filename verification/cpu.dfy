// CPU/src/CPU.c: the primitives as they update the PCB in place, proved to do what
// StackMachine and PagedSystems say, and the execution loop around them.
module Cpus {
  import opened Bytes
  import opened Structures
  import opened StackMachine
  import opened Memories
  import opened PagedSystems

  /** An instruction: the primitives the parser calls for its line, then the check
      and the increment of PC. */
  function WholeLine(line: seq<Primitive>): seq<Primitive> { line + [Tick] }

  function Script(lines: seq<seq<Primitive>>): seq<Primitive> {
    if lines == [] then [] else Script(lines[..|lines| - 1]) + WholeLine(lines[|lines| - 1])
  }

  /** Why the loop stopped. */
  datatype Outcome = QuantumExpired | Left | OutOfInstructions

  class Cpu {
    const cfg: Config
    const memory: Server
    var pcb: Pcb
    var stackOverflow: bool
    var programEnded: bool
    var left: bool  // the loop has been left

    ghost function State(): Core
      reads this
    {
      Core(pcb, stackOverflow, programEnded, left)
    }

    ghost predicate Valid() { cfg.pageSize > 0 && memory.Valid() }

    constructor (cfg: Config, memory: Server, pcb: Pcb)
      requires cfg.pageSize > 0 && memory.Valid()
      ensures Valid() && this.cfg == cfg && this.memory == memory
      ensures State() == Core(pcb, false, false, false)
    {
      this.cfg, this.memory, this.pcb := cfg, memory, pcb;
      stackOverflow, programEnded, left := false, false, false;
    }

    /** Returns the address of the new variable, or -1. */
    method DefineVariable(id: int, junk: int) returns (address: int)
      requires Valid()
      modifies this`pcb, this`stackOverflow
      ensures State() == Defined(cfg, old(State()), id, junk)
      ensures address == if old(pcb.stackPointer) + VAR_SIZE > cfg.Limit() then -1 else old(pcb.stackPointer)
    {
      if pcb.stackPointer + VAR_SIZE > cfg.stackSize * cfg.pageSize {
        stackOverflow := true;
        return -1;
      }
      var page, offset := pcb.stackPointer / cfg.pageSize, pcb.stackPointer % cfg.pageSize;
      if |pcb.stack| == 0 { pcb := pcb.(stack := [NEW_CONTEXT]); }
      var line := pcb.stack[|pcb.stack| - 1];
      if !IsArgument(id) {
        line := line.(vars := line.vars + [Var(id, MemPos(page, offset, VAR_SIZE))]);
      } else {
        line := line.(args := line.args + [Var(junk, MemPos(page, offset, VAR_SIZE))]);
      }
      pcb := pcb.(stack := pcb.stack[|pcb.stack| - 1 := line], stackPointer := pcb.stackPointer + VAR_SIZE);
      address := pcb.stackPointer - VAR_SIZE;
    }

    /** The search that obtenerPosicionVariable makes in the newest context. */
    method FindVariable(id: int) returns (found: Lookup)
      ensures found == LookUp(cfg, pcb, id)
    {
      if |pcb.stack| == 0 { return Missing; }
      var context := pcb.stack[|pcb.stack| - 1];
      if !IsArgument(id) {
        var vars := context.vars;
        for i := 0 to |vars|
          invariant FirstNamed(vars, id) == i + FirstNamed(vars[i..], id)
        {
          if vars[i].id == id { return Found(Address(cfg, vars[i].mempos)); }
        }
        return Missing;
      } else {
        var k := id - '0' as int;
        if k > |context.args| { return Missing; }
        if k == |context.args| { return NoElement; }
        return Found(Address(cfg, context.args[k].mempos));
      }
    }

    method Dereference(address: int) returns (value: Option<int>)
      requires Valid() && !Read(memory.View(), UserPid(pcb.idProcess), address / cfg.pageSize + pcb.pagesCode,
                                address % cfg.pageSize, VAR_SIZE).OutOfRange?
      ensures value == Dereferenced(cfg, memory.View(), pcb, address)
    {
      var page, offset := address / cfg.pageSize + pcb.pagesCode, address % cfg.pageSize;
      var reply := memory.ReadBytes(UserPid(pcb.idProcess), page, offset, VAR_SIZE);
      value := if reply.Data? && |reply.bytes| >= 2 then Some(UnpackSigned(reply.bytes[..2])) else None;
    }

    method AssignVariable(address: int, value: int, behind: Behind)
      requires Valid() && !Write(memory.View(), UserPid(pcb.idProcess), address / cfg.pageSize + pcb.pagesCode,
                                 address % cfg.pageSize, VAR_SIZE, PackBytes(2, value) + behind).1.OutOfRange?
      modifies memory.main
      ensures memory.View() == Assigned(cfg, old(memory.View()), pcb, address, value, behind)
    {
      var page, offset := address / cfg.pageSize + pcb.pagesCode, address % cfg.pageSize;
      RequestWrite(memory, UserPid(pcb.idProcess), page, offset, VAR_SIZE, PackBytes(2, value) + behind);
    }

    method JumpTo(target: int)
      modifies this`pcb
      ensures pcb == Jumped(old(pcb), target)
    {
      if target == -1 { return; }
      pcb := pcb.(PC := target - 1);
    }

    method CallFunction(target: int, place: int)
      requires Valid()
      modifies this`pcb
      ensures State() == Called(old(State()), target, Place(cfg, place))
    {
      var line := NEW_CONTEXT.(retVar := MemPos(place / cfg.pageSize, place % cfg.pageSize, VAR_SIZE),
                               retPos := pcb.PC);
      pcb := pcb.(stack := pcb.stack + [line]);
      JumpTo(target);
    }

    method CallProcedure(target: int)
      modifies this`pcb
      ensures State() == Called(old(State()), target, MemPos(0, 0, 0))
    {
      pcb := pcb.(stack := pcb.stack + [NEW_CONTEXT.(retPos := pcb.PC)]);
      JumpTo(target);
    }

    method FinishContext()
      modifies this`pcb, this`programEnded
      ensures State() == Finished(old(State()))
    {
      if |pcb.stack| == 0 {
        programEnded := true;
        return;
      }
      var context := pcb.stack[|pcb.stack| - 1];
      pcb := pcb.(stack := pcb.stack[..|pcb.stack| - 1],
                  stackPointer := pcb.stackPointer - VAR_SIZE * (|context.args| + |context.vars|));
      if |pcb.stack| == 0 {
        programEnded := true;
      } else {
        pcb := pcb.(PC := context.retPos);
      }
    }

    /** A return assigns to the caller's place and then drops the context. */
    method ReturnValue(value: int, behind: Behind)
      requires Valid() && pcb.stack != []
      requires !Write(memory.View(), UserPid(pcb.idProcess), ReturnPlace(cfg, State()) / cfg.pageSize + pcb.pagesCode,
                      ReturnPlace(cfg, State()) % cfg.pageSize, VAR_SIZE, PackBytes(2, value) + behind).1.OutOfRange?
      modifies this`pcb, this`programEnded, memory.main
      ensures State() == Finished(old(State()))
      ensures memory.View()
              == Assigned(cfg, old(memory.View()), old(pcb), ReturnPlace(cfg, old(State())), value, behind)
    {
      var context := pcb.stack[|pcb.stack| - 1];
      var address := context.retVar.page * cfg.pageSize + context.retVar.offset;
      AssignVariable(address, value, behind);
      FinishContext();
    }

    method Perform(op: Primitive)
      requires Valid() && !left && op != Tick
      modifies this`pcb, this`stackOverflow, this`programEnded
      ensures State() == Step(cfg, old(State()), op)
    {
      match op {
        case Define(id, junk) => var _ := DefineVariable(id, junk);
        case Call(target) => CallProcedure(target);
        case CallReturning(target, place) => CallFunction(target, place);
        case Jump(target) => JumpTo(target);
        case Finish => FinishContext();
        case _ =>
      }
    }

    /** verificarTerminarEjecucion, answering whether the loop must be left. */
    method MustLeave() returns (leave: bool)
      requires !left
      modifies this`stackOverflow, this`programEnded, this`left
      ensures leave == left
      ensures State() == if leave then Ticked(old(State())) else old(State())
      ensures leave <==> old(stackOverflow || programEnded)
    {
      if stackOverflow {
        stackOverflow, left := false, true;
      } else if programEnded {
        programEnded, left := false, true;
      }
      leave := left;
    }

    /** ejecutarPrograma: one line of primitives per instruction fetched, until the
        quantum is used up (0 means no quantum), a flag is up, or the given lines
        are exhausted. Leaving skips the last increment of PC. */
    method ExecuteProgram(lines: seq<seq<Primitive>>) returns (outcome: Outcome, executed: nat)
      requires Valid() && !left && (forall line :: line in lines ==> Tick !in line)
      modifies this`pcb, this`stackOverflow, this`programEnded, this`left
      ensures executed <= |lines| && State() == Run(cfg, old(State()), Script(lines[..executed]))
      ensures outcome == Left <==> left
      ensures outcome == QuantumExpired ==> pcb.quantum != 0 && executed == if pcb.quantum > 0 then pcb.quantum else 0
      ensures outcome == OutOfInstructions ==> executed == |lines|
      ensures pcb.quantum > 0 ==> executed <= pcb.quantum
      ensures pcb.quantum == old(pcb.quantum)
    {
      var i := 1;
      executed := 0;
      while i <= pcb.quantum || pcb.quantum == 0
        invariant i == executed + 1 && executed <= |lines| && !left && pcb.quantum == old(pcb.quantum)
        invariant pcb.quantum > 0 ==> executed <= pcb.quantum
        invariant pcb.quantum < 0 ==> executed == 0
        invariant State() == Run(cfg, old(State()), Script(lines[..executed]))
        decreases |lines| - executed
      {
        if executed == |lines| { return OutOfInstructions, executed; }
        var leave := ExecuteInstruction(lines[executed]);
        assert lines[..executed + 1][..executed] == lines[..executed];
        RunConcat(cfg, old(State()), Script(lines[..executed]), WholeLine(lines[executed]));
        i, executed := i + 1, executed + 1;
        if leave { return Left, executed; }
      }
      return QuantumExpired, executed;
    }

    /** One turn of the loop: a jump or call goes on with the instruction of its label. */
    method ExecuteInstruction(line: seq<Primitive>) returns (leave: bool)
      requires Valid() && !left && Tick !in line
      modifies this`pcb, this`stackOverflow, this`programEnded, this`left
      ensures State() == Run(cfg, old(State()), WholeLine(line)) && leave == left && pcb.quantum == old(pcb.quantum)
      ensures |line| == 1 && (line[0].Jump? || line[0].Call? || line[0].CallReturning?) && Running(old(State())) ==>
                !leave && pcb.PC == Continues(line[0].target, old(pcb.PC))
    {
      ghost var before := State();
      ExecuteLine(line);
      leave := MustLeave();
      if !leave { pcb := pcb.(PC := pcb.PC + 1); }
      RunConcat(cfg, before, line, [Tick]);
      if |line| == 1 && (line[0].Jump? || line[0].Call? || line[0].CallReturning?) && Running(before) {
        assert WholeLine(line) == [line[0], Tick];
        JumpGoesOn(cfg, before, line[0]);
      }
    }

    method ExecuteLine(line: seq<Primitive>)
      requires Valid() && !left && Tick !in line
      modifies this`pcb, this`stackOverflow, this`programEnded
      ensures State() == Run(cfg, old(State()), line) && pcb.quantum == old(pcb.quantum)
    {
      for i := 0 to |line|
        invariant Run(cfg, State(), line[i..]) == Run(cfg, old(State()), line) && pcb.quantum == old(pcb.quantum)
      {
        assert line[i..][1..] == line[i + 1..] && line[i] in line;
        Perform(line[i]);
      }
    }
  }
}
