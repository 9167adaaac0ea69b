// CPU/src/CPU.c: what the AnSISOP primitives do to the PCB being executed. Labels
// arrive resolved, -1 standing for a label that was not found.
module StackMachine {
  import opened Structures

  const VAR_SIZE := 4

  /** What a CPU is told when it connects: stack pages per program, bytes per page. */
  datatype Config = Config(stackSize: int, pageSize: int) {
    ghost predicate Valid() { stackSize >= 0 && pageSize > 0 }

    function Limit(): int { stackSize * pageSize }
  }

  /** The PCB and the flags the primitives raise; halted once the loop has left. */
  datatype Core = Core(pcb: Pcb, overflow: bool, finished: bool, halted: bool)

  /** A primitive as the parser calls it, or Tick, the end of an instruction. */
  datatype Primitive =
    | Define(id: int, junk: int)              // junk: the id field of an argument is never set
    | Call(target: int)
    | CallReturning(target: int, place: int)  // place: address for the returned value
    | Jump(target: int)
    | Finish
    | Tick
    | Other                                   // leaves the PCB alone

  predicate IsArgument(id: int) { '0' as int <= id <= '9' as int }

  function Count(c: Context): nat { |c.args| + |c.vars| }

  function Total(stack: seq<Context>): nat {
    if stack == [] then 0 else Total(stack[..|stack| - 1]) + Count(stack[|stack| - 1])
  }

  function Address(cfg: Config, p: MemPos): int { p.page * cfg.pageSize + p.offset }

  function Place(cfg: Config, address: int): MemPos
    requires cfg.pageSize > 0
  {
    MemPos(address / cfg.pageSize, address % cfg.pageSize, VAR_SIZE)
  }

  const NEW_CONTEXT := Context([], [], -1, MemPos(0, 0, 0))

  function WithVar(c: Context, cfg: Config, sp: int, id: int, junk: int): Context
    requires cfg.pageSize > 0
  {
    if IsArgument(id) then c.(args := c.args + [Var(junk, Place(cfg, sp))])
    else c.(vars := c.vars + [Var(id, Place(cfg, sp))])
  }

  /** The variable goes to the newest context; an empty stack gets one first. */
  function WithNewVar(cfg: Config, stack: seq<Context>, sp: int, id: int, junk: int): seq<Context>
    requires cfg.pageSize > 0
  {
    if stack == [] then [WithVar(NEW_CONTEXT, cfg, sp, id, junk)]
    else stack[..|stack| - 1] + [WithVar(stack[|stack| - 1], cfg, sp, id, junk)]
  }

  /** definirVariable */
  function Defined(cfg: Config, core: Core, id: int, junk: int): Core
    requires cfg.pageSize > 0
  {
    var p := core.pcb;
    if p.stackPointer + VAR_SIZE > cfg.Limit() then core.(overflow := true)
    else
      core.(pcb := p.(stack := WithNewVar(cfg, p.stack, p.stackPointer, id, junk),
                      stackPointer := p.stackPointer + VAR_SIZE))
  }

  /** irAlLabel: one short of the target, because the loop increments PC next. */
  function Jumped(p: Pcb, target: int): Pcb {
    if target == -1 then p else p.(PC := target - 1)
  }

  /** llamarSinRetorno, llamarConRetorno */
  function Called(core: Core, target: int, place: MemPos): Core {
    var p := core.pcb;
    var c := NEW_CONTEXT.(retPos := p.PC, retVar := place);
    core.(pcb := Jumped(p.(stack := p.stack + [c]), target))
  }

  /** finalizar */
  function Finished(core: Core): Core {
    var p := core.pcb;
    if p.stack == [] then core.(finished := true)
    else
      var below, c := p.stack[..|p.stack| - 1], p.stack[|p.stack| - 1];
      var q := p.(stack := below, stackPointer := p.stackPointer - VAR_SIZE * Count(c));
      if below == [] then core.(pcb := q, finished := true) else core.(pcb := q.(PC := c.retPos))
  }

  /** verificarTerminarEjecucion and the increment that follows it. */
  function Ticked(core: Core): Core {
    if core.overflow then core.(overflow := false, halted := true)
    else if core.finished then core.(finished := false, halted := true)
    else core.(pcb := core.pcb.(PC := core.pcb.PC + 1))
  }

  function Step(cfg: Config, core: Core, op: Primitive): Core
    requires cfg.pageSize > 0
  {
    if core.halted then core else
    match op
    case Define(id, junk) => Defined(cfg, core, id, junk)
    case Call(target) => Called(core, target, MemPos(0, 0, 0))
    case CallReturning(target, place) => Called(core, target, Place(cfg, place))
    case Jump(target) => core.(pcb := Jumped(core.pcb, target))
    case Finish => Finished(core)
    case Tick => Ticked(core)
    case Other => core
  }

  function Run(cfg: Config, core: Core, ops: seq<Primitive>): Core
    requires cfg.pageSize > 0
    decreases |ops|
  {
    if ops == [] then core else Run(cfg, Step(cfg, core, ops[0]), ops[1..])
  }

  lemma {:induction false} RunConcat(cfg: Config, core: Core, a: seq<Primitive>, b: seq<Primitive>)
    requires cfg.pageSize > 0
    ensures Run(cfg, core, a + b) == Run(cfg, Run(cfg, core, a), b)
    decreases |a|
  {
    if a == [] {
      assert a + b == b;
    } else {
      assert (a + b)[1..] == a[1..] + b;
      RunConcat(cfg, Step(cfg, core, a[0]), a[1..], b);
    }
  }

  // ----- Stack discipline

  /** A variable stored with the page, offset and size of its address. */
  ghost predicate At(cfg: Config, v: Var, a: int)
    requires cfg.pageSize > 0
  {
    a >= 0 && v.mempos == Place(cfg, a)
  }

  /** The variables of a context sit at base, base + 4, ..., one each. */
  ghost predicate Tiles(cfg: Config, c: Context, base: int)
    requires cfg.pageSize > 0
  {
    && (forall a :: base <= a < base + VAR_SIZE * Count(c) && (a - base) % VAR_SIZE == 0 ==> Holds(cfg, c, a))
    && (forall v :: v in c.args || v in c.vars ==> Inside(cfg, v, base, Count(c)))
    && Ascending(cfg, c.args) && Ascending(cfg, c.vars) && Apart(cfg, c.args, c.vars)
  }

  ghost predicate Holds(cfg: Config, c: Context, a: int)
    requires cfg.pageSize > 0
  {
    exists v :: (v in c.args || v in c.vars) && At(cfg, v, a)
  }

  ghost predicate Inside(cfg: Config, v: Var, base: int, n: nat)
    requires cfg.pageSize > 0
  {
    var a := Address(cfg, v.mempos);
    base <= a < base + VAR_SIZE * n && (a - base) % VAR_SIZE == 0 && At(cfg, v, a)
  }

  ghost predicate Ascending(cfg: Config, vs: seq<Var>) {
    forall i, j :: 0 <= i < j < |vs| ==> Address(cfg, vs[i].mempos) < Address(cfg, vs[j].mempos)
  }

  ghost predicate Apart(cfg: Config, vs: seq<Var>, ws: seq<Var>) {
    forall v, w :: v in vs && w in ws ==> Address(cfg, v.mempos) != Address(cfg, w.mempos)
  }

  /** Contexts own adjacent intervals, the oldest from 0, the newest up to sp. */
  ghost predicate Stacked(cfg: Config, stack: seq<Context>, sp: int)
    requires cfg.pageSize > 0
  {
    if stack == [] then sp == 0
    else
      var below, c := stack[..|stack| - 1], stack[|stack| - 1];
      Tiles(cfg, c, sp - VAR_SIZE * Count(c)) && Stacked(cfg, below, sp - VAR_SIZE * Count(c))
  }

  ghost predicate Disciplined(cfg: Config, core: Core)
    requires cfg.pageSize > 0
  {
    Stacked(cfg, core.pcb.stack, core.pcb.stackPointer) && core.pcb.stackPointer <= cfg.Limit()
  }

  /** The stack pointer is four times the number of arguments and variables. */
  lemma {:induction false} StackPointerCounts(cfg: Config, stack: seq<Context>, sp: int)
    requires cfg.pageSize > 0 && Stacked(cfg, stack, sp)
    ensures sp == VAR_SIZE * Total(stack)
  {
    if stack != [] {
      var below, c := stack[..|stack| - 1], stack[|stack| - 1];
      StackPointerCounts(cfg, below, sp - VAR_SIZE * Count(c));
    }
  }

  lemma AddressOfPlace(cfg: Config, a: int)
    requires cfg.pageSize > 0
    ensures Address(cfg, Place(cfg, a)) == a
  {
    assert a == (a / cfg.pageSize) * cfg.pageSize + a % cfg.pageSize;
  }

  lemma NewVarTiles(cfg: Config, c: Context, base: int, id: int, junk: int)
    requires cfg.pageSize > 0 && base >= 0 && Tiles(cfg, c, base)
    ensures Tiles(cfg, WithVar(c, cfg, base + VAR_SIZE * Count(c), id, junk), base)
  {
    var n, sp := Count(c), base + VAR_SIZE * Count(c);
    var c' := WithVar(c, cfg, sp, id, junk);
    var v' := if IsArgument(id) then c'.args[|c.args|] else c'.vars[|c.vars|];
    AddressOfPlace(cfg, sp);
    assert forall v :: v in c'.args || v in c'.vars <==> v in c.args || v in c.vars || v == v';
    assert Inside(cfg, v', base, n + 1);
    forall v | v in c'.args || v in c'.vars ensures Inside(cfg, v, base, n + 1) {
      if v != v' { assert Inside(cfg, v, base, n); }
    }
    forall a | base <= a < sp + VAR_SIZE && (a - base) % VAR_SIZE == 0 ensures Holds(cfg, c', a) {
      if a < sp { assert Holds(cfg, c, a); } else { assert At(cfg, v', a); }
    }
    NewestApart(cfg, c.args, v', c.vars);
    NewestApart(cfg, c.vars, v', c.args);
  }

  lemma NewestApart(cfg: Config, vs: seq<Var>, v': Var, ws: seq<Var>)
    requires Ascending(cfg, vs)
    requires forall v :: v in vs || v in ws ==> Address(cfg, v.mempos) < Address(cfg, v'.mempos)
    ensures Ascending(cfg, vs + [v'])
    ensures Apart(cfg, vs, ws) ==> Apart(cfg, vs + [v'], ws)
    ensures Apart(cfg, ws, vs) ==> Apart(cfg, ws, vs + [v'])
  {
  }

  lemma StackedPush(cfg: Config, below: seq<Context>, base: int, c: Context)
    requires cfg.pageSize > 0 && Stacked(cfg, below, base) && Tiles(cfg, c, base)
    ensures Stacked(cfg, below + [c], base + VAR_SIZE * Count(c))
  {
    var s := below + [c];
    assert s[..|s| - 1] == below && s[|s| - 1] == c;
  }

  /** A variable defined on top of below + [c]. */
  lemma DefineOnTop(cfg: Config, below: seq<Context>, base: int, c: Context, sp: int, id: int, junk: int)
    requires cfg.pageSize > 0 && Stacked(cfg, below, base) && Tiles(cfg, c, base) && sp == base + VAR_SIZE * Count(c)
    ensures Stacked(cfg, below + [WithVar(c, cfg, sp, id, junk)], sp + VAR_SIZE)
  {
    StackPointerCounts(cfg, below, base);
    NewVarTiles(cfg, c, base, id, junk);
    StackedPush(cfg, below, base, WithVar(c, cfg, sp, id, junk));
  }

  lemma FirstVarStacked(cfg: Config, id: int, junk: int)
    requires cfg.pageSize > 0
    ensures Stacked(cfg, [WithVar(NEW_CONTEXT, cfg, 0, id, junk)], VAR_SIZE)
  {
    var c := WithVar(NEW_CONTEXT, cfg, 0, id, junk);
    DefineOnTop(cfg, [], 0, NEW_CONTEXT, 0, id, junk);
    assert [] + [c] == [c];
  }

  lemma NewVarStacked(cfg: Config, stack: seq<Context>, sp: int, id: int, junk: int)
    requires cfg.pageSize > 0 && Stacked(cfg, stack, sp)
    ensures Stacked(cfg, WithNewVar(cfg, stack, sp, id, junk), sp + VAR_SIZE)
  {
    if stack == [] {
      FirstVarStacked(cfg, id, junk);
    } else {
      var below, c := stack[..|stack| - 1], stack[|stack| - 1];
      DefineOnTop(cfg, below, sp - VAR_SIZE * Count(c), c, sp, id, junk);
    }
  }

  lemma CallKeepsDiscipline(cfg: Config, core: Core, target: int, place: MemPos)
    requires cfg.Valid() && Disciplined(cfg, core)
    ensures Disciplined(cfg, Called(core, target, place))
  {
    var c := NEW_CONTEXT.(retPos := core.pcb.PC, retVar := place);
    StackedPush(cfg, core.pcb.stack, core.pcb.stackPointer, c);
  }

  lemma DefineKeepsDiscipline(cfg: Config, core: Core, id: int, junk: int)
    requires cfg.Valid() && Disciplined(cfg, core)
    ensures Disciplined(cfg, Defined(cfg, core, id, junk))
  {
    NewVarStacked(cfg, core.pcb.stack, core.pcb.stackPointer, id, junk);
  }

  lemma FinishKeepsDiscipline(cfg: Config, core: Core)
    requires cfg.Valid() && Disciplined(cfg, core)
    ensures Disciplined(cfg, Finished(core))
  {
  }

  /** Every primitive keeps the stack discipline. */
  lemma StepKeepsDiscipline(cfg: Config, core: Core, op: Primitive)
    requires cfg.Valid() && Disciplined(cfg, core)
    ensures Disciplined(cfg, Step(cfg, core, op))
  {
    match op {
      case Define(id, junk) => DefineKeepsDiscipline(cfg, core, id, junk);
      case Finish => FinishKeepsDiscipline(cfg, core);
      case Call(target) => CallKeepsDiscipline(cfg, core, target, MemPos(0, 0, 0));
      case CallReturning(target, place) => CallKeepsDiscipline(cfg, core, target, Place(cfg, place));
      case _ =>
    }
  }

  lemma {:induction false} RunKeepsDiscipline(cfg: Config, core: Core, ops: seq<Primitive>)
    requires cfg.Valid() && Disciplined(cfg, core)
    ensures Disciplined(cfg, Run(cfg, core, ops))
    decreases |ops|
  {
    if ops != [] {
      StepKeepsDiscipline(cfg, core, ops[0]);
      RunKeepsDiscipline(cfg, Step(cfg, core, ops[0]), ops[1..]);
    }
  }

  lemma StartDisciplined(cfg: Config, core: Core)
    requires cfg.Valid() && core.pcb.stack == [] && core.pcb.stackPointer == 0
    ensures Disciplined(cfg, core)
  {
    assert 0 <= cfg.stackSize * cfg.pageSize;
  }

  // ----- Live variables

  predicate Live(core: Core, a: int) {
    0 <= a < core.pcb.stackPointer && a % VAR_SIZE == 0
  }

  /** Context i owns the interval between the totals of the contexts before it and
      up to it, and its variables tile that interval. */
  lemma {:induction false} ContextOwnsInterval(cfg: Config, stack: seq<Context>, sp: int, i: nat)
    requires cfg.pageSize > 0 && Stacked(cfg, stack, sp) && i < |stack|
    ensures Tiles(cfg, stack[i], VAR_SIZE * Total(stack[..i]))
    ensures Total(stack[..i + 1]) == Total(stack[..i]) + Count(stack[i])
  {
    StackPointerCounts(cfg, stack, sp);
    var below, c := stack[..|stack| - 1], stack[|stack| - 1];
    if i == |stack| - 1 {
      assert stack[..i + 1] == stack;
    } else {
      ContextOwnsInterval(cfg, below, sp - VAR_SIZE * Count(c), i);
      assert below[..i] == stack[..i] && below[..i + 1] == stack[..i + 1];
    }
  }

  /** Every live slot holds a variable of some context. */
  lemma {:induction false} LiveSlotHasVariable(cfg: Config, stack: seq<Context>, sp: int, a: int) returns (i: nat)
    requires cfg.pageSize > 0 && Stacked(cfg, stack, sp) && 0 <= a < sp && a % VAR_SIZE == 0
    ensures i < |stack| && Holds(cfg, stack[i], a)
  {
    StackPointerCounts(cfg, stack, sp);
    var below, c := stack[..|stack| - 1], stack[|stack| - 1];
    var base := sp - VAR_SIZE * Count(c);
    if a >= base {
      i := |stack| - 1;
    } else {
      i := LiveSlotHasVariable(cfg, below, base, a);
    }
  }

  /** Every variable of every context sits in a live slot inside its interval, and
      variables of different contexts never overlap. */
  lemma VariablesAreLive(cfg: Config, core: Core, i: nat, v: Var)
    requires cfg.pageSize > 0 && Disciplined(cfg, core) && i < |core.pcb.stack|
    requires v in core.pcb.stack[i].args || v in core.pcb.stack[i].vars
    ensures var a := Address(cfg, v.mempos);
            && VAR_SIZE * Total(core.pcb.stack[..i]) <= a
            && a + VAR_SIZE <= VAR_SIZE * Total(core.pcb.stack[..i + 1])
            && Live(core, a) && At(cfg, v, a)
  {
    var stack, n := core.pcb.stack, Count(core.pcb.stack[i]);
    assert Inside(cfg, v, VAR_SIZE * Total(stack[..i]), n) && Total(stack[..i + 1]) == Total(stack[..i]) + n by {
      ContextOwnsInterval(cfg, stack, core.pcb.stackPointer, i);
    }
    StackPointerCounts(cfg, stack, core.pcb.stackPointer);
    TotalMonotone(stack, i + 1);
    SlotEnds(Address(cfg, v.mempos), Total(stack[..i]), n);
  }

  lemma SlotEnds(a: int, below: nat, n: nat)
    requires VAR_SIZE * below <= a < VAR_SIZE * below + VAR_SIZE * n && (a - VAR_SIZE * below) % VAR_SIZE == 0
    ensures a % VAR_SIZE == 0 && a + VAR_SIZE <= VAR_SIZE * (below + n)
  {
  }

  lemma {:induction false} TotalMonotone(stack: seq<Context>, i: nat)
    requires i <= |stack|
    ensures Total(stack[..i]) <= Total(stack)
  {
    if i < |stack| {
      assert stack[..|stack| - 1][..i] == stack[..i];
      TotalMonotone(stack[..|stack| - 1], i);
    } else {
      assert stack[..i] == stack;
    }
  }

  /** The k-th variable of a context, its arguments first. */
  function Nth(c: Context, k: nat): (v: Var)
    requires k < Count(c)
    ensures v in c.args || v in c.vars
  {
    if k < |c.args| then c.args[k] else c.vars[k - |c.args|]
  }

  /** Variables of an older context lie wholly below those of a newer one. */
  lemma ContextsApart(cfg: Config, core: Core, i: nat, v: Var, j: nat, w: Var)
    requires cfg.pageSize > 0 && Disciplined(cfg, core) && i < j < |core.pcb.stack|
    requires v in core.pcb.stack[i].args || v in core.pcb.stack[i].vars
    requires w in core.pcb.stack[j].args || w in core.pcb.stack[j].vars
    ensures Address(cfg, v.mempos) + VAR_SIZE <= Address(cfg, w.mempos)
  {
    var stack := core.pcb.stack;
    VariablesAreLive(cfg, core, i, v);
    VariablesAreLive(cfg, core, j, w);
    assert stack[..j][..i + 1] == stack[..i + 1];
    TotalMonotone(stack[..j], i + 1);
  }

  lemma TiledApart(cfg: Config, c: Context, base: int, k: nat, l: nat)
    requires cfg.pageSize > 0 && Tiles(cfg, c, base) && k < Count(c) && l < Count(c) && k != l
    ensures var a, b := Address(cfg, Nth(c, k).mempos), Address(cfg, Nth(c, l).mempos);
            a + VAR_SIZE <= b || b + VAR_SIZE <= a
  {
    var v, w := Nth(c, k), Nth(c, l);
    assert Inside(cfg, v, base, Count(c)) && Inside(cfg, w, base, Count(c));
  }

  /** The four-byte ranges of different variables, of the same context or of different
      ones, never overlap. */
  lemma VariablesDisjoint(cfg: Config, core: Core, i: nat, k: nat, j: nat, l: nat)
    requires cfg.pageSize > 0 && Disciplined(cfg, core) && i < |core.pcb.stack| && j < |core.pcb.stack|
    requires k < Count(core.pcb.stack[i]) && l < Count(core.pcb.stack[j]) && (i, k) != (j, l)
    ensures var a, b := Address(cfg, Nth(core.pcb.stack[i], k).mempos), Address(cfg, Nth(core.pcb.stack[j], l).mempos);
            a + VAR_SIZE <= b || b + VAR_SIZE <= a
  {
    var stack := core.pcb.stack;
    if i < j {
      ContextsApart(cfg, core, i, Nth(stack[i], k), j, Nth(stack[j], l));
    } else if j < i {
      ContextsApart(cfg, core, j, Nth(stack[j], l), i, Nth(stack[i], k));
    } else {
      ContextOwnsInterval(cfg, stack, core.pcb.stackPointer, i);
      TiledApart(cfg, stack[i], VAR_SIZE * Total(stack[..i]), k, l);
    }
  }

  // ----- Looking a name up

  /** Missing is reported to the parser as address 1, EXIT_FAILURE; NoElement is an
      argument number equal to the number of arguments, which gets past the check. */
  datatype Lookup = Found(address: int) | Missing | NoElement

  function FirstNamed(vs: seq<Var>, id: int): (i: nat)
    ensures i <= |vs| && (i < |vs| ==> vs[i].id == id) && (forall j :: 0 <= j < i ==> vs[j].id != id)
  {
    if vs == [] || vs[0].id == id then 0 else 1 + FirstNamed(vs[1..], id)
  }

  /** obtenerPosicionVariable */
  function LookUp(cfg: Config, p: Pcb, id: int): Lookup {
    if p.stack == [] then Missing
    else
      var c := p.stack[|p.stack| - 1];
      if !IsArgument(id) then
        var i := FirstNamed(c.vars, id);
        if i == |c.vars| then Missing else Found(Address(cfg, c.vars[i].mempos))
      else
        var k := id - '0' as int;
        if k > |c.args| then Missing
        else if k == |c.args| then NoElement
        else Found(Address(cfg, c.args[k].mempos))
  }

  const EXIT_FAILURE := 1

  function Returned(l: Lookup): int
    requires !l.NoElement?
  {
    if l.Found? then l.address else EXIT_FAILURE
  }

  /** The address handed to the parser is that of a live variable if and only if the
      name was found in the newest context. */
  lemma LookUpIsLiveIffFound(cfg: Config, core: Core, id: int)
    requires cfg.pageSize > 0 && Disciplined(cfg, core) && !LookUp(cfg, core.pcb, id).NoElement?
    ensures Live(core, Returned(LookUp(cfg, core.pcb, id))) <==> LookUp(cfg, core.pcb, id).Found?
  {
    var p, l := core.pcb, LookUp(cfg, core.pcb, id);
    if l.Found? {
      var c := p.stack[|p.stack| - 1];
      var v := if IsArgument(id) then c.args[id - '0' as int] else c.vars[FirstNamed(c.vars, id)];
      assert v in c.args || v in c.vars;
      VariablesAreLive(cfg, core, |p.stack| - 1, v);
    }
  }

  /** The arguments and variables a look-up searches. */
  function Newest(p: Pcb): Context {
    if p.stack == [] then NEW_CONTEXT else p.stack[|p.stack| - 1]
  }

  lemma NamedBehind(vs: seq<Var>, v: Var)
    ensures FirstNamed(vs + [v], v.id) == FirstNamed(vs, v.id)
  {
    var i := FirstNamed(vs, v.id);
    assert (vs + [v])[i].id == v.id && forall j :: 0 <= j < i ==> (vs + [v])[j] == vs[j];
  }

  lemma OlderIsElsewhere(cfg: Config, core: Core, v: Var)
    requires cfg.pageSize > 0 && Disciplined(cfg, core)
    requires v in Newest(core.pcb).args || v in Newest(core.pcb).vars
    ensures Address(cfg, v.mempos) != core.pcb.stackPointer
  {
    VariablesAreLive(cfg, core, |core.pcb.stack| - 1, v);
  }

  /** A name finds what was just defined under it if and only if, for a variable, nothing
      older of the same context had the name, and for an argument, its digit is the number
      of arguments that were there. */
  lemma DefinedIsFoundIff(cfg: Config, core: Core, id: int, junk: int)
    requires cfg.pageSize > 0 && Disciplined(cfg, core) && core.pcb.stackPointer + VAR_SIZE <= cfg.Limit()
    ensures LookUp(cfg, Defined(cfg, core, id, junk).pcb, id) == Found(core.pcb.stackPointer)
            <==> if IsArgument(id) then |Newest(core.pcb).args| == id - '0' as int
                 else !LookUp(cfg, core.pcb, id).Found?
  {
    var c, sp := Newest(core.pcb), core.pcb.stackPointer;
    AddressOfPlace(cfg, sp);
    if IsArgument(id) {
      var k := id - '0' as int;
      if k < |c.args| { OlderIsElsewhere(cfg, core, c.args[k]); }
    } else {
      var i := FirstNamed(c.vars, id);
      NamedBehind(c.vars, Var(id, Place(cfg, sp)));
      if i < |c.vars| { OlderIsElsewhere(cfg, core, c.vars[i]); }
    }
  }

  lemma NamedStays(vs: seq<Var>, v: Var, id: int)
    requires FirstNamed(vs, id) < |vs|
    ensures FirstNamed(vs + [v], id) == FirstNamed(vs, id)
  {
    var i := FirstNamed(vs, id);
    assert (vs + [v])[i].id == id && forall j :: 0 <= j < i ==> (vs + [v])[j] == vs[j];
  }

  /** Whatever is defined later in the context, a name that was found is found at the same
      address. */
  lemma FoundStays(cfg: Config, core: Core, id: int, id2: int, junk: int)
    requires cfg.pageSize > 0 && LookUp(cfg, core.pcb, id).Found?
    ensures LookUp(cfg, Defined(cfg, core, id2, junk).pcb, id) == LookUp(cfg, core.pcb, id)
  {
    var c, sp := Newest(core.pcb), core.pcb.stackPointer;
    if !IsArgument(id) && !IsArgument(id2) { NamedStays(c.vars, Var(id2, Place(cfg, sp)), id); }
  }

  /** definirVariable for each name in turn. */
  function Definitions(ids: seq<int>, junk: int): (ops: seq<Primitive>)
    ensures |ops| == |ids| && forall k :: 0 <= k < |ids| ==> ops[k] == Define(ids[k], junk)
  {
    seq(|ids|, k requires 0 <= k < |ids| => Define(ids[k], junk))
  }

  lemma {:induction false} FoundForGood(cfg: Config, core: Core, id: int, ids: seq<int>, junk: int)
    requires cfg.pageSize > 0 && LookUp(cfg, core.pcb, id).Found?
    ensures LookUp(cfg, Run(cfg, core, Definitions(ids, junk)).pcb, id) == LookUp(cfg, core.pcb, id)
    decreases |ids|
  {
    if ids != [] && !core.halted {
      FoundStays(cfg, core, id, ids[0], junk);
      assert Definitions(ids, junk)[1..] == Definitions(ids[1..], junk);
      FoundForGood(cfg, Defined(cfg, core, ids[0], junk), id, ids[1..], junk);
    } else {
      DefinesNothing(cfg, core, ids, junk);
    }
  }

  lemma DefinesNothing(cfg: Config, core: Core, ids: seq<int>, junk: int)
    requires cfg.pageSize > 0 && (ids == [] || core.halted)
    ensures Run(cfg, core, Definitions(ids, junk)) == core
  {
    if core.halted { HaltedForGood(cfg, core, Definitions(ids, junk)); }
  }

  lemma {:induction false} DefinitionsAdvance(cfg: Config, core: Core, ids: seq<int>, junk: int)
    requires cfg.Valid() && Disciplined(cfg, core) && !core.halted
    requires core.pcb.stackPointer + VAR_SIZE * |ids| <= cfg.Limit()
    ensures var core' := Run(cfg, core, Definitions(ids, junk));
            && Disciplined(cfg, core') && !core'.halted
            && core'.pcb.stackPointer == core.pcb.stackPointer + VAR_SIZE * |ids|
    decreases |ids|
  {
    if ids != [] {
      DefineKeepsDiscipline(cfg, core, ids[0], junk);
      assert Definitions(ids, junk)[1..] == Definitions(ids[1..], junk);
      DefinitionsAdvance(cfg, Defined(cfg, core, ids[0], junk), ids[1..], junk);
    }
  }

  /** Whether the next definition under a name is the one the name will find. */
  predicate Fresh(cfg: Config, p: Pcb, id: int) {
    if IsArgument(id) then |Newest(p).args| == id - '0' as int else !LookUp(cfg, p, id).Found?
  }

  /** Over any run of definitions in a context: the k-th name finds, in the end, the address
      that was handed out for it, if and only if it was fresh when it was defined. */
  lemma NamesFindTheirOwnIff(cfg: Config, core: Core, ids: seq<int>, junk: int, k: nat)
    requires cfg.Valid() && Disciplined(cfg, core) && !core.halted && k < |ids|
    requires core.pcb.stackPointer + VAR_SIZE * |ids| <= cfg.Limit()
    ensures var before := Run(cfg, core, Definitions(ids[..k], junk));
            LookUp(cfg, Run(cfg, core, Definitions(ids, junk)).pcb, ids[k])
              == Found(core.pcb.stackPointer + VAR_SIZE * k)
            <==> Fresh(cfg, before.pcb, ids[k])
  {
    var before := Run(cfg, core, Definitions(ids[..k], junk));
    var next := Defined(cfg, before, ids[k], junk);
    DefinitionsAdvance(cfg, core, ids[..k], junk);
    SplitDefinitions(cfg, core, ids, junk, k);
    DefinedIsFoundIff(cfg, before, ids[k], junk);
    if LookUp(cfg, next.pcb, ids[k]).Found? {
      FoundForGood(cfg, next, ids[k], ids[k + 1..], junk);
    } else {
      DefineKeepsDiscipline(cfg, before, ids[k], junk);
      LaterIsElsewhere(cfg, next, ids[k], ids[k + 1..], junk, before.pcb.stackPointer);
    }
  }

  lemma SplitDefinitions(cfg: Config, core: Core, ids: seq<int>, junk: int, k: nat)
    requires cfg.pageSize > 0 && k < |ids|
    ensures var before := Run(cfg, core, Definitions(ids[..k], junk));
            Run(cfg, core, Definitions(ids, junk))
            == Run(cfg, Step(cfg, before, Define(ids[k], junk)), Definitions(ids[k + 1..], junk))
  {
    var rest := [Define(ids[k], junk)] + Definitions(ids[k + 1..], junk);
    assert Definitions(ids, junk) == Definitions(ids[..k], junk) + rest;
    assert rest[1..] == Definitions(ids[k + 1..], junk);
    RunConcat(cfg, core, Definitions(ids[..k], junk), rest);
  }

  /** A name not found yet is never found below what is defined later. */
  lemma {:induction false} LaterIsElsewhere(cfg: Config, core: Core, id: int, ids: seq<int>, junk: int, a: int)
    requires cfg.Valid() && Disciplined(cfg, core) && !core.halted && !LookUp(cfg, core.pcb, id).Found?
    requires a < core.pcb.stackPointer && core.pcb.stackPointer + VAR_SIZE * |ids| <= cfg.Limit()
    ensures LookUp(cfg, Run(cfg, core, Definitions(ids, junk)).pcb, id) != Found(a)
    decreases |ids|
  {
    if ids != [] {
      var next := Defined(cfg, core, ids[0], junk);
      DefineKeepsDiscipline(cfg, core, ids[0], junk);
      assert Definitions(ids, junk)[1..] == Definitions(ids[1..], junk);
      if LookUp(cfg, next.pcb, id).Found? {
        NewlyFound(cfg, core, id, ids[0], junk);
        FoundForGood(cfg, next, id, ids[1..], junk);
      } else {
        LaterIsElsewhere(cfg, next, id, ids[1..], junk, a);
      }
    }
  }

  /** A name that a definition makes findable is found at the new variable. */
  lemma NewlyFound(cfg: Config, core: Core, id: int, id2: int, junk: int)
    requires cfg.pageSize > 0 && core.pcb.stackPointer + VAR_SIZE <= cfg.Limit() && !LookUp(cfg, core.pcb, id).Found?
    requires LookUp(cfg, Defined(cfg, core, id2, junk).pcb, id).Found?
    ensures LookUp(cfg, Defined(cfg, core, id2, junk).pcb, id) == Found(core.pcb.stackPointer)
  {
    var c, v := Newest(core.pcb), Var(id2, Place(cfg, core.pcb.stackPointer));
    AddressOfPlace(cfg, core.pcb.stackPointer);
    if !IsArgument(id) && !IsArgument(id2) {
      var i := FirstNamed(c.vars + [v], id);
      assert FirstNamed(c.vars, id) == |c.vars|;
      assert forall j :: 0 <= j < |c.vars| ==> (c.vars + [v])[j].id != id;
    }
  }

  /** What a look-up says, in terms of the newest context: a variable is missing if none has
      the name, an argument if its number exceeds theirs, and one beyond the last gets past
      the check without an element. */
  lemma LookUpCases(cfg: Config, p: Pcb, id: int)
    ensures LookUp(cfg, p, id) == NoElement
            <==> p.stack != [] && IsArgument(id) && id - '0' as int == |Newest(p).args|
    ensures LookUp(cfg, p, id) == Missing
            <==> p.stack == [] || (if IsArgument(id) then id - '0' as int > |Newest(p).args|
                                   else forall v :: v in Newest(p).vars ==> v.id != id)
  {
    var vs := Newest(p).vars;
    var i := FirstNamed(vs, id);
    if i < |vs| { assert vs[i] in vs; }
  }

  // ----- Where execution goes on

  /** The instruction executed next after a jump to a target, -1 if there is none. */
  function Continues(target: int, PC: int): int { if target == -1 then PC + 1 else target }

  /** No flag is up and the loop goes on. */
  predicate Running(core: Core) { !core.overflow && !core.finished && !core.halted }

  /** A jump or call as a whole line: the loop goes on with the target's own instruction,
      or with the next one if the label was not found. */
  lemma JumpGoesOn(cfg: Config, core: Core, op: Primitive)
    requires cfg.pageSize > 0 && Running(core) && (op.Jump? || op.Call? || op.CallReturning?)
    ensures var next := Run(cfg, core, [op, Tick]);
            Running(next) && next.pcb.PC == Continues(op.target, core.pcb.PC)
  {
    assert [op, Tick][1..] == [Tick] && [Tick][1..] == [];
  }

  /** A line of one primitive leaves the loop if and only if it defines a variable for which
      there is no room, or finishes the last context; then PC stays where it was, and a
      variable without room is not defined. Any other line goes on. */
  lemma LineLeavesIff(cfg: Config, core: Core, op: Primitive)
    requires cfg.pageSize > 0 && Running(core) && op != Tick
    ensures var next := Run(cfg, core, [op, Tick]);
            && (next.halted <==> (op.Define? && core.pcb.stackPointer + VAR_SIZE > cfg.Limit())
                                 || (op.Finish? && |core.pcb.stack| <= 1))
            && (next.halted ==> next.pcb.PC == core.pcb.PC && !next.overflow && !next.finished)
            && (next.halted && op.Define? ==> next.pcb == core.pcb)
            && (!next.halted ==> Running(next))
            && (!next.halted && (op.Define? || op.Other?) ==> next.pcb.PC == core.pcb.PC + 1)
  {
    assert [op, Tick][1..] == [Tick] && [Tick][1..] == [];
  }

  // ----- Balanced calls

  /** A body that closes what it opens, entered with d calls still open. */
  ghost predicate Nested(ops: seq<Primitive>, d: nat)
    decreases |ops|
  {
    if ops == [] then d == 0
    else match ops[0]
      case Call(_) => Nested(ops[1..], d + 1)
      case CallReturning(_, _) => Nested(ops[1..], d + 1)
      case Finish => d > 0 && Nested(ops[1..], d - 1)
      case _ => Nested(ops[1..], d)
  }

  /** The oldest m contexts and where the next one returns to. */
  ghost predicate SameBelow(p: Pcb, q: Pcb, m: nat) {
    && m < |p.stack| && m < |q.stack|
    && p.stack[..m] == q.stack[..m]
    && p.stack[m].retPos == q.stack[m].retPos && p.stack[m].retVar == q.stack[m].retVar
  }

  lemma {:induction false} HaltedForGood(cfg: Config, core: Core, ops: seq<Primitive>)
    requires cfg.pageSize > 0 && core.halted
    ensures Run(cfg, core, ops) == core
    decreases |ops|
  {
    if ops != [] { HaltedForGood(cfg, core, ops[1..]); }
  }

  lemma StepKeepsBelow(cfg: Config, core: Core, op: Primitive, m: nat)
    requires cfg.pageSize > 0 && !core.halted && !core.finished && m < |core.pcb.stack|
    requires op.Finish? ==> m + 1 < |core.pcb.stack|
    ensures var core' := Step(cfg, core, op);
            && SameBelow(core.pcb, core'.pcb, m) && !core'.finished
            && |core'.pcb.stack| == |core.pcb.stack| + (if op.Call? || op.CallReturning? then 1 else 0)
                                                     - (if op.Finish? then 1 else 0)
  {
  }

  lemma {:induction false} NestedKeepsBelow(cfg: Config, core: Core, ops: seq<Primitive>, d: nat, m: nat)
    requires cfg.pageSize > 0 && !core.finished && |core.pcb.stack| == m + 1 + d && Nested(ops, d)
    requires !Run(cfg, core, ops).halted
    ensures var core' := Run(cfg, core, ops);
            SameBelow(core.pcb, core'.pcb, m) && |core'.pcb.stack| == m + 1 && !core'.finished
    decreases |ops|
  {
    if core.halted { HaltedForGood(cfg, core, ops); }
    if ops != [] {
      var next := Step(cfg, core, ops[0]);
      StepKeepsBelow(cfg, core, ops[0], m);
      NestedKeepsBelow(cfg, next, ops[1..], |next.pcb.stack| - (m + 1), m);
    }
  }

  /** Whatever its body does, the called context returns its value to the address the call
      named, a procedure to address 0. */
  lemma BodyReturnsToPlace(cfg: Config, core: Core, call: Primitive, body: seq<Primitive>)
    requires cfg.Valid() && !core.finished && !core.halted && (call.Call? || call.CallReturning?) && Nested(body, 0)
    requires !Run(cfg, Step(cfg, core, call), body).halted
    ensures var inner := Run(cfg, Step(cfg, core, call), body).pcb.stack;
            && |inner| == |core.pcb.stack| + 1 && inner[..|core.pcb.stack|] == core.pcb.stack
            && Address(cfg, inner[|inner| - 1].retVar) == if call.CallReturning? then call.place else 0
  {
    var m, entered := |core.pcb.stack|, Step(cfg, core, call);
    assert entered.pcb.stack[..m] == core.pcb.stack;
    NestedKeepsBelow(cfg, entered, body, 0, m);
    if call.CallReturning? { AddressOfPlace(cfg, call.place); }
  }

  /** A call, a balanced body and the matching finalizar: with a caller context the
      stack and the stack pointer are as before the call and PC is the call's own,
      so the loop goes on with the next instruction; without one the program ends
      there. */
  lemma CallsBalance(cfg: Config, core: Core, call: Primitive, body: seq<Primitive>)
    requires cfg.Valid() && Disciplined(cfg, core) && !core.finished && !core.halted
    requires (call.Call? || call.CallReturning?) && Nested(body, 0)
    requires !Run(cfg, Step(cfg, core, call), body).halted
    ensures var core' := Run(cfg, core, [call] + body + [Finish]);
            && core'.pcb.stack == core.pcb.stack && core'.pcb.stackPointer == core.pcb.stackPointer
            && (core'.finished <==> core.pcb.stack == [])
            && (core.pcb.stack != [] ==> core'.pcb.PC == core.pcb.PC)
            && (core.pcb.stack != [] && !core'.overflow ==> Step(cfg, core', Tick).pcb.PC == core.pcb.PC + 1)
  {
    var m, entered := |core.pcb.stack|, Step(cfg, core, call);
    assert entered.pcb.stack[..m] == core.pcb.stack;
    assert entered.pcb.stack[m].retPos == core.pcb.PC;
    NestedKeepsBelow(cfg, entered, body, 0, m);
    var mid := Run(cfg, entered, body);
    RunConcat(cfg, core, [call] + body, [Finish]);
    assert ([call] + body)[1..] == body;
    var last := Run(cfg, core, [call] + body + [Finish]);
    assert last == Step(cfg, mid, Finish);
    assert mid.pcb.stack[..m] == core.pcb.stack;
    RunKeepsDiscipline(cfg, core, [call] + body + [Finish]);
    StackPointerCounts(cfg, core.pcb.stack, core.pcb.stackPointer);
    StackPointerCounts(cfg, last.pcb.stack, last.pcb.stackPointer);
  }

  /** Behind the call every name finds what it found before. */
  lemma CallKeepsNames(cfg: Config, core: Core, call: Primitive, body: seq<Primitive>, id: int)
    requires cfg.Valid() && Disciplined(cfg, core) && !core.finished && !core.halted
    requires (call.Call? || call.CallReturning?) && Nested(body, 0)
    requires !Run(cfg, Step(cfg, core, call), body).halted
    ensures LookUp(cfg, Run(cfg, core, [call] + body + [Finish]).pcb, id) == LookUp(cfg, core.pcb, id)
  {
    CallsBalance(cfg, core, call, body);
  }
}
