// Common/structures.h: the data every process of the system passes around.
module Structures {
  import opened Bytes

  /** A place in a process's stack pages. */
  datatype MemPos = MemPos(page: int, offset: int, size: int)

  /** id is a signed char. */
  datatype Var = Var(id: int, mempos: MemPos)

  /** One entry of the stack index: a function's arguments, local variables, the
      instruction to return to and where to put the returned value. */
  datatype Context = Context(args: seq<Var>, vars: seq<Var>, retPos: int, retVar: MemPos)

  /** Both fields are 32-bit unsigned. */
  datatype Instruction = Instruction(start: int, offset: int)

  /** PC is 32-bit unsigned; the name is a C string without its terminator. */
  datatype Tag = Tag(name: seq<byte>, PC: int)

  datatype Pcb = Pcb(
    idProcess: int,
    PC: int,
    quantum: int,
    status: int,
    pagesCode: int,
    indexCode: seq<Instruction>,
    indexTag: seq<Tag>,
    stack: seq<Context>,
    stackPointer: int,
    exitCode: int)
}
