# A verified model of a small distributed operating system

The repository is a teaching operating system in C: a kernel that schedules AnSISOP
programs, CPUs that interpret them, a memory process with an inverted page table and a
page cache, and a common library of lists, serialization and packet framing. This
project restates its five cores in Dafny and proves what they keep and what they lose.

**Memory and programs.** `PageTables`, `Memories` and `Uploads` are the page table, the
flat main memory with its request handlers, and the kernel's upload of a program's code.
`StackMachine` is what the AnSISOP primitives do to a PCB, `PagedSystems` puts any number
of such programs on one memory, and `Cpus` is the same as an object whose methods change
the PCB and send requests. The main results: over every run, each live variable reads as
the 16 bits last assigned to it, no assignment reaches another variable or anybody's code,
names find the addresses they were defined at, functions return to the place their call named,
every live address lies in a frame its process owns, and an instruction is fetched as it
stood in the source. `Assignments` says exactly when an assignment through an address that
no look-up gave, also one whose bytes cross a page, is harmless.

**Kernel.** `KernelStates` has one function per handler on a state of five PCB queues, two
CPU lists, wait lists, stored codes and semaphore values; `Kernels` is the kernel with its
lists as fields, each method proved equal to its function. `KernelSafety` gives the
invariant of every run and the exact events that break it, `KernelSemaphores` the values,
the order of service and the effect of a kill, `KernelSharedValues` the shared variables,
`KernelAdmission` which code an admitted program gets, in which order programs start and in
which order CPUs are given one. `KernelHistories` tells runs from their events alone: whose
programs they are, what becomes of them when their console goes, what they are started as and
with which exit code they are left.
`KernelMemories` joins kernel and memory: over every run each program that is ready,
executing or blocked owns exactly the pages for its code and stack and finds its code there,
and the events that break this are given exactly. `WholeSystems` adds the CPUs, with PCBs
travelling as bytes and any number of copies of one about: over every run each copy reads back
what was last assigned, also after its program has waited and been dispatched again.

**Lists.** `MLists` is the doubly linked list on the heap, refined to a sequence,
`Collections` the queue and the stack on it. `Appends` takes the fact that an append reads
the tail before it takes the lock: every interleaving of appends is linearizable unless two
threads find the list empty and one inserts after the other, which is the one way to crash.

**Serialization and framing.** `Bytes`, `Serial`, `PcbCodec`, `PcbBuffers` and `Float754`
are the integer packing, the format interpreter, the nested PCB codec as functions and as
loops over a buffer, and the floating-point codec in exact real arithmetic.
`ProcessTransfers` says which running programs survive the trip between kernel and CPU.
`Framing` is the packet protocol over a stream that the network cuts anywhere.

**Cache.** `Caches` is the page cache, slots in one block and replacement by read recency.

Where the original changes fields, arrays or list nodes in place, the model does too, and
each such method is proved against a function whose properties are the lemmas. Where a
property one would expect is false of the code, a lemma states the exact condition under
which it holds.

## Assumptions about the surroundings

- `PagedSystems.Sane`: process ids of one byte, not in use when a program starts;
  requests that fit the 16-bit fields; code that does not fill its last page; addresses
  for assignments and returned values come from a successful look-up.
- `PagedSystems.ConfigOk`: the page size is a multiple of four, which `SlotsStayInPagesIff`
  shows to be needed.
- `KernelStates.Enabled`: a system call comes from a connected CPU, idle or executing, and
  carries any PCB; semaphore and variable names are known; a client connects under a new number.
  `KernelSafety.Doubles`, `Slips` and `Derails` are the events that break the three invariants,
  from the weakest to the strongest, each with a proof that no other event does.
- `KernelMemories.Regular` is the exact condition for an event to keep kernel and memory in order:
  a pid of one byte and code that leaves a remainder and fits the 16-bit fields for a program
  that arrives, no program doubled and no new program ended. Writes go to pages of the stack.
- `WholeSystems.Regular`: besides these, PCBs that are sent fit their 16-bit fields, and a CPU
  does not go on assigning for a program that has been killed or has ended.
- The memory's answer to an admission, the parser's reading of a program text, the way the
  network cuts a stream and the heap bytes behind a payload are parameters, all values of
  which are covered.

## Where the code differs from its documentation

- `Memoria/src/cache.c:62` speaks of the least recently used entry, but writing does not
  count as use. Over every run of a fresh cache the victim is the least recently used entry if
  and only if every other entry was used after the victim was last written
  (`VictimIsLeastRecentlyUsedIff`). After three writes to a cache of two entries the page
  written last is the next to go (`LastWrittenGoesFirst`).
- A wait blocks its program when the value *becomes* 0, so a semaphore that starts at 1
  blocks its first user; a signal puts its caller to sleep and wakes one program, so the
  number of sleepers never goes down (`WaitBlocksIff`, `RunNeverUnblocks`).
- A shared-variable call takes the program out of the exec queue and gives its CPU back, and no
  handler puts the program anywhere (`StepIsCompleteIff`). The CPU goes on with it all the same:
  its next calls come from an idle CPU and carry a program that is in no queue, and each of them
  puts the CPU into the idle list once more (`CalledIsSoundIff`). Its end puts the program into
  exit and leaves the CPU there twice (`SharedCallerEnds`). Programs stay in at most one queue
  and shared variables keep their values in such runs too (`RunKeepsPids`, `AnswerIsLastSet`).
- The CPU also goes on after a wait and a signal. When the wait has blocked the program, the end
  that the CPU reports puts it into exit while it still waits for the semaphore
  (`BlockedCallerEnds`). It is then in one queue only (`RunKeepsOnce`), its pages go
  (`CallStaysIff`), and the signal that wakes it later makes it ready without a page
  (`EventLoadsIff`), as it does with a program killed while it waits
  (`KernelMemories.KilledWaiterExample`).
- A console that goes away ends its programs once more if they had ended before, so the exit code
  of a program that finished becomes -6 (`DropEndsPrograms`).
- A connection that closes in the payload of a packet goes unnoticed: the header promises bytes
  that never came (`ClosedInPayload`, `ClosingIsNoticedIff`).
- `pack754` ors a fraction that rounds up to the hidden bit onto the exponent, which loses
  the carry when the exponent field is odd: in the 16-bit format 1.9998 comes back as 1
  (`ErrorBelowUlpIff`, `CarryIsLost`). Its constant
  `(1LL << n) + 0.5f` is exact in single precision only for the 16-bit format, so the
  addend is a parameter of the model: 0.5 there and 0 for the wider formats.

## Model

| member | source | states |
|---|---|---|
| MLists.List.LinkBefore | Common/mlist.c:240-256 | the new node lands right before its base and head, tail, length and both link directions stay consistent |
| MLists.List.LinkAfter | Common/mlist.c:258-274 | the same right behind its base; the base is not looked at when the list is empty |
| MLists.List.Unlink | Common/mlist.c:308-319 | exactly the given node goes, the ends follow, the element is handed back |
| MLists.List.InsertBefore | Common/mlist.c:240-256 | the sequence gains the element at the base's position |
| MLists.List.InsertAfter | Common/mlist.c:258-274 | the sequence gains the element behind the base's position |
| MLists.List.RemoveNode | Common/mlist.c:308-319 | the sequence loses exactly the element of the node |
| MLists.List.GetNode | Common/mlist.c:276-293 | walking from either end reaches the i-th node; NULL out of range |
| MLists.List.Append | Common/mlist.c:80-83 | the element comes last |
| MLists.List.Insert | Common/mlist.c:85-93 | the element is inserted at an index from 0 to the length, and nothing happens otherwise |
| MLists.List.Pop | Common/mlist.c:114-118 | the indexed element is removed and returned, NULL and no change out of range |
| MLists.List.Get | Common/mlist.c:120-123 | the indexed element or NULL |
| MLists.List.Index | Common/mlist.c:125-132 | the least index that satisfies the condition, -1 exactly if there is none |
| MLists.List.Find | Common/mlist.c:134-139 | the first matching element or NULL |
| MLists.List.Replace | Common/mlist.c:149-157 | one element is exchanged and the old one returned, nodes and order stay |
| MLists.List.Pass | Common/mlist.c:295-306 | one node of a deleting walk; the walk goes on at the right node although this one may be gone |
| MLists.List.Remove | Common/mlist.c:102-112 | exactly the matching elements are deleted while walking, the rest keep their order, the destroyer sees each match in order, the last match is returned |
| MLists.List.Reverse | Common/mlist.c:163-170 | a fresh list in opposite order, the original unchanged |
| MLists.List.Clear | Common/mlist.c:213-222 | the destroyer sees every element in order, every node is freed once, after its successor was read, and an empty, consistent list is left |
| MLists.SweepMatches | Common/mlist.c:102-112 | a left-to-right walk that keeps and deletes yields the non-matching and the matching elements, each in order |
| MLists.MatchingPartitions | Common/mlist.c:102-112 | deleted and kept elements together are the old list, none lost or doubled |
| Collections.Queue.Push | Common/queue.c:39-41 | the element arrives behind all waiting ones |
| Collections.Queue.Pop | Common/queue.c:43-45 | the element that has waited longest leaves |
| Collections.Queue.Next | Common/queue.c:23-25 | the element that would leave next |
| Collections.Stack.Push | Common/stack.c:39-41 | the element comes on top |
| Collections.Stack.Pop | Common/stack.c:43-45 | the element on top leaves |
| Collections.Stack.Top | Common/stack.c:23-25 | the element that would leave next |
| Collections.DrainInOrder | Common/queue.c:39-45 | whatever is pushed through a queue comes out in the order of arrival |
| Collections.UnwindReverses | Common/stack.c:39-45 | a stack hands elements back in reverse |
| Appends.AppendsAreLinearizable | Common/mlist.c:80-83 | every interleaving of unlocked tail reads and locked insertions, on a list of any length, keeps the old elements in front, inserts each element once, and puts an append that began after another had ended behind it; on an empty list, if no thread inserts after a stale NULL |
| Appends.CrashesExactlyOnStaleNull | Common/mlist.c:80-83 | an append dereferences NULL if and only if some thread read the tail of an empty list and inserts after somebody else's first element |
| Appends.TwoFirstAppendsCrash | Common/mlist.c:80-83 | two threads and an empty list suffice for that |
| Appends.FinishAppend | Common/mlist.c:258-274 | the locked insertion after a possibly stale base lands where the schedule says and keeps the list consistent |
| Appends.RunAppends | Common/mlist.c:80-83 | carrying a whole schedule out on the list object gives exactly the elements the schedule predicts |
| PageTables.CountFree | Memoria/src/page_table.c:20-23 | the number of free rows |
| PageTables.SetPages | Memoria/src/page_table.c:11-38 | grants all pages if enough rows are free and nothing otherwise |
| PageTables.HandOut | Memoria/src/page_table.c:29-34 | the loop over the table gives the k-th free frame to the k-th page from the end |
| PageTables.ClearPages | Memoria/src/page_table.c:40-54 | frees the rows of the pid and no other |
| PageTables.GetFrame | Memoria/src/page_table.c:56-75 | the frame of a mapped page, 0 for any other page |
| PageTables.FrameIsOwned | Memoria/src/page_table.c:56-75 | a mapped page translates to the frame that carries its pid and number |
| PageTables.GrantIsExact | Memoria/src/page_table.c:11-38 | the pid owns exactly pages 0..n-1, one-to-one in frames that were free, in descending order; other rows are untouched |
| PageTables.GrantUnambiguousIffFresh | Memoria/src/page_table.c:11-38 | after a grant each (pid, page) has one frame if and only if the pid owned none before |
| PageTables.GrantedFramesDescend | Memoria/src/page_table.c:29-34 | a later page sits in an earlier frame |
| PageTables.ClearKeepsTable | Memoria/src/page_table.c:40-54 | clearing keeps (pid, page) unique and page numbers gapless |
| PageTables.ClearUndoesGrant | Memoria/src/page_table.c:11-54 | clearing gives back exactly what the grant took |
| PageTables.FramesConserved | Memoria/src/page_table.c:11-54 | a grant moves exactly the requested number of frames from free to the pid, clearing moves them back, nobody else's count changes |
| PageTables.RunsKeepTable | Memoria/src/page_table.c:11-54 | over every run of grants to fresh pids and clears the table stays unambiguous, and each pid owns as many frames as its last grant gave that was not cleared since, else as many as at the start |
| PageTables.RunsConserveFrames | Memoria/src/page_table.c:11-54 | over every such run the free frames and what all pids hold by their last grants add up to the table |
| PageTables.FramesAddUp | Memoria/src/page_table.c:11-23 | free frames and the frames of all owners are all frames |
| PageTables.EmptyTableOk | Memoria/src/page_table.c:6-9 | the zeroed table of the start is in order |
| Memories.CopyOut | Memoria/src/page_table.c:77-92 | the byte loop copies the addressed bytes and nothing else; 0 for a negative offset or no size |
| Memories.CopyIn | Memoria/src/page_table.c:94-109 | the byte loop stores the bytes at the address and leaves the rest of main memory |
| Memories.ReadRefines | Memoria/src/page_table.c:56-92 | reading inside a mapped page returns that process's bytes of that page |
| Memories.WriteRefines | Memoria/src/page_table.c:56-109 | writing inside a mapped page changes exactly the addressed bytes of that process and no byte of any other page of any process |
| Memories.InitKeepsOthers | Memoria/src/server.c:62-73 | starting a program leaves every other process's bytes in place |
| Memories.ReleaseKeepsOthers | Memoria/src/server.c:117-125 | ending a program leaves every other process's bytes in place |
| Memories.WriteStaysInsideIff | Memoria/src/page_table.c:71-109 | a write, whatever its bytes, changes no byte of a frame of anybody else if and only if every frame its byte range touches belongs to the process |
| Memories.InPageStaysInsideIff | Memoria/src/page_table.c:71-109 | a range inside one page touches own frames only if and only if the page is mapped or the process owns frame 0 |
| Memories.CrossingWriteHitsNeighbour | Memoria/src/page_table.c:94-109 | a write to a mapped page that crosses its end overwrites two bytes of another process |
| Memories.UnmappedWriteHitsFrameZero | Memoria/src/page_table.c:71-74 | a write of one process to an unmapped page overwrites another's frame 0 |
| Memories.Server.InitProgram | Memoria/src/server.c:62-73 | the request grants the pages and answers 1, or answers 0 and changes nothing |
| Memories.Server.FinishProgram | Memoria/src/server.c:117-125 | the request frees the program's frames |
| Memories.Server.ReadBytes | Memoria/src/server.c:74-93 | the request answers the addressed bytes or an empty refusal |
| Memories.Server.WriteBytes | Memoria/src/server.c:94-114 | the request stores the payload and says whether it did |
| Memories.RequestWrite | Memoria/src/server.c:94-114 | header and payload packet of a write together have the effect of one write |
| Memories.InitIff | Memoria/src/page_table.c:11-38 | pages are granted if and only if the pid is positive, some are asked for and as many frames belong to nobody; then they go from nobody to the pid, and otherwise nothing changes |
| Memories.ReleaseIsAnswered | Memoria/src/page_table.c:40-54 | after an end the pid owns no frame; a pid that is not positive is answered 0 and changes nothing |
| Memories.RefusedIff | Memoria/src/page_table.c:77-109 | a read or write is refused, and changes nothing, if and only if the offset is negative or no byte is asked for |
| Uploads.SendPage | Kernel/src/Kernel.c:150-169 | one turn of the upload loop writes one chunk to its page, the last with the remainder as its size |
| Uploads.Upload | Kernel/src/Kernel.c:147-180 | the loop writes every chunk once, in order |
| Uploads.UploadRefines | Kernel/src/Kernel.c:147-180 | afterwards the program's code pages hold the chunks and every other byte of every process is as before |
| Uploads.UploadStoresCode | Kernel/src/Kernel.c:150-169 | every byte of the code is at its page and offset, except the last page of a code that fills its pages exactly, which keeps its old bytes |
| Uploads.UploadedIsStored | Kernel/src/Kernel.c:128-180 | code that leaves a remainder is stored whole |
| Uploads.PagesHoldCode | Kernel/src/Kernel.c:128 | the pages for a code are the fewest that hold it |
| Uploads.FetchReturnsSource | CPU/src/CPU.c:128-149 | an instruction inside one page is fetched as it stands in the source, whatever frames the pages got |
| StackMachine.StackPointerCounts | CPU/src/CPU.c:191-233 | the stack pointer is four times the number of arguments and variables over all contexts |
| StackMachine.StepKeepsDiscipline | CPU/src/CPU.c:191-434 | every primitive keeps the contexts in adjacent intervals from 0 to the stack pointer, within the stack pages |
| StackMachine.RunKeepsDiscipline | CPU/src/CPU.c:85-111 | so does every sequence of primitives |
| StackMachine.StartDisciplined | Kernel/src/Kernel.c:92-93 | a new PCB begins so |
| StackMachine.ContextOwnsInterval | CPU/src/CPU.c:193-231 | each context owns a contiguous interval that its variables tile |
| StackMachine.LiveSlotHasVariable | CPU/src/CPU.c:193-231 | every live four-byte slot belongs to a variable of some context |
| StackMachine.VariablesAreLive | CPU/src/CPU.c:193-231 | every variable of every context is a live slot inside its own context's interval |
| StackMachine.VariablesDisjoint | CPU/src/CPU.c:193-231 | the four-byte ranges of any two different variables, of one context or of two, never overlap |
| StackMachine.ContextsApart | CPU/src/CPU.c:193-231 | every variable of a context ends before any variable of a later context begins |
| StackMachine.LookUpIsLiveIffFound | CPU/src/CPU.c:235-276 | the address a look-up hands out is a live variable's if and only if the name was found |
| StackMachine.DefinedIsFoundIff | CPU/src/CPU.c:191-276 | a name finds what was just defined under it if and only if, for a variable, nothing older of the context has the name, and for an argument, its digit is the number of arguments that were there |
| StackMachine.FoundStays | CPU/src/CPU.c:191-276 | whatever is defined next in the context, every name that was found, argument or variable, is found at the same address |
| StackMachine.NamesFindTheirOwnIff | CPU/src/CPU.c:191-276 | over any run of definitions each name finds in the end the address handed out for it if and only if it was fresh when it was defined: no older variable of the name, or as many arguments as its digit |
| StackMachine.LookUpCases | CPU/src/CPU.c:235-276 | a variable is missing if and only if none of the newest context has the name, an argument if and only if its number exceeds theirs; one beyond the last gets past the check |
| StackMachine.JumpGoesOn | CPU/src/CPU.c:357-393 | after a line that jumps or calls the loop goes on with the very instruction of the label, or with the next one if there is no such label |
| StackMachine.LineLeavesIff | CPU/src/CPU.c:85-126 | a line of one primitive leaves the loop if and only if it defines a variable for which there is no room or finishes the last context; then PC stays and nothing was defined |
| StackMachine.CallsBalance | CPU/src/CPU.c:370-434 | a call, any balanced body and the matching finalizar restore the contexts and the stack pointer and resume behind the call |
| StackMachine.BodyReturnsToPlace | CPU/src/CPU.c:370-405 | whatever the body of a call does, its context keeps the place named by the call, address 0 for a procedure |
| StackMachine.CallKeepsNames | CPU/src/CPU.c:370-434 | behind a call every name finds what it found before |
| PagedSystems.SlotsStayInPagesIff | CPU/src/CPU.c:278-320 | no variable crosses a page if and only if the page size is a multiple of four or the stack ends before the first crossing |
| PagedSystems.DereferenceRefines | CPU/src/CPU.c:278-311 | reading a variable returns its first two bytes, signed, from the frame its process owns |
| PagedSystems.AssignThenDereference | CPU/src/CPU.c:278-343 | reading back gives the low 16 bits of the value, the value itself exactly when it fits |
| PagedSystems.AssignElsewhere | CPU/src/CPU.c:314-343 | an assignment changes no other variable of any process |
| PagedSystems.AssignKeepsProcesses | CPU/src/CPU.c:314-343 | an assignment reaches nobody's code |
| PagedSystems.StartGivesPages | Kernel/src/Kernel.c:123-180 | a started program finds its pages and its code, and nobody else notices |
| PagedSystems.ReturnIsGood | CPU/src/CPU.c:395-405 | returning a value stores it at the caller's place and keeps every other variable |
| PagedSystems.NextIsGood | CPU/src/CPU.c:191-434 | every event keeps memory, page table, stacks and stored values in agreement |
| PagedSystems.RunsReadBack | CPU/src/CPU.c:191-434 | over every run of any number of programs each live variable reads as what was last assigned to it |
| PagedSystems.InitialIsGood | Memoria/src/page_table.c:6-9 | an empty system begins so |
| PagedSystems.RunsIsolateProcesses | CPU/src/CPU.c:128-343 | over every run each live address lies in a frame its process owns and each process fetches its own code |
| PagedSystems.AssignmentLasts | CPU/src/CPU.c:278-343 | a value assigned to a live variable is what it reads as, in 16 bits, after every run of all programs that keeps it alive and stores nothing there |
| PagedSystems.RunsOwnSteps | CPU/src/CPU.c:191-434 | after every run a program still there has the PCB its own primitives made of it, as if it had run alone |
| PagedSystems.ReturnReachesCaller | CPU/src/CPU.c:370-405 | a function returns to the place its call named, a procedure to address 0, and the value reads there |
| Assignments.AssignKeepsOthersIff | CPU/src/CPU.c:314-343 | in a system in order, an assignment through any address of the stack pages that stays in main memory, also across the end of a page, keeps every other variable of every process, whatever the value, if and only if its four bytes fall on none of the two that each other live variable is read from |
| Assignments.WithinKeepsOthersIff | CPU/src/CPU.c:314-343 | when the four bytes lie in one page, if and only if the address keeps away from the other variables of the same process |
| Assignments.MissingNameHarmlessIff | CPU/src/CPU.c:235-276 | assigning to a name that was not found changes no variable of any process if and only if the program has no variables and, with pages of four bytes, no variable is in the frame behind its first stack page |
| Assignments.ProcedureReturnHitsFirst | CPU/src/CPU.c:386-405 | returning a value from a procedure overwrites the program's first variable |
| Cpus.Cpu.DefineVariable | CPU/src/CPU.c:191-233 | the primitive does to the PCB what the stack machine says and returns the new variable's address or -1 |
| Cpus.Cpu.FindVariable | CPU/src/CPU.c:235-276 | the search of the newest context finds the first variable of the name, or reports why not |
| Cpus.Cpu.Dereference | CPU/src/CPU.c:278-311 | the request for four bytes yields the dereferenced value |
| Cpus.Cpu.AssignVariable | CPU/src/CPU.c:314-343 | the write request leaves the memory as one assignment does |
| Cpus.Cpu.JumpTo | CPU/src/CPU.c:357-368 | PC is one short of a label that was found and untouched otherwise |
| Cpus.Cpu.CallFunction | CPU/src/CPU.c:370-384 | pushes a context with the place to return to and jumps |
| Cpus.Cpu.CallProcedure | CPU/src/CPU.c:386-393 | pushes a context without a place and jumps |
| Cpus.Cpu.FinishContext | CPU/src/CPU.c:407-434 | drops the newest context, gives back its interval, resumes the caller or ends the program |
| Cpus.Cpu.ReturnValue | CPU/src/CPU.c:395-405 | assigns to the caller's place, then finishes the context |
| Cpus.Cpu.Perform | CPU/src/CPU.c:85-111 | each primitive is one step of the stack machine |
| Cpus.Cpu.MustLeave | CPU/src/CPU.c:113-126 | the flags end the loop once and are cleared |
| Cpus.Cpu.ExecuteInstruction | CPU/src/CPU.c:97-104 | one turn of the loop runs the line, checks the flags and advances PC; after a jump or call PC is the label's own instruction |
| Cpus.Cpu.ExecuteProgram | CPU/src/CPU.c:85-111 | the loop runs the lines of primitives as the stack machine does until the quantum, a flag or the lines are exhausted |
| KernelSafety.InitialIsSound | Kernel/src/Kernel.c:25-38 | the kernel starts with everything in order |
| KernelSafety.EndedCounts | Kernel/src/exitcode.c:6-10 | an ended program is in the exit queue, once, and in no other queue; other programs stay where they were |
| KernelSafety.CreatedIsSound | Kernel/src/Kernel.c:63-118 | a new program gets the next pid and is in the new queue, once, and in no other; every other program stays in its queue |
| KernelSafety.AdmittedIsSound | Kernel/src/Kernel.c:123-197 | below the level the oldest new program moves to ready or, refused, to exit, and is there only; every other program stays in its queue; at the level nothing changes |
| KernelSafety.DispatchedIsSound | Kernel/src/Kernel.c:199-212 | dispatching keeps every program and CPU in one place and as many executing programs as CPUs |
| KernelSafety.WokenIsBlocked | Kernel/src/syscall.c:36-46 | the program a signal wakes is blocked, once, when it is woken, and is the caller only if nobody else waits |
| KernelSafety.CalledIsSound | Kernel/src/syscall.c:3-80 | program end, wait, signal and shared-variable calls keep the invariant; only the last loses the program |
| KernelSafety.CallKeepsPidsIff | Kernel/src/syscall.c:3-80 | a call of any CPU with any PCB leaves every program in at most one queue, and blocked as often as it waits, if and only if it ends a program that is not blocked, is a wait or a signal of one that is executing or in no queue, or touches no semaphore |
| KernelSafety.CalledIsSoundIff | Kernel/src/syscall.c:3-80 | a known call of a connected CPU keeps everything in order if and only if the CPU is in the executing list and the program in the exec queue |
| KernelSafety.OtherCallIsSoundIff | Kernel/src/syscall.c:8-80 | an unknown call keeps everything in order if and only if its program is not executing, and then it changes nothing |
| KernelSafety.SharedCallerEnds | Kernel/src/syscall.c:52-78 | a program that used a shared variable is in no queue until its end puts it into exit, and then its CPU is twice in the idle list |
| KernelSafety.BlockedCallerEnds | CPU/src/CPU.c:513-532 | a program whose wait has blocked it and whose CPU goes on to its end is in exit, once, and still waits for the semaphore |
| KernelSafety.CallKeepsOnceIff | Kernel/src/syscall.c:3-80 | a call of any CPU with any PCB leaves every program in at most one queue if and only if it ends a pid handed out, is a wait of a program that is executing or in no queue, or a signal of such a one that wakes itself, a blocked program or one in no queue, or touches no semaphore |
| KernelSafety.StepKeepsOnceIff | Kernel/src/server.c:12-77 | every event, kills of blocked programs included, keeps each program in at most one queue, except exactly the other calls |
| KernelSafety.RunKeepsOnce | Kernel/src/server.c:12-77 | the same over every run without such calls |
| KernelSafety.DroppedIsSoundIff | Kernel/src/server.c:80-95 | killing a console's programs keeps the invariant if and only if none of them is blocked |
| KernelSafety.DroppedKeepsPidsIff | Kernel/src/server.c:80-95 | the same for the places of programs alone, in states where a CPU may be listed twice |
| KernelSafety.StepKeepsPidsIff | Kernel/src/server.c:12-77 | any event keeps each program in at most one queue, blocked as often as it waits, except exactly a kill of a blocked program, the end of a blocked program, and a wait or signal of a program that is queued and not executing |
| KernelSafety.RunKeepsPids | Kernel/src/server.c:12-77 | the same over every run without those events, also while programs go on calling after a shared-variable call |
| KernelSafety.StepIsSoundIff | Kernel/src/server.c:63-76 | every event keeps each pid in at most one queue, blocked pids equal to waiting pids, the level, and CPUs paired, except exactly a kill of a blocked program, an unknown call with an executing program, and a known call whose CPU or program is not executing |
| KernelSafety.StepIsCompleteIff | Kernel/src/syscall.c:52-78 | every pid handed out stays in exactly one queue if and only if the call is not one on a shared variable |
| KernelSafety.RunIsSound | Kernel/src/server.c:12-77 | the same over every run without those events; no program is lost unless a shared variable is used |
| KernelSafety.RunKeepsCpus | Kernel/src/server.c:118-124 | over every run without those events each accepted CPU is in exactly one of the two lists, once |
| KernelSafety.RunKeepsCpuSet | Kernel/src/server.c:118-124 | over every run at all the CPUs in the two lists are those at the start and those accepted since |
| KernelSafety.EveryRunKeepsPids | Kernel/src/server.c:12-77 | from the start of the kernel, over every run that does not slip, programs going on after a shared-variable call included: a pid handed out is in at most one queue, no other pid in any, blocked programs are those that wait, and the listed CPUs are those accepted |
| KernelSafety.EveryRun | Kernel/src/server.c:12-77 | from the start of the kernel, while every call comes from an executing CPU with an executing program: also no program is lost unless a shared variable is used, the level is respected, executing programs and CPUs are as many, and each CPU is listed once |
| KernelSharedValues.StepOnShared | Kernel/src/syscall.c:65-74 | an event changes a shared variable only by setting it |
| KernelSharedValues.AnswerIsLastSet | Kernel/src/syscall.c:52-78 | after every run, whoever calls and how often, a shared variable reads as the value any program set last |
| KernelSharedValues.AnswersFromTheStart | Kernel/src/syscall.c:52-78 | from the start of the kernel a shared variable reads 0 until some program sets it |
| KernelSemaphores.StepOnSem | Kernel/src/syscall.c:27-47 | one event moves a value by one at most, adds at the end of a wait list, takes from its head, and never shortens it |
| KernelSemaphores.RunOnSem | Kernel/src/syscall.c:16-51 | over every run, kills and calls of idle CPUs included, a value is its initial value minus waits plus signals and programs leave a wait list in the order they joined |
| KernelSemaphores.ValuesFromTheStart | Kernel/src/syscall.c:16-51 | from the start of the kernel a semaphore has its configured value minus waits plus signals, and who waits has joined and not left |
| KernelSemaphores.SignalPassesTheTurn | Kernel/src/syscall.c:35-47 | a signal wakes the program that has waited longest and puts its caller to sleep, or lets the caller go on when nobody waits |
| KernelSemaphores.WaitBlocksIff | Kernel/src/syscall.c:27-34 | a wait blocks its program if and only if it leaves the value at 0 or below |
| KernelSemaphores.StepNeverUnblocks | Kernel/src/syscall.c:16-51 | no event that does not slip reduces the number of blocked programs |
| KernelSemaphores.RunNeverUnblocks | Kernel/src/syscall.c:16-51 | over every run without slips, so without kills and ends of blocked programs, a wait that blocks takes a place of the multiprogramming level for good |
| KernelSemaphores.SignalIsSingleIff | Kernel/src/syscall.c:35-46 | a signal leaves every pid in at most one queue if and only if the program it wakes is the caller, blocked, or in no queue |
| KernelSemaphores.KilledIsInExit | Kernel/src/server.c:85-92 | a blocked program whose console goes away is in exit, once |
| KernelSemaphores.KilledWaiterReturns | Kernel/src/server.c:85-92 | a program killed while blocked at the head of a wait list is ready and finished at once after the next signal |
| KernelSemaphores.KilledWaiterExample | Kernel/src/server.c:85-92 | a concrete sound state where that happens |
| KernelAdmission.StepOwnsCodeIff | Kernel/src/Kernel.c:105-130 | every new program is paired with its own code after any event if and only if the event neither kills a new program nor reports the end of one |
| KernelAdmission.CalledOwnsCodeIff | Kernel/src/syscall.c:3-80 | a call of any CPU keeps the pairing if and only if it does not end a program that is still new |
| KernelAdmission.AdmissionUsesOwnCode | Kernel/src/Kernel.c:126-145 | the memory is asked for pages for the code submitted as the program, which then is the last ready one or ends with code -1 |
| KernelAdmission.KilledNewShiftsCodes | Kernel/src/Kernel.c:126-130 | after a kill of the first new program the next one is loaded with the dead one's code |
| KernelAdmission.RunOwnsCode | Kernel/src/Kernel.c:105-130 | the pairing holds over every run, kills and ends of blocked programs included, that ends no new program and puts none into two queues |
| KernelAdmission.RunKeepsSupply | Kernel/src/Kernel.c:126-130 | over every run at all the code list is never empty when a program is admitted |
| KernelAdmission.DispatchExhausts | Kernel/src/Kernel.c:199-212 | dispatching ends with no ready program or no idle CPU and pairs both in the order they became free |
| KernelAdmission.StepInOrderIff | Kernel/src/Kernel.c:199-212 | at an event the ready queue gives at its head whom it starts and takes at its end who becomes ready if and only if no ready program is killed or ended |
| KernelAdmission.RunInOrder | Kernel/src/Kernel.c:120-213 | over every run that ends no ready program and puts none into two queues, programs start in the order in which they became ready |
| KernelAdmission.StepServesCpus | Kernel/src/server.c:118-124 | at every event the idle list gives at its head whom it uses and takes at its end a CPU that connects or makes any known call |
| KernelAdmission.StartedOnUsed | Kernel/src/Kernel.c:199-212 | the k-th program started at an event runs on the k-th CPU used |
| KernelAdmission.RunServesCpus | Kernel/src/Kernel.c:199-212 | over every run CPUs are given programs in the order in which they became idle, as many as programs are started |
| KernelHistories.ConsolesOwnTheirPrograms | Kernel/src/Kernel.c:100-118 | after every run the kernel knows exactly the consoles that are connected, and for each exactly the pids of the programs it submitted since it connected, in order |
| KernelHistories.DropEndsPrograms | Kernel/src/server.c:80-95 | a console that goes away is forgotten, each of its programs that is queued and not executing is in exit, once, with code -6, whatever its code was, and nothing happens to any other program |
| KernelHistories.EveryDropEndsItsPrograms | Kernel/src/server.c:80-95 | from the start of the kernel, after every run that doubles no program, those are exactly the programs it submitted since it connected |
| KernelHistories.ReportedEnd | Kernel/src/exitcode.c:6-10 | a program whose end a CPU reports is in exit, once, the last there, with code 0 |
| KernelHistories.ProgramsStartAsSubmitted | Kernel/src/Kernel.c:63-98 | after every run a program that has made no call, new, ready or executing, has the start, instructions and tags it was submitted with, the configured quantum and an empty stack |
| KernelHistories.FirstDispatch | Kernel/src/Kernel.c:199-212 | so a program is dispatched for the first time as it was submitted |
| KernelMemories.LoadingLoads | Kernel/src/Kernel.c:126-192 | a granted admission gives the program exactly the pages for its code and stack, with the code in the first of them, and no other process loses a page or a byte |
| KernelMemories.AdmissionSucceedsIff | Kernel/src/Kernel.c:126-197 | the oldest new program becomes ready or executing if and only if as many frames belong to nobody as its submitted code and its stack need, and is in exit otherwise |
| KernelMemories.CallStaysIff | Kernel/src/exitcode.c:6-36 | after a call of any CPU with any PCB pages belong to exactly the programs that are admitted and not finished, each in one queue, if and only if the call leaves each in at most one queue |
| KernelMemories.StepStaysIff | Kernel/src/server.c:12-77 | any event, kills of blocked programs included, keeps programs, codes and pages in order if and only if no call doubles a program, no new program ends, and a program that arrives has a pid of one byte and code that leaves a remainder and fits its fields |
| KernelMemories.RunStaysIff | Kernel/src/server.c:12-77 | they are in order at every point of a run if and only if each event is such |
| KernelMemories.ProgramsOwnTheirPages | Kernel/src/Kernel.c:126-192 | over every such run, kills and ends of blocked programs included, each ready, executing or blocked program owns exactly the pages for its submitted code and its stack and finds that code in them; new and finished programs own none |
| KernelMemories.CallLoadsIff | Kernel/src/syscall.c:3-80 | after a call every ready, executing or blocked program has its pages and code if and only if a waiting or signalling caller, and whom the signal wakes, were admitted and not finished, and an end gives back the pages of its own pid |
| KernelMemories.EventLoadsIff | Kernel/src/server.c:12-77 | after any event they have if and only if it is not exactly such a call |
| KernelMemories.StartIsGood | Kernel/src/Kernel.c:25-38 | kernel and memory start so |
| KernelMemories.KilledWaiterHasNoPages | Kernel/src/exitcode.c:12-36 | a program killed while it is blocked and woken by a later signal is ready without a single page |
| KernelMemories.KilledWaiterExample | Kernel/src/exitcode.c:12-36 | two programs on four frames, the first blocked and the second executing: the state is in order, the console of the first goes away, the second signals, and the first is ready without a page |
| WholeSystems.EventUntouched | Kernel/src/server.c:12-77 | at any regular event the programs admitted and not finished before and after it keep their pages, how many they are, and their bytes |
| WholeSystems.CallHandsOver | Kernel/src/syscall.c:3-11 | what the kernel queues, blocks or wakes after a call is the PCB as the CPU had it, bytes behind it notwithstanding |
| WholeSystems.StepStays | CPU/src/CPU.c:76-126 | each step of kernel, CPUs and memory keeps programs with their pages, every copy of a PCB with its stack in order and, when queued or sent, fit for its fields, and memory in agreement with what was assigned |
| WholeSystems.EveryCopyReadsBack | CPU/src/CPU.c:278-343 | over every run of kernel, any number of CPUs and memory, every copy of the PCB of an admitted and unfinished program, on a CPU, on its way, ready, blocked or waiting, reads at each address the 16 bits that any CPU assigned there last since the admission |
| WholeSystems.ResumedReadsBack | Kernel/src/Kernel.c:199-212 | a program dispatched again after a wait goes on with the PCB that was queued, which leaves the CPU's mail, and reads back what was last assigned |
| WholeSystems.AssignmentLasts | CPU/src/CPU.c:278-343 | what a CPU assigns to a variable is what every copy of the program's PCB reads there after every run in which no CPU stores there again and the program is neither finished nor killed |
| WholeSystems.DispatchReachesItsCpu | Kernel/src/Kernel.c:199-212 | a planning sends the k-th ready program to the k-th idle CPU, behind what that CPU has not taken up, and nothing to a CPU it does not use |
| WholeSystems.CpusKeepToThemselves | CPU/src/CPU.c:76-126 | until it takes up another program a CPU works on what its own primitives made of this one, whatever kernel and other CPUs do |
| WholeSystems.StartIsGood | Kernel/src/Kernel.c:25-38 | kernel, CPUs and memory start so |
| Kernels.Kernel.PcbById | Kernel/src/pcbutils.c:45-56 | the first PCB of the pid in the order new, ready, exec, block, exit, or none |
| Kernels.Kernel.PcbStatus | Kernel/src/pcbutils.c:68-79 | the first queue that holds the pid, -1 exactly if none does |
| Kernels.Kernel.PcbRemove | Kernel/src/pcbutils.c:82-90 | the pid leaves all five queues and nobody else does |
| Kernels.Kernel.EndProgram | Kernel/src/exitcode.c:6-10 | the program leaves every queue and enters exit with its code |
| Kernels.Kernel.RestoreCpu | Kernel/src/server.c:118-124 | the CPU goes from executing to the end of the idle list |
| Kernels.Kernel.CreatePcb | Kernel/src/Kernel.c:100-118 | the next pid, the code stored, the pid noted at its console, the PCB in new |
| Kernels.Kernel.HandleCall | Kernel/src/syscall.c:3-80 | each system call takes the state where the model's step says and answers a shared variable's value |
| Kernels.Kernel.HandleWait | Kernel/src/syscall.c:27-34 | decrement, then ready or blocked and queued |
| Kernels.Kernel.HandleSignal | Kernel/src/syscall.c:35-47 | increment, the caller queued and blocked, the head of the list ready and unblocked |
| Kernels.Kernel.Admit | Kernel/src/Kernel.c:123-197 | at most one admission, below the level only, with a request for the pages that code and stack need |
| Kernels.Kernel.Dispatch | Kernel/src/Kernel.c:199-212 | the loop starts the oldest ready programs on the CPUs longest idle and reports each pairing |
| Kernels.Kernel.Schedule | Kernel/src/Kernel.c:120-213 | admission, then dispatch |
| Kernels.Kernel.DestroyConsole | Kernel/src/server.c:80-95 | every program of the console that is not executing is ended, also one already in exit |
| Kernels.Kernel.Handle | Kernel/src/server.c:16-76 | one event of the server loop is one step |
| Kernels.Kernel.Serve | Kernel/src/server.c:12-77 | serving a sequence of events is a run |
| Bytes.UnpackPackUnsigned | Common/serial.c:85-108 | unpacking packed bytes gives the number modulo 256 to their count |
| Bytes.UnpackPackSigned | Common/serial.c:113-182 | the same for signed numbers, exact when in range |
| Bytes.PackUnpack | Common/serial.c:85-197 | packing an unpacked number rebuilds the bytes, signed or unsigned |
| Bytes.PackedByte | Common/serial.c:85-108 | the most significant byte goes first |
| Serial.UnpackInvertsPack | Common/serial.c:219-476 | unpacking what any format packed, followed by anything, gives every argument reduced to its field; a truncated string does not disturb later fields |
| Serial.SizeIsSum | Common/serial.c:219-339 | the size is the sum of the field sizes |
| Serial.FieldBackIff | Common/serial.c:219-476 | one field, whatever follows it, comes back as it was, with its size, if and only if the argument fits it |
| Serial.LongTextShrinks | Common/serial.c:323-331 | a text of 65536 bytes or more comes back different, with and without a limit |
| Serial.ArgumentsBackIff | Common/serial.c:219-476 | unpacking what a format packed, whatever follows it, gives the same arguments if and only if each number is in the range of its width, each text has less than 65536 bytes and is within its limit, and each float is the value of a word |
| Serial.AllOnes | Common/serial.c:341-352 | bytes that are all ones are -1 for the small letters and the greatest number of their width for the capitals, in one, two, four and eight bytes |
| Serial.OneInHalf | Common/serial.c:24-51 | in half precision 1.0 goes out as 3C00, and so does 1.9998 |
| Serial.OneInSingle | Common/serial.c:24-51 | in single precision 1.0 goes out as 3F800000 |
| Serial.OneInDouble | Common/serial.c:24-51 | in double precision 1.0 goes out as 3FF0000000000000 |
| Serial.PackInto | Common/serial.c:219-339 | the loop writes the fields one after another and nothing else, and returns their size |
| Serial.UnpackFrom | Common/serial.c:362-476 | the loop reads the fields back, resetting the string limit after each |
| PcbCodec.PcbRoundTripIff | Common/serial.c:478-547 | a PCB survives packing and unpacking, whatever follows it, if and only if its numbers fit 16 bits, its tag names 63 bytes and its lists their counts |
| PcbCodec.PcbSize | Common/serial.c:478-502 | the size returned, in closed form over all nested lists |
| PcbCodec.LongTagIsCut | Common/serial.c:504-547 | a longer tag name comes back cut and the bytes after it are misread |
| PcbCodec.CountWraps | Common/serial.c:565-615 | a list whose length does not fit its count arrives empty |
| PcbCodec.NegativeCountsStop | Common/serial.c:504-532 | a PCB whose count of instructions or tags wraps to a negative number is not read |
| PcbCodec.StackBack | Common/serial.c:549-599 | a stack of contexts of any shape survives |
| PcbCodec.VarsBack | Common/serial.c:565-615 | a list of variables survives |
| ProcessTransfers.TripIsLosslessIff | Kernel/src/Kernel.c:203-208 | the PCB of any process of a system in order comes back from the trip to the CPU as it was if and only if its plain numbers, its code and tag lists and its number of contexts fit; the places and counts of its variables always do |
| ProcessTransfers.TripOfCoreIff | Kernel/src/syscall.c:3-6 | the same for any PCB whose stack is in order, wherever it is |
| ProcessTransfers.ContextFitsIff | Common/serial.c:549-577 | a context of a disciplined stack fits its fields if and only if its return position, place and variable names do |
| PcbBuffers.PackPcb | Common/serial.c:478-502 | the loops over a buffer write the encoding of the PCB and return its size |
| PcbBuffers.PackStack | Common/serial.c:549-563 | the stack's loop writes its encoding behind what is there |
| PcbBuffers.PackVars | Common/serial.c:565-577 | the variables' loop writes their encoding behind what is there |
| PcbBuffers.UnpackPcb | Common/serial.c:504-547 | the numbers in front and the loops over instructions, tags and stack, all read by the format interpreter, give what the decoder gives on any bytes |
| PcbBuffers.UnpackTag | Common/serial.c:535-541 | the format "64s" and the label behind it give what the decoder of a tag gives: a name cut to 63 bytes, nothing for one of exactly 64, and the position moved by the length of the name as it was unpacked |
| PcbBuffers.UnpackTags | Common/serial.c:533-543 | the loop over the tags |
| PcbBuffers.UnpackCode | Common/serial.c:526-532 | the loop over the instructions |
| PcbBuffers.UnpackVar | Common/serial.c:608-614 | one variable, read by the format interpreter |
| PcbBuffers.UnpackVars | Common/serial.c:601-615 | the count and the loop over a list of variables read what the decoder reads |
| PcbBuffers.UnpackContext | Common/serial.c:587-597 | a context with its two lists of variables, its position and its place |
| PcbBuffers.UnpackStack | Common/serial.c:579-599 | the count and the loop over the contexts read what the decoder reads |
| Float754.NormalFormUnique | Common/serial.c:38-41 | both loops end and find the only mantissa and exponent of a positive number |
| Float754.PackUnpackWord | Common/serial.c:24-80 | packing what a word unpacks to gives the word back, for every total and exponent width |
| Float754.OnesArePacked | Common/serial.c:24-51 | 1.0 is the bias in the exponent field and nothing else, -1.0 the same with the sign bit |
| Float754.PackIsZeroIff | Common/serial.c:30-50 | the word is 0 if and only if the number is positive, its biased exponent is 0 and its scaled fraction is below 1 |
| Float754.ErrorBelowUlpIff | Common/serial.c:24-80 | unpacking a packed number in range is off by less than one unit in the last place if and only if it does not vanish so and not both its scaled fraction reaches the hidden bit and its biased exponent is odd |
| Float754.CarryIsLost | Common/serial.c:43-50 | in the 16-bit format 1.9998 comes back as 1 |
| Float754.SmallPowerVanishes | Common/serial.c:30-60 | in the 16-bit format the smallest power of two in range comes back as 0 |
| Float754.Pack754 | Common/serial.c:24-51 | the loops compute the word of the model |
| Float754.Unpack754 | Common/serial.c:56-80 | the loops compute the value of the model |
| Framing.ReadsAllIff | Common/socket.c:145-162 | a read of available bytes is complete however they arrive if and only if it is not one of 1024 bytes with a NUL before the last |
| Framing.ReadsShortIff | Common/socket.c:145-162 | a connection closed early is reported as dropped, with all that came, over every network if and only if the read is not one of 1024 bytes with a NUL among those that came |
| Framing.HeaderBack | Common/protocol.c:24-39 | a header takes seven bytes and comes back with its length reduced to 32 bits |
| Framing.HeaderLayout | Common/protocol.c:24-28 | sender, program, opcode and the length, most significant byte first |
| Framing.ClosedInHeader | Common/protocol.c:30-39 | a connection that closes before a header is whole gives a packet of zeroes, with the undefined opcode, no payload and nothing left |
| Framing.ClosedInPayload | Common/protocol.c:61-70 | one that closes in the payload gives the whole header and what came |
| Framing.ClosingIsNoticedIff | Common/protocol.c:30-70 | closing after some bytes of a packet shows in the opcode if and only if it happens in the header or the opcode was undefined anyway |
| Framing.PacketBackIff | Common/protocol.c:55-70 | a packet, whatever follows it, is received as sent over every network if and only if its payload has less than 2^32 bytes, its opcode is defined or its payload empty, and no NUL can cut its payload short |
| Framing.PacketsBackIff | Common/protocol.c:55-70 | a whole sequence of packets is received as sent, however the stream is cut, if and only if each is such |
| Framing.Connection.SendAll | Common/socket.c:117-127 | every byte is sent once and in order, however many turns it takes |
| Framing.Connection.ReceiveMore | Common/socket.c:149-158 | one turn stores the next bytes behind the earlier ones and knows whether to stop |
| Framing.Connection.ReceiveAll | Common/socket.c:145-162 | the loop stores a prefix of the stream and consumes exactly it |
| Framing.Connection.SendHeader | Common/protocol.c:24-28 | the header's bytes go out |
| Framing.Connection.SendPacket | Common/protocol.c:55-59 | header and payload go out behind each other |
| Framing.Connection.ReceiveHeader | Common/protocol.c:30-39 | the header received, or all zeroes when the connection dropped before seven bytes |
| Framing.Connection.ReceivePacket | Common/protocol.c:61-70 | the packet received, without a payload when the opcode is undefined, as it is when the connection dropped before a header was whole |
| Caches.CreatedIsOk | Memoria/src/cache.c:19-37 | a new cache is empty, its slots tile the block and no quota is exceeded |
| Caches.WriteKeepsCache | Memoria/src/cache.c:39-73 | a write keeps pages unique, quotas respected and slots a tiling of the block |
| Caches.ReadKeepsCache | Memoria/src/cache.c:75-95 | so does a read |
| Caches.WriteHolds | Memoria/src/cache.c:39-73 | what was written is what the next read returns, at most one other page is lost, all others are as before; a refused write changes nothing |
| Caches.WriteRefusedIff | Memoria/src/cache.c:55-57 | a write is refused if and only if the page is absent and its process has used up its quota |
| Caches.VictimIff | Memoria/src/cache.c:55-65 | a write pushes a page out if and only if its own page is absent, its process may hold one more and no entry is empty |
| Caches.FlushForgets | Memoria/src/cache.c:97-105 | emptying loses every page and gives every process its quota back |
| Caches.ReadHolds | Memoria/src/cache.c:75-95 | a read returns the page held and changes no page |
| Caches.RunsKeepCache | Memoria/src/cache.c:39-105 | over every run the cache stays in order and its entries stay sorted by their last read |
| Caches.VictimIsLeastRecentlyRead | Memoria/src/cache.c:61-64 | over every run the entry a write takes from a full cache is the one whose last read lies furthest back |
| Caches.VictimIsLeastRecentlyUsedIff | Memoria/src/cache.c:61-64 | over every run of a fresh cache the victim is the entry whose last use, read or write, lies furthest back if and only if every other entry was used after the victim was last written |
| Caches.LastWrittenGoesFirst | Memoria/src/cache.c:61-71 | three writes to a fresh cache of two entries leave the page written last as the next victim |
| Caches.WriteEvictsTheLastWritten | Memoria/src/cache.c:61-71 | in any full cache the page just written goes with the next write of a page that is absent |
| Caches.Cache.constructor | Memoria/src/cache.c:19-37 | an empty cache with one slot per entry |
| Caches.Cache.FindPage | Memoria/src/cache.c:50-53 | the first entry of the page and the number of entries of its process |
| Caches.Cache.FindEmpty | Memoria/src/cache.c:57-60 | the first empty entry |
| Caches.Cache.ChooseEntry | Memoria/src/cache.c:55-65 | the page's own entry, else an empty one, else the first, if the quota allows |
| Caches.Cache.WritePage | Memoria/src/cache.c:39-73 | entry and bytes change in place as the model says |
| Caches.Cache.ReadPage | Memoria/src/cache.c:75-95 | the entry moves to the end and its bytes are handed out |
| Caches.Cache.FlushPages | Memoria/src/cache.c:97-105 | every entry is emptied and keeps its slot |

## Left out

- `Memoria/src/hash_table.c` and `memlayer.c`: nothing depends on them beyond their creation.
- Searching a label by name (`CPU/src/CPU.c:345-355`): labels arrive resolved, -1 for one not found.
- Quantum expiry as pre-emption: the CPU reports it as the end of the program, and so does the model.
- The cache in front of main memory: the code shows no path between the two.
- Accesses that cross a page, and the last page of code that fills its pages exactly, beyond what `WriteStaysInsideIff` and `UploadStoresCode` say of them.
- Memory lifetime: freed nodes, PCBs and payloads; the PCBs of wait lists are values, not pointers.
- The fixed 1024-byte buffers of the callers: packed data is assumed to fit where the original assumes it.
- Errors of the operating system's send and recv other than a closed connection; select, threads, signals, delays, logging and configuration files.
- The consoles: the text console of the kernel with its own kill command, the program console, and changing the multiprogramming level while running.
- Messages of the kernel to consoles when a program ends, and of the kernel model itself to memory: they change no kernel state; what they release is in `KernelMemories`.
- Runs in which a CPU goes on after a wait or a signal (`CPU/src/CPU.c:492-532`) and its next call slips or doubles the program: such events are in the models and what one of them does is proved (`Keeps`, `KeepsOnce`, `BlockedCallerEnds`), but the theorems about runs end there.
- Accesses beyond the end of main memory: the original does not check for them, the model stops at `OutOfRange`.
- Pids above 255 and code that fills its last page exactly in runs of kernel and memory together: pids then share the one byte of a request, and the last page keeps old bytes.
- CPUs that disconnect, and a client number that belongs to nobody (`Kernel/src/server.c:97-116`).
- `mlist` operations that only call those modelled: copy, clone, extend, count, filter, map, any, all.
- Integer overflow of counters and of sizes beyond their fields, except where a field's width is modelled.
- Rounding of `long double`: the floating-point codec is modelled in exact real arithmetic.
- Kernels.Kernel.CreatePcb: consoles are a map from client number to pids, so the order in which they connected is not kept; no handler depends on it.
