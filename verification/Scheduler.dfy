/** The scheduler: a linked list of processes, newest first, and the one that is running. */
module Scheduler {
  import opened Words
  import opened RoundRobin

  datatype ProcessState = READY | RUNNING | SUSPENDED | TERMINATED

  const STACK_SIZE := 8192
  const REGISTERS := 14
  const REGISTERS_SIZE := 4 * REGISTERS

  /** The words at the stack pointer of a new process, in the order an interrupt saves them: data segment, the eight
      general registers, interrupt number, error code, and what the processor pushes. */
  function InitialFrame(entryPoint: Word): (frame: seq<Word>)
    ensures |frame| == REGISTERS
  {
    seq<Word>(REGISTERS, _ => 0)[11 := entryPoint][12 := 0x08][0 := 0x10][13 := 0x202]
  }

  /** The processor after an interrupt's return; general holds edi, esi, ebp, ebx, edx, ecx and eax. */
  datatype Cpu = Cpu(ds: Word, general: seq<Word>, eip: Word, cs: Word, eflags: Word, esp: Word)

  /** What the end of an interrupt's stub makes of the words at esp: one pop for the data segment, popa, which passes
      over the saved stack pointer, two words skipped, and the three that iret pops. */
  function Returned(frame: seq<Word>, esp: Word): Cpu
    requires |frame| == 14
  {
    Cpu(frame[0], frame[1..4] + frame[5..9], frame[11], frame[12], frame[13], (esp + 4 + 32 + 8 + 12) % 0x1_0000_0000)
  }

  /** The first return to a new process starts it at its entry point, in the kernel's segments, with interrupts on, the
      general registers 0 and its stack empty. */
  lemma StartsAtEntry(entryPoint: Word, stack: Word)
    ensures var cpu := Returned(InitialFrame(entryPoint), InitialStack(stack));
      && cpu.eip == entryPoint && cpu.cs == 0x08 && cpu.ds == 0x10 && And(cpu.eflags, 0x200) != 0
      && cpu.general == [0, 0, 0, 0, 0, 0, 0] && cpu.esp == (stack + 8192) % 0x1_0000_0000
  {
    assert Pow2(9) == 0x200;
    TestBit(0x202, 9);
    assert BitAt(0x202 / 2 / 2 / 2, 6);
  }

  class Process {
    const pid: Word
    const name: string
    const initialFrame: seq<Word>  // written where the first stack pointer points
    var state: ProcessState
    var stackPtr: Word
    var next: Process?

    constructor (pid: Word, name: string, frame: seq<Word>, stackPtr: Word, next: Process?)
      ensures this.pid == pid && this.name == name && this.initialFrame == frame
      ensures state == READY && this.stackPtr == stackPtr && this.next == next
    {
      this.pid, this.name, this.initialFrame := pid, name, frame;
      this.state, this.stackPtr, this.next := READY, stackPtr, next;
    }
  }

  /** The stack pointer of a process whose stack was allocated at the given address. */
  function InitialStack(stack: Word): Word {
    (stack + STACK_SIZE - REGISTERS_SIZE) % 0x1_0000_0000
  }

  /** Each process points to the one after it. */
  ghost predicate Linked(list: seq<Process>)
    reads set p | p in list
  {
    && (forall i: nat, j: nat {:trigger list[i].next, list[j]} :: j == i + 1 && j < |list| ==> list[i].next == list[j])
    && (list != [] ==> list[|list| - 1].next == null)
  }

  lemma NextOf(list: seq<Process>, i: nat)
    requires Linked(list) && i < |list|
    ensures list[i].next == if i + 1 < |list| then list[i + 1] else null
  {}

  lemma Prepended(list: seq<Process>, p: Process)
    requires Distinct(list) && Linked(list) && p !in list
    requires p.next == if list == [] then null else list[0]
    ensures Distinct([p] + list) && Linked([p] + list)
  {}

  twostate lemma StaysLinked(list: seq<Process>)
    requires old(Linked(list)) && forall p :: p in list ==> p.next == old(p.next)
    ensures Linked(list)
  {}

  class Scheduler {
    var processList: Process?
    var currentProcess: Process?
    var nextPid: Word
    ghost var list: seq<Process>
    ghost var current: nat
    ghost var stacks: map<Process, Word>

    /** The list hangs together, and stacks holds the stack pointers of its processes. */
    ghost predicate Structured()
      reads this
      reads set p | p in list
    {
      && Distinct(list)
      && processList == (if list == [] then null else list[0])
      && Linked(list)
      && (forall p :: p in list ==> p in stacks && stacks[p] == p.stackPtr)
      && (forall p :: p in stacks ==> p in list)
    }

    /** The given process, and no other, is in state RUNNING. */
    ghost predicate OnlyRuns(running: Process?)
      reads this
      reads set p | p in list
    {
      forall p :: p in list ==> p.state == if p == running then RUNNING else READY
    }

    ghost predicate Valid()
      reads this
      reads set p | p in list
    {
      && Structured()
      && OnlyRuns(currentProcess)
      && (currentProcess != null ==> current < |list| && list[current] == currentProcess)
    }

    /** Valid() makes stacks the stack pointers of the processes in the list. */
    ghost function View(): Queue<Process>
      reads this
    {
      Queue(list, current, stacks)
    }

    /** Once a process runs, the list and the running process are a queue of RoundRobin, and exactly one process
        of the list, the queue's running one, is in state RUNNING. */
    lemma ViewSound()
      requires Valid() && currentProcess != null
      ensures Sound(View())
      ensures Running(View()) in list && Running(View()).state == RUNNING
      ensures forall p :: p in list && p.state == RUNNING ==> p == Running(View())
    {}

    constructor ()
      ensures Valid() && currentProcess == null && list == []
    {
      processList, currentProcess, nextPid := null, null, 0;
      list, current, stacks := [], 0, map[];
    }

    /** stack is where the process's stack was allocated. */
    method AddProcess(name: string, entryPoint: Word, stack: Word) returns (proc: Process)
      requires Valid()
      modifies this
      ensures Valid() && fresh(proc) && currentProcess == old(currentProcess)
      ensures proc.pid == old(nextPid) && proc.name == name && proc.initialFrame == InitialFrame(entryPoint)
      ensures list == [proc] + old(list)
      ensures View() == Added(old(View()), proc, InitialStack(stack))
    {
      hide Distinct, Linked, InitialStack, InitialFrame;
      proc := new Process(nextPid, name, InitialFrame(entryPoint), InitialStack(stack), processList);
      nextPid := (nextPid + 1) % 0x1_0000_0000;
      processList := proc;
      Prepended(list, proc);
      list, current := [proc] + list, current + 1;
      stacks := stacks[proc := proc.stackPtr];
      assert OnlyRuns(currentProcess);
    }

    /** The kernel itself becomes process 0 and runs. */
    method Initialize(stack: Word)
      modifies this
      ensures Valid() && currentProcess != null && fresh(currentProcess) && currentProcess.pid == 0
      ensures list == [currentProcess] && View() == Queue(list, 0, map[list[0] := InitialStack(stack)])
      ensures Sound(View())
    {
      processList, currentProcess, nextPid := null, null, 0;
      list, current, stacks := [], 0, map[];
      var kernel := AddProcess("kernel", 0, stack);
      currentProcess := processList;
      currentProcess.state := RUNNING;
      current := 0;
    }

    /** The process after the running one, or the first. */
    method Successor() returns (next: Process)
      requires Valid() && currentProcess != null
      ensures next == list[if current + 1 < |list| then current + 1 else 0]
    {
      NextOf(list, current);
      var after := currentProcess.next;
      if after == null { return processList; }
      return after;
    }

    /** The running process keeps its stack pointer and becomes ready. */
    method PutAside(running: Process, stack: Word)
      requires Structured() && OnlyRuns(running) && running in list
      modifies this`stacks, running
      ensures Structured() && OnlyRuns(null) && stacks == old(stacks)[running := stack]
    {
      hide Distinct, Linked;
      running.stackPtr := stack;
      running.state := READY;
      stacks := stacks[running := stack];
      StaysLinked(list);
    }

    method Resume(next: Process) returns (stack: Word)
      requires Structured() && OnlyRuns(null) && next in list
      modifies this`currentProcess, next
      ensures Structured() && OnlyRuns(next) && currentProcess == next && stack == stacks[next]
    {
      hide Distinct, Linked;
      currentProcess := next;
      next.state := RUNNING;
      StaysLinked(list);
      return next.stackPtr;
    }

    method Schedule(currentStack: Word) returns (stack: Word)
      requires Valid()
      modifies this, set p | p in list
      ensures Valid() && list == old(list)
      ensures old(currentProcess) == null ==> stack == currentStack && unchanged(this) && unchanged(set p | p in list)
      ensures old(currentProcess) != null ==> View() == Switched(old(View()), currentStack)
      ensures old(currentProcess) != null ==>
        currentProcess == Running(View()) && stack == View().stacks[Running(View())]
    {
      hide Distinct, Linked;
      if currentProcess == null { return currentStack; }
      var next := Successor();
      PutAside(currentProcess, currentStack);
      current := if current + 1 < |list| then current + 1 else 0;
      stack := Resume(next);
    }
  }
}
