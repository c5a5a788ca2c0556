/** What one `Step` of the whitespace virtual machine does (wspace/vm.go,
    `Step`), and what `Run` does with a sequence of them, as functions on the
    machine's registers.  The `VM` class in vm.dfy is proved to follow them.

    The ports are values: the input still to be read, the output written so
    far and whether writing succeeds.  `fmt.Fscanln`, which `ReadNum` uses,
    is a `Scanner` given as a parameter. */
module Machine {
  import opened Words
  import opened Errors
  import opened Wrappers
  import opened OpCodes
  import Loader

  /** The fields of `VM` that `Step` reads or writes.  The top of the stack
      is its last element. */
  datatype State = State(
    program: seq<OpCode>,
    labels: map<seq<byte>, nat>,
    terminated: bool,
    pc: nat,
    stack: seq<int64>,
    heap: map<int64, int64>,
    callStack: seq<nat>)

  /** The input still to be read, the bytes written so far, and whether the
      writer accepts a write. */
  datatype Ports = Ports(input: seq<byte>, output: seq<byte>, writable: bool)

  /** What `fmt.Fscanln` makes of the input: an `int`, or a failure, and how
      many bytes it took either way. */
  datatype Scanned = Scanned(value: Option<int64>, used: nat)

  type Scanner = seq<byte> -> Scanned

  /** The error `Step` returns: `nil`, one of the package's errors, an error
      of the reader or writer, or a run-time panic (division by zero, or a
      parameter of the wrong type). */
  datatype Outcome = Ok | Fail(err: Error) | IoFail | Panic

  datatype StepResult = StepResult(state: State, ports: Ports, outcome: Outcome)

  /** `Load` builds `New`'s empty machine up; `Seg` lives in the `VM` class. */
  const Empty: State := State([], map[], false, 0, [], map[], [])

  // ---------------------------------------------------------------------
  // The shapes of a step's result

  /** A failing instruction sets `Terminated` and changes nothing else. */
  function Halt(m: State, io: Ports, e: Error): StepResult {
    StepResult(m.(terminated := true), io, Fail(e))
  }

  /** The instruction succeeds with a new stack and goes on with the next one. */
  function Next(m: State, io: Ports, stack: seq<int64>): StepResult {
    StepResult(m.(pc := m.pc + 1, stack := stack), io, Ok)
  }

  /** The step leaves things as a run-time panic would find them. */
  function Crash(m: State, io: Ports): StepResult {
    StepResult(m, io, Panic)
  }

  /** The error discipline every instruction keeps: the program, the labels
      and, unless the step succeeds, the registers other than `Terminated`
      are untouched; a failure sets `Terminated`; a panic changes nothing. */
  predicate Disciplined(m: State, io: Ports, r: StepResult) {
    && r.state.program == m.program
    && r.state.labels == m.labels
    && (r.outcome.Fail? ==> r.state == m.(terminated := true) && r.ports == io)
    && (r.outcome.IoFail? ==> r.state == m.(terminated := true) && r.ports.output == io.output)
    && (r.outcome.Panic? ==> r.state == m && r.ports == io)
  }

  // ---------------------------------------------------------------------
  // Stack manipulation

  predicate IsStackCmd(c: Command) {
    c in {Push, Dup, Copy, Swap, Discard, Slide}
  }

  /** `Push`, `Dup`, `Copy`, `Swap`, `Discard` and `Slide`. */
  function StackStep(m: State, op: OpCode, io: Ports): (r: StepResult)
    requires IsStackCmd(op.cmd)
    ensures Disciplined(m, io, r) && r.ports == io && !r.outcome.IoFail?
    ensures r.outcome.Fail? ==> r.outcome.err in {ErrNotEnoughStack, ErrInvalidParam}
    ensures r.outcome.Panic? ==> op.cmd in {Push, Copy, Slide} && !op.param.Number?
    ensures r.outcome.Ok? ==> r.state.pc == m.pc + 1 && r.state.heap == m.heap && r.state.callStack == m.callStack
  {
    var s := m.stack;
    match op.cmd
    case Push =>
      if !op.param.Number? then Crash(m, io) else Next(m, io, s + [op.param.n])
    case Dup =>
      if |s| == 0 then Halt(m, io, ErrNotEnoughStack) else Next(m, io, s + [s[|s| - 1]])
    case Copy =>
      if !op.param.Number? then Crash(m, io)
      else if op.param.n < 0 || op.param.n >= |s| then Halt(m, io, ErrInvalidParam)
      else Next(m, io, s + [s[|s| - op.param.n - 1]])
    case Swap =>
      if |s| < 2 then Halt(m, io, ErrNotEnoughStack)
      else Next(m, io, s[..|s| - 2] + [s[|s| - 1], s[|s| - 2]])
    case Discard =>
      if |s| == 0 then Halt(m, io, ErrNotEnoughStack) else Next(m, io, s[..|s| - 1])
    case Slide =>
      if !op.param.Number? then Crash(m, io)
      else if op.param.n < 0 || op.param.n >= |s| - 1 then Halt(m, io, ErrInvalidParam)
      else Next(m, io, s[..|s| - op.param.n - 1] + [s[|s| - 1]])
  }

  // ---------------------------------------------------------------------
  // Arithmetic

  predicate IsArithCmd(c: Command) {
    c in {Add, Sub, Mul, Div, Mod}
  }

  /** `a op b` on Go `int` (wspace/vm.go lines 290-334): wrapped to 64
      bits, division truncated. */
  function Arith(c: Command, a: int64, b: int64): int64
    requires IsArithCmd(c) && (c in {Div, Mod} ==> b != 0)
  {
    match c
    case Add => Wrap(a + b)
    case Sub => Wrap(a - b)
    case Mul => Wrap(a * b)
    case Div => Wrap(TruncDiv(a, b))
    case Mod => Wrap(TruncMod(a, b))
  }

  /** The arithmetic commands pop `b` (the top) and `a` and push `a op b`;
      dividing by zero panics. */
  function ArithStep(m: State, op: OpCode, io: Ports): (r: StepResult)
    requires IsArithCmd(op.cmd)
    ensures Disciplined(m, io, r) && r.ports == io && !r.outcome.IoFail?
    ensures r.outcome.Fail? ==> r.outcome.err == ErrNotEnoughStack && |m.stack| < 2
    ensures r.outcome.Panic? ==> op.cmd in {Div, Mod} && |m.stack| >= 2 && m.stack[|m.stack| - 1] == 0
    ensures r.outcome.Ok? ==>
      && |m.stack| >= 2 && (op.cmd in {Div, Mod} ==> m.stack[|m.stack| - 1] != 0)
      && r.state.stack == m.stack[..|m.stack| - 2] + [Arith(op.cmd, m.stack[|m.stack| - 2], m.stack[|m.stack| - 1])]
      && r.state.pc == m.pc + 1 && r.state.heap == m.heap && r.state.callStack == m.callStack
  {
    var s := m.stack;
    if |s| < 2 then Halt(m, io, ErrNotEnoughStack)
    else if op.cmd in {Div, Mod} && s[|s| - 1] == 0 then Crash(m, io)
    else Next(m, io, s[..|s| - 2] + [Arith(op.cmd, s[|s| - 2], s[|s| - 1])])
  }

  // ---------------------------------------------------------------------
  // Heap access

  /** The heap at `a` (wspace/vm.go lines 346-355); an address never
      stored to reads as 0, the zero value of Go's map lookup. */
  function HeapAt(heap: map<int64, int64>, a: int64): int64 {
    if a in heap then heap[a] else 0
  }

  /** `Store` pops a value, then an address, and stores the value there;
      `Retrieve` replaces the address on top with what is stored there. */
  function HeapStep(m: State, op: OpCode, io: Ports): (r: StepResult)
    requires op.cmd in {Store, Retrieve}
    ensures Disciplined(m, io, r) && r.ports == io && !r.outcome.IoFail? && !r.outcome.Panic?
    ensures r.outcome.Fail? ==> r.outcome.err == ErrNotEnoughStack
    ensures r.outcome.Ok? ==> r.state.pc == m.pc + 1 && r.state.callStack == m.callStack
  {
    var s := m.stack;
    if op.cmd == Store then
      if |s| < 2 then Halt(m, io, ErrNotEnoughStack)
      else
        var r := Next(m, io, s[..|s| - 2]);
        r.(state := r.state.(heap := m.heap[s[|s| - 2] := s[|s| - 1]]))
    else
      if |s| == 0 then Halt(m, io, ErrNotEnoughStack)
      else Next(m, io, s[..|s| - 1] + [HeapAt(m.heap, s[|s| - 1])])
  }

  // ---------------------------------------------------------------------
  // Flow control

  predicate IsJumpCmd(c: Command) {
    c in {Call, Jump, JZero, JNeg}
  }

  /** Sets `PC`, keeping the stack. */
  function Goto(m: State, io: Ports, pc: nat): StepResult {
    StepResult(m.(pc := pc), io, Ok)
  }

  /** `Call`, `Jump`, `JZero` and `JNeg` go to the `Mark` of their label,
      which must be defined (checked before the stack); `Call` first pushes
      the index of the next instruction; the conditional jumps always pop
      the value they test and otherwise go on with the next instruction. */
  function JumpStep(m: State, op: OpCode, io: Ports): (r: StepResult)
    requires IsJumpCmd(op.cmd)
    ensures Disciplined(m, io, r) && r.ports == io && !r.outcome.IoFail?
    ensures r.outcome.Fail? ==> r.outcome.err in {ErrUndefinedLabel, ErrNotEnoughStack}
    ensures r.outcome.Fail? && r.outcome.err == ErrNotEnoughStack ==> op.param.Label? && op.param.l in m.labels && |m.stack| == 0
    ensures r.outcome.Panic? <==> !op.param.Label?
    ensures r.outcome.Ok? ==> op.param.Label? && op.param.l in m.labels && r.state.heap == m.heap && r.state.terminated == m.terminated
    ensures r.outcome.Ok? ==> r.state.pc == m.labels[op.param.l] || (op.cmd in {JZero, JNeg} && r.state.pc == m.pc + 1)
  {
    if !op.param.Label? then Crash(m, io)
    else if op.param.l !in m.labels then Halt(m, io, ErrUndefinedLabel)
    else
      var target := m.labels[op.param.l];
      var s := m.stack;
      match op.cmd
      case Call =>
        var r := Goto(m, io, target);
        r.(state := r.state.(callStack := m.callStack + [m.pc + 1]))
      case Jump => Goto(m, io, target)
      case JZero =>
        if |s| == 0 then Halt(m, io, ErrNotEnoughStack)
        else
          var r := Goto(m, io, if s[|s| - 1] == 0 then target else m.pc + 1);
          r.(state := r.state.(stack := s[..|s| - 1]))
      case JNeg =>
        if |s| == 0 then Halt(m, io, ErrNotEnoughStack)
        else
          var r := Goto(m, io, if s[|s| - 1] < 0 then target else m.pc + 1);
          r.(state := r.state.(stack := s[..|s| - 1]))
  }

  /** `Mark` only moves on; `Ret` pops the call stack into `PC`; `End` stops
      the machine where it is, without an error. */
  function FlowStep(m: State, op: OpCode, io: Ports): (r: StepResult)
    requires op.cmd in {Mark, Ret, End}
    ensures Disciplined(m, io, r) && r.ports == io && !r.outcome.IoFail? && !r.outcome.Panic?
    ensures r.outcome.Fail? <==> op.cmd == Ret && |m.callStack| == 0
    ensures r.outcome.Fail? ==> r.outcome.err == ErrEmptyCallStack
    ensures r.outcome.Ok? ==> r.state.stack == m.stack && r.state.heap == m.heap
    ensures r.outcome.Ok? ==> (r.state.terminated <==> m.terminated || op.cmd == End)
  {
    match op.cmd
    case Mark => Next(m, io, m.stack)
    case Ret =>
      if |m.callStack| == 0 then Halt(m, io, ErrEmptyCallStack)
      else
        var r := Goto(m, io, m.callStack[|m.callStack| - 1]);
        r.(state := r.state.(callStack := m.callStack[..|m.callStack| - 1]))
    case End => StepResult(m.(terminated := true), io, Ok)
  }

  // ---------------------------------------------------------------------
  // I/O

  predicate IsIoCmd(c: Command) {
    c in {WriteChar, WriteNum, ReadChar, ReadNum}
  }

  /** The bytes `%d` writes for `n`. */
  function DecimalBytes(n: int): (t: seq<byte>)
    ensures |t| > 0
  {
    var d := Decimal(n);
    seq(|d|, i requires 0 <= i < |d| => d[i] as byte)
  }

  /** The byte `byte(v)` keeps of `v`: its low eight bits. */
  function LowByte(v: int64): (b: byte)
    ensures b as int == v % 256
  {
    (v % 256) as char
  }

  /** The I/O commands, each of which needs a value on the stack: the writes
      pop it and write it as a byte or in decimal; the reads pop an address
      and store there the byte read or the number scanned.  A writer or
      reader that fails stops the machine with its own error. */
  function IoStep(m: State, op: OpCode, io: Ports, scan: Scanner): (r: StepResult)
    requires IsIoCmd(op.cmd)
    ensures Disciplined(m, io, r) && !r.outcome.Panic?
    ensures r.outcome.Fail? ==> r.outcome.err == ErrNotEnoughStack && |m.stack| == 0
    ensures r.outcome.Ok? ==>
      && |m.stack| > 0 && r.state.stack == m.stack[..|m.stack| - 1]
      && r.state.pc == m.pc + 1 && r.state.callStack == m.callStack
    ensures op.cmd in {WriteChar, WriteNum} ==> r.ports.input == io.input && r.state.heap == m.heap
    ensures op.cmd in {ReadChar, ReadNum} ==> r.ports.output == io.output
  {
    var s := m.stack;
    if |s| == 0 then Halt(m, io, ErrNotEnoughStack)
    else
      var top := s[|s| - 1];
      match op.cmd
      case WriteChar =>
        if !io.writable then StepResult(m.(terminated := true), io, IoFail)
        else Next(m, io.(output := io.output + [LowByte(top)]), s[..|s| - 1])
      case WriteNum =>
        if !io.writable then StepResult(m.(terminated := true), io, IoFail)
        else Next(m, io.(output := io.output + DecimalBytes(top)), s[..|s| - 1])
      case ReadChar =>
        if |io.input| == 0 then StepResult(m.(terminated := true), io, IoFail)
        else
          var r := Next(m, io.(input := io.input[1..]), s[..|s| - 1]);
          r.(state := r.state.(heap := m.heap[top := io.input[0] as int]))
      case ReadNum =>
        var t := scan(io.input);
        var rest := if t.used <= |io.input| then io.input[t.used..] else [];
        if t.value.None? then StepResult(m.(terminated := true), io.(input := rest), IoFail)
        else
          var r := Next(m, io.(input := rest), s[..|s| - 1]);
          r.(state := r.state.(heap := m.heap[top := t.value.value]))
  }

  // ---------------------------------------------------------------------
  // Step

  /** The errors a step can report. */
  predicate IsStepError(e: Error) {
    e in {ErrTerminated, ErrNotLoaded, ErrNotEnoughStack, ErrInvalidParam,
          ErrUndefinedLabel, ErrEmptyCallStack, ErrUnknownOpCode}
  }

  /** The instruction `op`, dispatched on its command; the zero command is
      `ErrUnknownOpCode`. */
  function Exec(m: State, op: OpCode, io: Ports, scan: Scanner): (r: StepResult)
    ensures Disciplined(m, io, r)
    ensures r.outcome.Fail? ==> IsStepError(r.outcome.err) && r.outcome.err !in {ErrTerminated, ErrNotLoaded}
    ensures r.outcome.Fail? && r.outcome.err == ErrUnknownOpCode ==> op.cmd == NoCommand
  {
    match op.cmd
    case NoCommand => Halt(m, io, ErrUnknownOpCode)
    case Push | Dup | Copy | Swap | Discard | Slide => StackStep(m, op, io)
    case Add | Sub | Mul | Div | Mod => ArithStep(m, op, io)
    case Store | Retrieve => HeapStep(m, op, io)
    case Call | Jump | JZero | JNeg => JumpStep(m, op, io)
    case Mark | Ret | End => FlowStep(m, op, io)
    case WriteChar | WriteNum | ReadChar | ReadNum => IoStep(m, op, io, scan)
  }

  /** One step: refused on a terminated machine or past the end of the
      program, both without any change; otherwise the instruction at `PC`,
      which on failure sets `Terminated` and changes nothing else. */
  function Step(m: State, io: Ports, scan: Scanner): (r: StepResult)
    ensures r.state.program == m.program && r.state.labels == m.labels
    ensures r.outcome.Fail? ==> IsStepError(r.outcome.err)
    ensures r.outcome == Fail(ErrTerminated) <==> m.terminated
    ensures r.outcome == Fail(ErrNotLoaded) <==> !m.terminated && m.pc >= |m.program|
    ensures r.outcome in {Fail(ErrTerminated), Fail(ErrNotLoaded)} ==> r.state == m && r.ports == io
    ensures !m.terminated && m.pc < |m.program| ==> r == Exec(m, m.program[m.pc], io, scan)
  {
    if m.terminated then StepResult(m, io, Fail(ErrTerminated))
    else if m.pc >= |m.program| then StepResult(m, io, Fail(ErrNotLoaded))
    else Exec(m, m.program[m.pc], io, scan)
  }

  // ---------------------------------------------------------------------
  // Run

  /** How a run can end: with the program and labels it started with;
      never with `ErrNotLoaded` or `ErrTerminated`; with `nil` only on a
      terminated machine or past the end of the program; stopped by the
      context without `Terminated`, and by any other error with it. */
  predicate RunEnds(m: State, r: StepResult) {
    && r.state.program == m.program && r.state.labels == m.labels
    && r.outcome != Fail(ErrNotLoaded) && r.outcome != Fail(ErrTerminated)
    && (r.outcome.Ok? ==> r.state.terminated || r.state.pc >= |r.state.program|)
    && (r.outcome == Fail(ErrContextDone) ==> !r.state.terminated)
    && ((r.outcome.Fail? && r.outcome.err != ErrContextDone) || r.outcome.IoFail? ==> r.state.terminated)
  }

  /** `Run` on a context that is done at its poll number `polls + 1`: the
      loop goes on while the machine is not terminated. */
  function Run(m: State, io: Ports, scan: Scanner, polls: nat): (r: StepResult)
    ensures RunEnds(m, r)
    ensures m.terminated ==> r == StepResult(m, io, Ok)
    ensures !m.terminated && polls == 0 ==> r == StepResult(m, io, Fail(ErrContextDone))
    decreases polls, 2
  {
    if m.terminated then StepResult(m, io, Ok) else Poll(m, io, scan, polls)
  }

  /** The context is polled before every step; a done context stops the
      loop with `ErrContextDone` and no change. */
  function Poll(m: State, io: Ports, scan: Scanner, polls: nat): (r: StepResult)
    requires !m.terminated
    ensures RunEnds(m, r)
    ensures polls == 0 ==> r == StepResult(m, io, Fail(ErrContextDone))
    decreases polls, 1
  {
    if polls == 0 then StepResult(m, io, Fail(ErrContextDone)) else Turn(m, io, scan, polls)
  }

  /** A step: `ErrNotLoaded` ends the loop with `nil`, any other error ends
      it with that error, and success goes round again. */
  function Turn(m: State, io: Ports, scan: Scanner, polls: nat): (r: StepResult)
    requires !m.terminated && polls > 0
    ensures RunEnds(m, r)
    decreases polls, 0
  {
    var t := Step(m, io, scan);
    if t.outcome == Fail(ErrNotLoaded) then StepResult(t.state, t.ports, Ok)
    else if !t.outcome.Ok? then t
    else Run(t.state, t.ports, scan, polls - 1)
  }

  // ---------------------------------------------------------------------
  // What steps and runs guarantee

  /** Every opcode has the parameter its command needs. */
  predicate AllShaped(program: seq<OpCode>) {
    forall i :: 0 <= i < |program| ==> WellShaped(program[i])
  }

  /** On a program of well-shaped opcodes, which is what `Load` builds, no
      step reports `ErrUnknownOpCode`, and the only panic left is a division
      by zero. */
  lemma StepShaped(m: State, io: Ports, scan: Scanner)
    requires AllShaped(m.program)
    ensures Step(m, io, scan).outcome != Fail(ErrUnknownOpCode)
    ensures Step(m, io, scan).outcome.Panic? ==>
      && m.pc < |m.program| && m.program[m.pc].cmd in {Div, Mod}
      && |m.stack| >= 2 && m.stack[|m.stack| - 1] == 0
  {
    if !m.terminated && m.pc < |m.program| {
      assert WellShaped(m.program[m.pc]);
    }
  }

  /** Nor does a run on such a program end with `ErrUnknownOpCode`. */
  lemma {:induction false} RunShaped(m: State, io: Ports, scan: Scanner, polls: nat)
    requires AllShaped(m.program)
    ensures Run(m, io, scan, polls).outcome != Fail(ErrUnknownOpCode)
    decreases polls
  {
    if !m.terminated && polls > 0 {
      var outcome, next, nextIo := RunUnrolls(m, io, scan);
      if outcome.Ok? {
        RunShaped(next, nextIo, scan, polls - 1);
      }
    }
  }

  /** One turn of `Run`'s loop on a machine that is not terminated, for any
      context not yet done: the step's `outcome`, and when it succeeds, the
      machine `next` and ports `nextIo` the rest of the run starts from.  A
      failing step ends the run with its error, `nil` for `ErrNotLoaded`. */
  lemma RunUnrolls(m: State, io: Ports, scan: Scanner) returns (outcome: Outcome, next: State, nextIo: Ports)
    requires !m.terminated
    ensures outcome.Ok? ==> forall polls: nat :: polls > 0 ==> Run(m, io, scan, polls) == Run(next, nextIo, scan, polls - 1)
    ensures !outcome.Ok? ==> forall polls: nat :: polls > 0 ==>
      Run(m, io, scan, polls).outcome == if outcome == Fail(ErrNotLoaded) then Ok else outcome
    ensures outcome != Fail(ErrContextDone)
    ensures !outcome.Ok? && outcome != Fail(ErrNotLoaded) ==> m.pc < |m.program|
    ensures !outcome.Ok? && outcome != Fail(ErrNotLoaded) ==>
      forall polls: nat :: polls > 0 ==> Run(m, io, scan, polls).state.pc == m.pc
    ensures next.program == m.program && next.labels == m.labels
    ensures AllShaped(m.program) ==> outcome != Fail(ErrUnknownOpCode)
  {
    var t := Step(m, io, scan);
    outcome, next, nextIo := t.outcome, t.state, t.ports;
    if AllShaped(m.program) {
      StepShaped(m, io, scan);
    }
    forall polls: nat | polls > 0
      ensures Run(m, io, scan, polls) == Turn(m, io, scan, polls)
    {
      assert Run(m, io, scan, polls) == Poll(m, io, scan, polls);
    }
  }

  /** A run on a machine that is not terminated, with the context not yet
      done, is one turn of the loop. */
  lemma RunTurns(m: State, io: Ports, scan: Scanner, polls: nat)
    requires !m.terminated && polls > 0
    ensures Run(m, io, scan, polls) == Turn(m, io, scan, polls)
  {
    assert Run(m, io, scan, polls) == Poll(m, io, scan, polls);
  }

  /** A run that ends with an error of the program (anything but `nil` and
      the context's) stops with `PC` on the instruction that failed, so
      `CurrentOpCode` names it. */
  lemma {:induction false} RunFaultsAtPC(m: State, io: Ports, scan: Scanner, polls: nat)
    requires Run(m, io, scan, polls).outcome != Ok && Run(m, io, scan, polls).outcome != Fail(ErrContextDone)
    ensures Run(m, io, scan, polls).state.pc < |m.program|
    decreases polls
  {
    var outcome, next, nextIo := RunUnrolls(m, io, scan);
    if outcome.Ok? {
      RunFaultsAtPC(next, nextIo, scan, polls - 1);
    }
  }

  /** A run stopped by its context resumes exactly where it stopped:
      polling `a` times and then `b` more is polling `a + b` times. */
  lemma {:induction false} RunResumes(m: State, io: Ports, scan: Scanner, a: nat, b: nat)
    requires Run(m, io, scan, a).outcome == Fail(ErrContextDone)
    ensures Run(m, io, scan, a + b) == Run(Run(m, io, scan, a).state, Run(m, io, scan, a).ports, scan, b)
    decreases a
  {
    if a > 0 {
      var outcome, next, nextIo := RunUnrolls(m, io, scan);
      RunResumes(next, nextIo, scan, a - 1, b);
    }
  }

  /** With the label table `Load` keeps, a jump that is taken lands on the
      `Mark` of its label. */
  lemma JumpLandsOnMark(m: State, io: Ports, scan: Scanner)
    requires Loader.LabelsValid(m.program, m.labels)
    requires !m.terminated && m.pc < |m.program| && IsJumpCmd(m.program[m.pc].cmd)
    requires Step(m, io, scan).outcome.Ok?
    requires m.program[m.pc].cmd in {Call, Jump} || Step(m, io, scan).state.pc != m.pc + 1
    ensures Step(m, io, scan).state.pc < |m.program|
    ensures m.program[Step(m, io, scan).state.pc].cmd == Mark
    ensures m.program[Step(m, io, scan).state.pc].param == m.program[m.pc].param
  {
  }

  /** `Ret` undoes `Call`: with the call stack `Call` left, `Ret` goes back
      to the instruction after the `Call` and restores the call stack. */
  lemma CallThenRet(m: State, io: Ports, m': State, io': Ports, scan: Scanner)
    requires !m.terminated && m.pc < |m.program| && m.program[m.pc].cmd == Call
    requires Step(m, io, scan).outcome.Ok?
    requires !m'.terminated && m'.pc < |m'.program| && m'.program[m'.pc].cmd == Ret
    requires m'.callStack == Step(m, io, scan).state.callStack
    ensures Step(m', io', scan).outcome.Ok?
    ensures Step(m', io', scan).state.pc == m.pc + 1
    ensures Step(m', io', scan).state.callStack == m.callStack
  {
  }

  /** `Retrieve` reads back what `Store` stored: a value stored at `a` is
      what a later `Retrieve` of `a` puts on the stack. */
  lemma StoreThenRetrieve(m: State, io: Ports, m': State, io': Ports, scan: Scanner)
    requires !m.terminated && m.pc < |m.program| && m.program[m.pc].cmd == Store && |m.stack| >= 2
    requires !m'.terminated && m'.pc < |m'.program| && m'.program[m'.pc].cmd == Retrieve
    requires m'.heap == Step(m, io, scan).state.heap
    requires |m'.stack| > 0 && m'.stack[|m'.stack| - 1] == m.stack[|m.stack| - 2]
    ensures Step(m', io', scan).outcome.Ok?
    ensures Step(m', io', scan).state.stack == m'.stack[..|m'.stack| - 1] + [m.stack[|m.stack| - 1]]
  {
  }

  // ---------------------------------------------------------------------
  // What each command does to the stack, seen from its top

  /** `Push` puts its number on top; `Dup` puts a second copy of the top
      there and fails exactly on an empty stack; `Discard` removes the top
      and fails exactly on an empty stack. */
  lemma PushDupDiscard(m: State, op: OpCode, io: Ports)
    requires op.cmd in {Push, Dup, Discard} && (op.cmd == Push ==> op.param.Number?)
    ensures op.cmd == Push ==> StackStep(m, op, io).outcome.Ok?
    ensures op.cmd == Push ==> StackStep(m, op, io).state.stack == m.stack + [op.param.n]
    ensures op.cmd in {Dup, Discard} ==> (StackStep(m, op, io).outcome.Ok? <==> |m.stack| > 0)
    ensures op.cmd == Dup && |m.stack| > 0 ==>
      && |StackStep(m, op, io).state.stack| == |m.stack| + 1
      && StackStep(m, op, io).state.stack[..|m.stack|] == m.stack
      && StackStep(m, op, io).state.stack[|m.stack|] == m.stack[|m.stack| - 1]
    ensures op.cmd == Discard && |m.stack| > 0 ==> StackStep(m, op, io).state.stack + [m.stack[|m.stack| - 1]] == m.stack
  {
  }

  /** `Copy n` succeeds exactly for `0 <= n < len(stack)`, and then puts on
      top a copy of the item `n` places below the top, keeping the rest. */
  lemma CopyEffect(m: State, op: OpCode, io: Ports)
    requires op.cmd == Copy && op.param.Number?
    ensures StackStep(m, op, io).outcome.Ok? <==> 0 <= op.param.n < |m.stack|
    ensures StackStep(m, op, io).outcome.Fail? <==> !(0 <= op.param.n < |m.stack|)
    ensures StackStep(m, op, io).outcome.Fail? ==> StackStep(m, op, io).outcome.err == ErrInvalidParam
    ensures 0 <= op.param.n < |m.stack| ==>
      && |StackStep(m, op, io).state.stack| == |m.stack| + 1
      && StackStep(m, op, io).state.stack[..|m.stack|] == m.stack
      && StackStep(m, op, io).state.stack[|m.stack|] == m.stack[|m.stack| - 1 - op.param.n]
  {
  }

  /** `Swap` succeeds exactly with two items, and exchanges the top two. */
  lemma SwapEffect(m: State, op: OpCode, io: Ports)
    requires op.cmd == Swap
    ensures StackStep(m, op, io).outcome.Ok? <==> |m.stack| >= 2
    ensures |m.stack| >= 2 ==>
      && |StackStep(m, op, io).state.stack| == |m.stack|
      && StackStep(m, op, io).state.stack[..|m.stack| - 2] == m.stack[..|m.stack| - 2]
      && StackStep(m, op, io).state.stack[|m.stack| - 1] == m.stack[|m.stack| - 2]
      && StackStep(m, op, io).state.stack[|m.stack| - 2] == m.stack[|m.stack| - 1]
  {
  }

  /** `Slide n` succeeds exactly for `0 <= n < len(stack) - 1`, so it never
      slides away every item below the top, and then removes the `n` items
      under the top, which stays on top. */
  lemma SlideEffect(m: State, op: OpCode, io: Ports)
    requires op.cmd == Slide && op.param.Number?
    ensures StackStep(m, op, io).outcome.Ok? <==> 0 <= op.param.n < |m.stack| - 1
    ensures StackStep(m, op, io).outcome.Fail? ==> StackStep(m, op, io).outcome.err == ErrInvalidParam
    ensures 0 <= op.param.n < |m.stack| - 1 ==>
      && |StackStep(m, op, io).state.stack| == |m.stack| - op.param.n
      && StackStep(m, op, io).state.stack[..|m.stack| - op.param.n - 1] == m.stack[..|m.stack| - op.param.n - 1]
      && StackStep(m, op, io).state.stack[|m.stack| - op.param.n - 1] == m.stack[|m.stack| - 1]
  {
  }

  /** `Store` needs two items and stores the top at the address under it,
      popping both; `Retrieve` needs one and replaces the address on top
      with the value stored there, 0 for an address never stored to. */
  lemma HeapEffects(m: State, op: OpCode, io: Ports)
    requires op.cmd in {Store, Retrieve}
    ensures op.cmd == Store ==> (HeapStep(m, op, io).outcome.Ok? <==> |m.stack| >= 2)
    ensures op.cmd == Store && |m.stack| >= 2 ==>
      && HeapStep(m, op, io).state.stack == m.stack[..|m.stack| - 2]
      && m.stack[|m.stack| - 2] in HeapStep(m, op, io).state.heap
      && HeapStep(m, op, io).state.heap[m.stack[|m.stack| - 2]] == m.stack[|m.stack| - 1]
      && forall a :: a in m.heap && a != m.stack[|m.stack| - 2] ==>
           a in HeapStep(m, op, io).state.heap && HeapStep(m, op, io).state.heap[a] == m.heap[a]
    ensures op.cmd == Retrieve ==> (HeapStep(m, op, io).outcome.Ok? <==> |m.stack| > 0)
    ensures op.cmd == Retrieve && |m.stack| > 0 ==>
      && HeapStep(m, op, io).state.heap == m.heap
      && |HeapStep(m, op, io).state.stack| == |m.stack|
      && HeapStep(m, op, io).state.stack[..|m.stack| - 1] == m.stack[..|m.stack| - 1]
      && HeapStep(m, op, io).state.stack[|m.stack| - 1] == (if m.stack[|m.stack| - 1] in m.heap then m.heap[m.stack[|m.stack| - 1]] else 0)
  {
  }

  /** The conditional jumps: an undefined label is reported before an empty
      stack is; otherwise the top is always popped, and the jump is taken
      exactly when it is zero (`JZero`) or negative (`JNeg`). */
  lemma ConditionalEffect(m: State, op: OpCode, io: Ports)
    requires op.cmd in {JZero, JNeg} && op.param.Label?
    ensures op.param.l !in m.labels ==> JumpStep(m, op, io).outcome == Fail(ErrUndefinedLabel)
    ensures op.param.l in m.labels ==> (JumpStep(m, op, io).outcome.Ok? <==> |m.stack| > 0)
    ensures op.param.l in m.labels && |m.stack| > 0 ==>
      && JumpStep(m, op, io).state.stack == m.stack[..|m.stack| - 1]
      && JumpStep(m, op, io).state.callStack == m.callStack
      && JumpStep(m, op, io).state.pc ==
           if (op.cmd == JZero && m.stack[|m.stack| - 1] == 0) || (op.cmd == JNeg && m.stack[|m.stack| - 1] < 0)
           then m.labels[op.param.l] else m.pc + 1
  {
  }

  /** `Call` pushes the index of the next instruction on the call stack and
      goes to its label, keeping the stack; `Jump` only goes there. */
  lemma CallJumpEffect(m: State, op: OpCode, io: Ports)
    requires op.cmd in {Call, Jump} && op.param.Label? && op.param.l in m.labels
    ensures JumpStep(m, op, io).outcome.Ok?
    ensures JumpStep(m, op, io).state.pc == m.labels[op.param.l]
    ensures JumpStep(m, op, io).state.stack == m.stack
    ensures JumpStep(m, op, io).state.callStack == if op.cmd == Call then m.callStack + [m.pc + 1] else m.callStack
  {
  }

  /** `Mark` only moves on to the next instruction; `Ret` with a non-empty
      call stack pops its last entry into `PC`; `End` sets `Terminated`
      and changes nothing else, `PC` included. */
  lemma FlowEffect(m: State, op: OpCode, io: Ports)
    requires op.cmd in {Mark, Ret, End}
    ensures op.cmd == Mark ==> FlowStep(m, op, io).state == m.(pc := m.pc + 1)
    ensures op.cmd == Ret && |m.callStack| > 0 ==>
      FlowStep(m, op, io).state
        == m.(pc := m.callStack[|m.callStack| - 1], callStack := m.callStack[..|m.callStack| - 1])
    ensures op.cmd == End ==> FlowStep(m, op, io).state == m.(terminated := true)
  {
  }

  /** Only `End` sets `Terminated` on success: every other instruction that
      succeeds leaves it as it was. */
  lemma ExecKeepsRunning(m: State, op: OpCode, io: Ports, scan: Scanner)
    ensures Exec(m, op, io, scan).outcome.Ok? && op.cmd != End ==> Exec(m, op, io, scan).state.terminated == m.terminated
    ensures Exec(m, op, io, scan).outcome.Ok? && op.cmd == End ==> Exec(m, op, io, scan).state.terminated
  {
  }

  /** The I/O commands with a value on the stack, `top`:`WriteChar` writes
      the byte `byte(top)` and `WriteNum` the decimal digits of `top`, each
      popping it, unless the writer fails; `ReadChar` takes the next input
      byte and `ReadNum` the next scanned number, and stores it at the
      address `top`, popping it, unless the read fails.  The input a read
      uses up is gone either way. */
  lemma IoEffects(m: State, op: OpCode, io: Ports, scan: Scanner)
    requires IsIoCmd(op.cmd) && |m.stack| > 0
    ensures var r := IoStep(m, op, io, scan); var top := m.stack[|m.stack| - 1];
      op.cmd in {WriteChar, WriteNum} ==>
        && (r.outcome.Ok? <==> io.writable)
        && (r.outcome.IoFail? <==> !io.writable)
        && r.ports.output == (if !io.writable then io.output
                              else if op.cmd == WriteChar then io.output + [LowByte(top)]
                              else io.output + DecimalBytes(top))
    ensures var r := IoStep(m, op, io, scan); var top := m.stack[|m.stack| - 1];
      op.cmd == ReadChar ==>
        && (r.outcome.Ok? <==> |io.input| > 0)
        && (r.outcome.IoFail? <==> |io.input| == 0)
        && (|io.input| > 0 ==> r.ports.input == io.input[1..] && r.state.heap == m.heap[top := io.input[0] as int])
    ensures var r := IoStep(m, op, io, scan); var top := m.stack[|m.stack| - 1]; var t := scan(io.input);
      op.cmd == ReadNum ==>
        && (r.outcome.Ok? <==> t.value.Some?)
        && (r.outcome.IoFail? <==> t.value.None?)
        && r.ports.input == (if t.used <= |io.input| then io.input[t.used..] else [])
        && (t.value.Some? ==> r.state.heap == m.heap[top := t.value.value])
  {
  }

  /** Go's `/` and `%` on `int`: `a == b*q + r`, with the remainder smaller
      than the divisor and of the dividend's sign, except for the one
      quotient that does not fit, `MinInt / -1`, which wraps to `MinInt`. */
  lemma DivModTruncate(a: int64, b: int64)
    requires b != 0 && !(a == MinInt && b == -1)
    ensures a == b * Arith(Div, a, b) + Arith(Mod, a, b)
    ensures Abs(Arith(Mod, a, b)) < Abs(b)
    ensures a >= 0 ==> Arith(Mod, a, b) >= 0
    ensures a <= 0 ==> Arith(Mod, a, b) <= 0
  {
    TruncDivMod(a, b);
    TruncDivFits(a, b);
    assert Arith(Div, a, b) == TruncDiv(a, b);
    assert Arith(Mod, a, b) == TruncMod(a, b);
  }

  /** The quotient of two `int`s fits in an `int` except for `MinInt / -1`. */
  lemma TruncDivFits(a: int64, b: int64)
    requires b != 0 && !(a == MinInt && b == -1)
    ensures MinInt <= TruncDiv(a, b) <= MaxInt
  {
    QuotientBound(Abs(a), Abs(b));
  }

  /** A quotient of naturals is at most the dividend, and at most half of it
      for a divisor of 2 or more. */
  lemma QuotientBound(A: nat, B: nat)
    requires B >= 1
    ensures A / B <= A
    ensures B >= 2 ==> 2 * (A / B) <= A
  {
    EuclidNat(A, B);
    MulMono(A / B, 1, B);
    if B >= 2 {
      MulMono(A / B, 2, B);
    }
  }

  /** Multiplying by a larger factor gives a larger product. */
  lemma {:induction false} MulMono(q: nat, k: nat, B: nat)
    requires k <= B
    ensures k * q <= B * q
    decreases B - k
  {
    if k < B {
      MulMono(q, k + 1, B);
      assert (k + 1) * q == k * q + q;
    }
  }

  lemma DivOverflow()
    ensures Arith(Div, MinInt, -1) == MinInt
    ensures Arith(Mod, MinInt, -1) == 0
  {
  }
}
