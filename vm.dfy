/** The `VM` of wspace/vm.go: its fields, `New`, `Load`, `Step`, `Run` and
    `CurrentOpCode`, and the scanners `Load` uses, as imperative code proved
    to compute what the functions of modules `Scan`, `Loader` and `Machine`
    say. */
module Wspace {
  import opened Words
  import opened Errors
  import opened Wrappers
  import opened OpCodes
  import Scan
  import Loader
  import Machine

  // ---------------------------------------------------------------------
  // Scanners

  /** `findWhite(code[k:])`: the first whitespace byte of the tail and its
      offset in the tail, or `(0, -1)`. */
  method FindWhite(code: seq<byte>, k: nat) returns (c: byte, p: int)
    requires k <= |code|
    ensures (c, p) == Scan.FindWhite(code, k)
  {
    var i := k;
    while i < |code|
      invariant k <= i <= |code|
      invariant Scan.NextWhite(code, i) == Scan.NextWhite(code, k)
    {
      if Scan.IsWhite(code[i]) {
        return code[i], i - k;
      }
      i := i + 1;
    }
    return '\0', -1;
  }

  /** `read3code(code[k:])`: the first three whitespace symbols, gathered in
      a three-byte buffer, and the bytes read up to the third; `("", 0)`
      when there are fewer. */
  method Read3Code(code: seq<byte>, k: nat) returns (c3: seq<byte>, read: nat)
    requires k <= |code|
    ensures (c3, read) == Scan.Read3Code(code, k)
  {
    var r := new byte[3](_ => '\0');
    var cur := k;
    for i := 0 to 3
      invariant k <= cur <= |code|
      invariant Scan.ThreeFrom(code, cur, i, r[..i]) == Scan.ThreeFrom(code, k, 0, [])
    {
      var c, p := FindWhite(code, cur);
      if p < 0 {
        return [], 0;
      }
      r[i] := c;
      assert r[..i + 1] == r[..i] + [c];
      cur := cur + p + 1;
    }
    assert r[..] == r[..3];
    return r[..], cur - k;
  }

  /** `readNum(code[k:])`: a sign symbol, then binary digits up to an LF. */
  method ReadNum(code: seq<byte>, k: nat) returns (n: int64, read: nat, err: Option<Error>)
    requires k <= |code|
    ensures (n, read, err) == Scan.ReadNum(code, k)
  {
    var c, p := FindWhite(code, k);
    if p < 0 {
      return 0, 0, Some(ErrIncompleteCode);
    }
    if c == LF {
      return 0, p + 1, None;
    }
    var m, next, e := Digits(code, k + p + 1);
    if e.Some? {
      return 0, 0, e;
    }
    n := if c == TAB then -(m as int) else m;
    return n, next - k, None;
  }

  /** The digit loop of `readNum` from offset `start`: the magnitude and the
      offset just past the terminating LF. */
  method Digits(code: seq<byte>, start: nat) returns (m: nat, next: nat, err: Option<Error>)
    requires start <= |code|
    ensures (m, next, err) == Scan.DigitsFrom(code, start, 0)
  {
    var cur := start;
    m := 0;
    while true
      invariant cur <= |code| && m <= MaxInt
      invariant Scan.DigitsFrom(code, cur, m) == Scan.DigitsFrom(code, start, 0)
      decreases |code| - cur
    {
      var d, q := FindWhite(code, cur);
      if q < 0 {
        return 0, 0, Some(ErrIncompleteCode);
      }
      if d == LF {
        return m, cur + q + 1, None;
      }
      if m > Scan.HalfMaxInt {
        return 0, 0, Some(ErrOverflow);
      }
      Scan.DigitsStep(code, cur, m);
      cur := cur + q + 1;
      // `n <<= 1`, then `n |= 1` for a tab
      m := 2 * m + Scan.Bit(d);
    }
  }

  /** `readLabel(code[k:])`: the spaces and tabs up to an LF. */
  method ReadLabel(code: seq<byte>, k: nat) returns (l: seq<byte>, read: nat, err: Option<Error>)
    requires k <= |code|
    ensures (l, read, err) == Scan.ReadLabel(code, k)
  {
    l := [];
    var cur := k;
    while true
      invariant cur <= |code|
      invariant Scan.LabelFrom(code, cur, l) == Scan.LabelFrom(code, k, [])
      decreases |code| - cur
    {
      var c, p := FindWhite(code, cur);
      if p < 0 {
        return [], 0, Some(ErrIncompleteCode);
      }
      cur := cur + p + 1;
      if c == LF {
        return l, cur - k, None;
      }
      l := l + [c];
    }
  }

  // ---------------------------------------------------------------------
  // The instruction switch of `Load`

  /** The fourth symbol of an instruction, read at `at`: `sp`, `tab` and
      `lf` are what a space, a tab and an LF select, `NoCommand` meaning
      that symbol is invalid. */
  method Fourth(code: seq<byte>, at: nat, read: nat, sp: Command, tab: Command, lf: Command)
    returns (d: Loader.Decoded)
    requires at <= |code|
    ensures d == Loader.WithFourth(code, at, read, sp, tab, lf)
  {
    var c, p := FindWhite(code, at);
    Loader.FourthFound(code, at, read, sp, tab, lf);
    if p < 0 {
      return Loader.Bad(ErrIncompleteCode);
    }
    d := Loader.Pick(c, read + p + 1, sp, tab, lf);
  }

  /** A command whose number parameter is read at `at`. */
  method Numbered(cmd: Command, code: seq<byte>, at: nat, read: nat) returns (d: Loader.Decoded)
    requires at <= |code|
    ensures d == Loader.WithNumber(cmd, code, at, read)
  {
    var n, r, err := ReadNum(code, at);
    if err.Some? {
      return Loader.Bad(err.value);
    }
    return Loader.Instr(cmd, Number(n), read + r);
  }

  /** A command whose label parameter is read at `at`. */
  method Labelled(cmd: Command, code: seq<byte>, at: nat, read: nat) returns (d: Loader.Decoded)
    requires at <= |code|
    ensures d == Loader.WithLabel(cmd, code, at, read)
  {
    var l, r, err := ReadLabel(code, at);
    if err.Some? {
      return Loader.Bad(err.value);
    }
    return Loader.Instr(cmd, Label(l), read + r);
  }

  /** The `switch c3` of `Load` for the instruction whose first symbol is at
      `pos`, taken by the group its first symbol selects. */
  method DecodeAt(code: seq<byte>, pos: nat) returns (d: Loader.Decoded)
    requires pos <= |code|
    ensures d == Loader.Decode(code, pos)
  {
    var c3, read := Read3Code(code, pos);
    if read == 0 {
      return Loader.Bad(ErrIncompleteCode);
    }
    if c3[0] == SP {
      d := StackCases(code, pos, read, c3[1], c3[2]);
    } else if c3[0] == TAB {
      d := TabCases(code, pos, read, c3[1], c3[2]);
    } else if c3[0] == LF {
      d := FlowCases(code, pos, read, c3[1], c3[2]);
    } else {
      d := Loader.Bad(ErrInvalidCode);
    }
  }

  /** The cases of the `switch` that open with a space. */
  method StackCases(code: seq<byte>, pos: nat, read: nat, b: byte, c: byte) returns (d: Loader.Decoded)
    requires 3 <= read && pos + read <= |code|
    ensures d == Loader.StackGroup(code, pos, read, b, c)
  {
    match (b, c)
    case (' ', ' ') | (' ', '\t') =>
      // the third symbol is the sign of the number
      d := Numbered(Push, code, pos + read - 1, read - 1);
    case ('\n', ' ') => d := Loader.Instr(Dup, NoParam, read);
    case ('\t', ' ') => d := Numbered(Copy, code, pos + read, read);
    case ('\n', '\t') => d := Loader.Instr(Swap, NoParam, read);
    case ('\n', '\n') => d := Loader.Instr(Discard, NoParam, read);
    case ('\t', '\n') => d := Numbered(Slide, code, pos + read, read);
    case _ => d := Loader.Bad(ErrInvalidCode);
  }

  /** The cases of the `switch` that open with a tab. */
  method TabCases(code: seq<byte>, pos: nat, read: nat, b: byte, c: byte) returns (d: Loader.Decoded)
    requires 3 <= read && pos + read <= |code|
    ensures d == Loader.TabGroup(code, pos, read, b, c)
  {
    match (b, c)
    case (' ', ' ') => d := Fourth(code, pos + read, read, Add, Sub, Mul);
    case (' ', '\t') => d := Fourth(code, pos + read, read, Div, Mod, NoCommand);
    case ('\t', ' ') => d := Loader.Instr(Store, NoParam, read);
    case ('\t', '\t') => d := Loader.Instr(Retrieve, NoParam, read);
    case ('\n', ' ') => d := Fourth(code, pos + read, read, WriteChar, WriteNum, NoCommand);
    case ('\n', '\t') => d := Fourth(code, pos + read, read, ReadChar, Command.ReadNum, NoCommand);
    case _ => d := Loader.Bad(ErrInvalidCode);
  }

  /** The cases of the `switch` that open with an LF. */
  method FlowCases(code: seq<byte>, pos: nat, read: nat, b: byte, c: byte) returns (d: Loader.Decoded)
    requires 3 <= read && pos + read <= |code|
    ensures d == Loader.FlowGroup(code, pos, read, b, c)
  {
    match (b, c)
    case (' ', ' ') => d := Labelled(Mark, code, pos + read, read);
    case (' ', '\t') => d := Labelled(Call, code, pos + read, read);
    case (' ', '\n') => d := Labelled(Jump, code, pos + read, read);
    case ('\t', ' ') => d := Labelled(JZero, code, pos + read, read);
    case ('\t', '\t') => d := Labelled(JNeg, code, pos + read, read);
    case ('\t', '\n') => d := Loader.Instr(Ret, NoParam, read);
    case ('\n', '\n') => d := Loader.Instr(End, NoParam, read);
    case _ => d := Loader.Bad(ErrInvalidCode);
  }

  // ---------------------------------------------------------------------
  // The machine

  /** The whitespace virtual machine: the loaded program and its label
      table, the registers `Step` works on, and the number of the next
      segment `Load` reads. */
  class VM {
    var Program: seq<OpCode>
    var Labels: map<seq<byte>, nat>
    var Terminated: bool
    var PC: nat
    var Stack: seq<int64>
    var Heap: map<int64, int64>
    var CallStack: seq<nat>
    var Seg: int

    /** The registers, as the value the functions of `Machine` work on. */
    function State(): Machine.State
      reads this
    {
      Machine.State(Program, Labels, Terminated, PC, Stack, Heap, CallStack)
    }

    /** `New`: nothing loaded, empty stack and heap, segment 1 next. */
    constructor New()
      ensures State() == Machine.Empty && Seg == 1
    {
      Program := [];
      Labels := map[];
      Terminated := false;
      PC := 0;
      Stack := [];
      Heap := map[];
      CallStack := [];
      Seg := 1;
    }

    /** The opcode at `PC`, or `nil` past the end of the program. */
    function CurrentOpCode(): (r: Option<OpCode>)
      reads this
      ensures r.None? <==> PC >= |Program|
      ensures r.Some? ==> r.value == Program[PC]
    {
      if PC >= |Program| then None else Some(Program[PC])
    }

    /** `appendOpCode`, `appendOpCodeNumber` and `appendOpCodeLabel`: one
        opcode of the current segment at the end of the program. */
    method AppendOpCode(cmd: Command, param: Param, pos: int)
      modifies this
      ensures Program == old(Program) + [OpCode(cmd, param, Seg, pos)]
      ensures Labels == old(Labels) && Seg == old(Seg)
      ensures Terminated == old(Terminated) && PC == old(PC) && Stack == old(Stack)
      ensures Heap == old(Heap) && CallStack == old(CallStack)
    {
      Program := Program + [OpCode(cmd, param, Seg, pos)];
    }

    /** One turn of the loop of `Load`, for the instruction whose first
        symbol is at `pos`: decode it and append its opcode, registering a
        `Mark`'s label first, and say where the next turn starts; or leave
        the program and labels alone and report why it cannot be loaded. */
    method LoadInstruction(code: seq<byte>, pos: nat) returns (next: nat, err: Option<Error>)
      requires pos < |code| && Scan.IsWhite(code[pos])
      modifies this
      ensures err.None? ==> pos < next <= |code|
      ensures err.None? ==>
        Loader.LoadAt(old(Program), old(Labels), Seg, code, pos) == Loader.LoadFrom(Program, Labels, Seg, code, next)
      ensures err.Some? ==>
        Loader.LoadAt(old(Program), old(Labels), Seg, code, pos) == Loader.LoadResult(Program, Labels, pos, err)
      ensures Seg == old(Seg) && State() == old(State()).(program := Program, labels := Labels)
    {
      var d := DecodeAt(code, pos);
      if d.Bad? || (d.cmd == Mark && d.param.l in Labels) {
        Loader.LoadAtStops(Program, Labels, Seg, code, pos);
        return pos, if d.Bad? then Some(d.err) else Some(ErrDuplicateLabel);
      }
      Loader.LoadAtAppends(Program, Labels, Seg, code, pos);
      if d.cmd == Mark {
        Labels := Labels[d.param.l := |Program|];
      }
      AppendOpCode(d.cmd, d.param, pos);
      return pos + d.read, None;
    }

    /** `Load(code)`: the segment number, the bytes consumed and the error,
        with the program and label table extended as `Loader.Load` says;
        the segment number goes up when anything was consumed. */
    method Load(code: seq<byte>) returns (seg: int, consumed: nat, err: Option<Error>)
      modifies this
      ensures seg == old(Seg)
      ensures Loader.LoadResult(Program, Labels, consumed, err) == Loader.Load(old(Program), old(Labels), old(Seg), code)
      ensures Seg == Loader.NextSeg(old(Seg), consumed)
      ensures State() == old(State()).(program := Program, labels := Labels)
    {
      seg := Seg;
      var pos: nat := 0;
      ghost var goal := Loader.LoadFrom(Program, Labels, Seg, code, 0);
      while pos < |code|
        invariant pos <= |code| && Seg == old(Seg)
        invariant Loader.LoadFrom(Program, Labels, Seg, code, pos) == goal
        invariant State() == old(State()).(program := Program, labels := Labels)
        decreases |code| - pos
      {
        var _, p := FindWhite(code, pos);
        ghost var at := Scan.NextWhite(code, pos);
        assert p == if at < 0 then -1 else at - pos;
        Loader.LoadFromSkips(Program, Labels, Seg, code, pos);
        if p < 0 {
          assert Loader.LoadResult(Program, Labels, |code|, None) == goal;
          Defer(|code|);
          return seg, |code|, None;
        }
        assert pos + p == at && Scan.IsWhite(code[at]);
        pos := pos + p;
        assert Loader.LoadAt(Program, Labels, Seg, code, pos) == goal;
        var next, e := LoadInstruction(code, pos);
        if e.Some? {
          Defer(pos);
          return seg, pos, e;
        }
        pos := next;
      }
      assert Loader.LoadResult(Program, Labels, pos, None) == goal;
      Defer(pos);
      return seg, pos, None;
    }

    /** The deferred increment of `Load`: `Seg` goes up when anything was
        consumed. */
    method Defer(consumed: nat)
      modifies this
      ensures Seg == Loader.NextSeg(old(Seg), consumed)
      ensures State() == old(State())
    {
      if consumed > 0 {
        Seg := Seg + 1;
      }
    }

    // -------------------------------------------------------------------
    // Step, one group of commands at a time

    /** `Push`, `Dup`, `Copy`, `Swap`, `Discard` and `Slide`. */
    method StackOp(op: OpCode, io: Machine.Ports) returns (outcome: Machine.Outcome)
      requires Machine.IsStackCmd(op.cmd)
      modifies this
      ensures Machine.StepResult(State(), io, outcome) == Machine.StackStep(old(State()), op, io)
      ensures Seg == old(Seg)
    {
      var n := |Stack|;
      match op.cmd {
        case Push =>
          if !op.param.Number? {
            return Machine.Panic;
          }
          Stack := Stack + [op.param.n];
        case Dup =>
          if n == 0 {
            Terminated := true;
            return Machine.Fail(ErrNotEnoughStack);
          }
          Stack := Stack + [Stack[n - 1]];
        case Copy =>
          if !op.param.Number? {
            return Machine.Panic;
          }
          var idx := op.param.n;
          if idx < 0 || idx >= n {
            Terminated := true;
            return Machine.Fail(ErrInvalidParam);
          }
          Stack := Stack + [Stack[n - idx - 1]];
        case Swap =>
          if n < 2 {
            Terminated := true;
            return Machine.Fail(ErrNotEnoughStack);
          }
          var last := n - 1;
          Stack := Stack[last := Stack[last - 1]][last - 1 := Stack[last]];
          assert Stack == old(Stack)[..n - 2] + [old(Stack)[n - 1], old(Stack)[n - 2]];
        case Discard =>
          if n == 0 {
            Terminated := true;
            return Machine.Fail(ErrNotEnoughStack);
          }
          Stack := Stack[..n - 1];
        case Slide =>
          if !op.param.Number? {
            return Machine.Panic;
          }
          var k := op.param.n;
          if k < 0 || k >= n - 1 {
            Terminated := true;
            return Machine.Fail(ErrInvalidParam);
          }
          var top := Stack[n - 1];
          Stack := Stack[..n - k];
          Stack := Stack[|Stack| - 1 := top];
          assert Stack == old(Stack)[..n - k - 1] + [top];
      }
      PC := PC + 1;
      return Machine.Ok;
    }

    /** `Add`, `Sub`, `Mul`, `Div` and `Mod`: `a op= b` on the second
        value from the top, then the top is dropped. */
    method ArithOp(op: OpCode, io: Machine.Ports) returns (outcome: Machine.Outcome)
      requires Machine.IsArithCmd(op.cmd)
      modifies this
      ensures Machine.StepResult(State(), io, outcome) == Machine.ArithStep(old(State()), op, io)
      ensures Seg == old(Seg)
    {
      if |Stack| < 2 {
        Terminated := true;
        return Machine.Fail(ErrNotEnoughStack);
      }
      var p := |Stack| - 1;
      var a, b := Stack[p - 1], Stack[p];
      var v: int64;
      match op.cmd {
        case Add => v := Wrap(a as int + b as int);
        case Sub => v := Wrap(a as int - b as int);
        case Mul => v := Wrap(a as int * b as int);
        case Div =>
          if b == 0 {
            return Machine.Panic;
          }
          v := Wrap(TruncDiv(a, b));
        case Mod =>
          if b == 0 {
            return Machine.Panic;
          }
          v := Wrap(TruncMod(a, b));
      }
      Stack := Stack[p - 1 := v];
      Stack := Stack[..p];
      PC := PC + 1;
      return Machine.Ok;
    }

    /** `Store` and `Retrieve`. */
    method HeapOp(op: OpCode, io: Machine.Ports) returns (outcome: Machine.Outcome)
      requires op.cmd in {Store, Retrieve}
      modifies this
      ensures Machine.StepResult(State(), io, outcome) == Machine.HeapStep(old(State()), op, io)
      ensures Seg == old(Seg)
    {
      var l := |Stack|;
      if op.cmd == Store {
        if l < 2 {
          Terminated := true;
          return Machine.Fail(ErrNotEnoughStack);
        }
        var v := Stack[l - 1];
        var a := Stack[l - 2];
        Stack := Stack[..l - 2];
        Heap := Heap[a := v];
      } else {
        if l == 0 {
          Terminated := true;
          return Machine.Fail(ErrNotEnoughStack);
        }
        var a := Stack[l - 1];
        // a missing key reads as the zero value
        var v := if a in Heap then Heap[a] else 0;
        Stack := Stack[l - 1 := v];
      }
      PC := PC + 1;
      return Machine.Ok;
    }

    /** `Call`, `Jump`, `JZero` and `JNeg`. */
    method JumpOp(op: OpCode, io: Machine.Ports) returns (outcome: Machine.Outcome)
      requires Machine.IsJumpCmd(op.cmd)
      modifies this
      ensures Machine.StepResult(State(), io, outcome) == Machine.JumpStep(old(State()), op, io)
      ensures Seg == old(Seg)
    {
      if !op.param.Label? {
        return Machine.Panic;
      }
      if op.param.l !in Labels {
        Terminated := true;
        return Machine.Fail(ErrUndefinedLabel);
      }
      var p := Labels[op.param.l];
      match op.cmd {
        case Call =>
          CallStack := CallStack + [PC + 1];
          PC := p;
        case Jump =>
          PC := p;
        case JZero =>
          if |Stack| == 0 {
            Terminated := true;
            return Machine.Fail(ErrNotEnoughStack);
          }
          var l := |Stack|;
          if Stack[l - 1] == 0 {
            PC := p;
          } else {
            PC := PC + 1;
          }
          Stack := Stack[..l - 1];
        case JNeg =>
          if |Stack| == 0 {
            Terminated := true;
            return Machine.Fail(ErrNotEnoughStack);
          }
          var l := |Stack|;
          if Stack[l - 1] < 0 {
            PC := p;
          } else {
            PC := PC + 1;
          }
          Stack := Stack[..l - 1];
      }
      return Machine.Ok;
    }

    /** `Mark`, `Ret` and `End`. */
    method FlowOp(op: OpCode, io: Machine.Ports) returns (outcome: Machine.Outcome)
      requires op.cmd in {Mark, Ret, End}
      modifies this
      ensures Machine.StepResult(State(), io, outcome) == Machine.FlowStep(old(State()), op, io)
      ensures Seg == old(Seg)
    {
      match op.cmd {
        case Mark =>
          PC := PC + 1;
        case Ret =>
          if |CallStack| == 0 {
            Terminated := true;
            return Machine.Fail(ErrEmptyCallStack);
          }
          var l := |CallStack|;
          PC := CallStack[l - 1];
          CallStack := CallStack[..l - 1];
        case End =>
          Terminated := true;
      }
      return Machine.Ok;
    }

    /** `WriteChar`, `WriteNum`, `ReadChar` and `ReadNum`, on the ports `io`;
        `scan` stands for `fmt.Fscanln`. */
    method IoOp(op: OpCode, io: Machine.Ports, scan: Machine.Scanner) returns (io': Machine.Ports, outcome: Machine.Outcome)
      requires Machine.IsIoCmd(op.cmd)
      modifies this
      ensures Machine.StepResult(State(), io', outcome) == Machine.IoStep(old(State()), op, io, scan)
      ensures Seg == old(Seg)
    {
      io' := io;
      if |Stack| == 0 {
        Terminated := true;
        return io', Machine.Fail(ErrNotEnoughStack);
      }
      var l := |Stack|;
      var top := Stack[l - 1];
      match op.cmd {
        case WriteChar =>
          if !io.writable {
            Terminated := true;
            return io', Machine.IoFail;
          }
          io' := io.(output := io.output + [Machine.LowByte(top)]);
        case WriteNum =>
          if !io.writable {
            Terminated := true;
            return io', Machine.IoFail;
          }
          io' := io.(output := io.output + Machine.DecimalBytes(top));
        case ReadChar =>
          if |io.input| == 0 {
            Terminated := true;
            return io', Machine.IoFail;
          }
          var c := io.input[0];
          io' := io.(input := io.input[1..]);
          Heap := Heap[top := c as int];
        case ReadNum =>
          var t := scan(io.input);
          io' := io.(input := if t.used <= |io.input| then io.input[t.used..] else []);
          if t.value.None? {
            Terminated := true;
            return io', Machine.IoFail;
          }
          Heap := Heap[top := t.value.value];
      }
      Stack := Stack[..l - 1];
      PC := PC + 1;
      return io', Machine.Ok;
    }

    /** `Step`: refused on a terminated machine and past the end of the
        program; otherwise the opcode at `PC`, as `Machine.Step` says. */
    method Step(io: Machine.Ports, scan: Machine.Scanner) returns (io': Machine.Ports, outcome: Machine.Outcome)
      modifies this
      ensures Machine.StepResult(State(), io', outcome) == Machine.Step(old(State()), io, scan)
      ensures Seg == old(Seg)
    {
      io' := io;
      if Terminated {
        return io', Machine.Fail(ErrTerminated);
      }
      if PC >= |Program| {
        return io', Machine.Fail(ErrNotLoaded);
      }
      var op := Program[PC];
      match op.cmd {
        case NoCommand =>
          Terminated := true;
          outcome := Machine.Fail(ErrUnknownOpCode);
        case Push | Dup | Copy | Swap | Discard | Slide =>
          outcome := StackOp(op, io);
        case Add | Sub | Mul | Div | Mod =>
          outcome := ArithOp(op, io);
        case Store | Retrieve =>
          outcome := HeapOp(op, io);
        case Call | Jump | JZero | JNeg =>
          outcome := JumpOp(op, io);
        case Mark | Ret | End =>
          outcome := FlowOp(op, io);
        case WriteChar | WriteNum | ReadChar | ReadNum =>
          io', outcome := IoOp(op, io, scan);
      }
    }

    /** `Run`: steps until the machine is terminated, polling the context
        before every step (it is done at poll `polls + 1`); running off the
        end of the program ends the run without an error. */
    method Run(io: Machine.Ports, scan: Machine.Scanner, polls: nat) returns (io': Machine.Ports, outcome: Machine.Outcome)
      modifies this
      ensures Machine.StepResult(State(), io', outcome) == Machine.Run(old(State()), io, scan, polls)
      ensures Seg == old(Seg)
    {
      io' := io;
      var left := polls;
      while !Terminated
        invariant Machine.Run(State(), io', scan, left) == Machine.Run(old(State()), io, scan, polls)
        invariant Seg == old(Seg)
        decreases left
      {
        if left == 0 {
          // <-ctx.Done()
          return io', Machine.Fail(ErrContextDone);
        }
        Machine.RunTurns(State(), io', scan, left);
        var o;
        io', o := Step(io', scan);
        if o == Machine.Fail(ErrNotLoaded) {
          break;
        }
        if !o.Ok? {
          return io', o;
        }
        left := left - 1;
      }
      return io', Machine.Ok;
    }
  }
}
