/** The example of wspace/example_test.go: a program that prints "Hello!",
    loaded into a new machine in one segment and run to its `End`. */
module Example {
  import opened Words
  import opened Errors
  import opened Wrappers
  import opened OpCodes
  import Scan
  import Loader
  import Encoding
  import Machine
  import Wspace

  /** The source of the example, cut where its instructions meet: pushes
      of the letters' codes, `WriteChar`s (`Out`), one `Dup` (`Again`)
      and the final `End` (`Stop`).  Joined, they are the 84 bytes of the
      string literal the example loads. */
  const PushH: seq<byte> := "   \t  \t   \n"
  const PushE: seq<byte> := "   \t\t  \t \t\n"
  const PushL: seq<byte> := "   \t\t \t\t  \n"
  const PushO: seq<byte> := "   \t\t \t\t\t\t\n"
  const PushBang: seq<byte> := "   \t    \t\n"
  const Out: seq<byte> := "\t\n  "
  const Again: seq<byte> := " \n "
  const Stop: seq<byte> := "\n\n\n"

  const Pieces: seq<seq<byte>> := [PushH, Out, PushE, Out, PushL, Again, Out, Out, PushO, Out, PushBang, Out, Stop]
  const HelloCode: seq<byte> := Encoding.Join(Pieces)

  /** The instructions it is written with: push each letter and write it,
      duplicating the `l`, then stop. */
  const Hello: seq<Encoding.Instruction> := [
    Encoding.Instruction(Push, Number(72)), Encoding.Instruction(WriteChar, NoParam),
    Encoding.Instruction(Push, Number(101)), Encoding.Instruction(WriteChar, NoParam),
    Encoding.Instruction(Push, Number(108)), Encoding.Instruction(Dup, NoParam),
    Encoding.Instruction(WriteChar, NoParam), Encoding.Instruction(WriteChar, NoParam),
    Encoding.Instruction(Push, Number(111)), Encoding.Instruction(WriteChar, NoParam),
    Encoding.Instruction(Push, Number(33)), Encoding.Instruction(WriteChar, NoParam),
    Encoding.Instruction(End, NoParam)]

  /** The opcodes `Load` makes of it in segment 1, each at the offset of
      its first symbol. */
  const HelloProgram: seq<OpCode> := [
    OpCode(Push, Number(72), 1, 0), OpCode(WriteChar, NoParam, 1, 11),
    OpCode(Push, Number(101), 1, 15), OpCode(WriteChar, NoParam, 1, 26),
    OpCode(Push, Number(108), 1, 30), OpCode(Dup, NoParam, 1, 41),
    OpCode(WriteChar, NoParam, 1, 44), OpCode(WriteChar, NoParam, 1, 48),
    OpCode(Push, Number(111), 1, 52), OpCode(WriteChar, NoParam, 1, 63),
    OpCode(Push, Number(33), 1, 67), OpCode(WriteChar, NoParam, 1, 77),
    OpCode(End, NoParam, 1, 81)]

  // ---------------------------------------------------------------------
  // Loading

  /** One binary digit more: the digits of `m` are those of `m / 2`
      followed by its lowest digit. */
  lemma BitsSnoc(m: nat, high: seq<byte>, low: byte)
    requires m > 0 && Scan.Bits(m / 2) == high && low == (if m % 2 == 1 then TAB else SP)
    ensures Scan.Bits(m) == high + [low]
  {
  }

  /** `Push 72` ('H') is written `PushH`: binary 1001000, digit by digit. */
  lemma Push72()
    ensures Encoding.Encode(Push, Number(72)) == PushH
  {
    BitsSnoc(1, [], TAB);
    BitsSnoc(2, [TAB], SP);
    BitsSnoc(4, [TAB, SP], SP);
    BitsSnoc(9, [TAB, SP, SP], TAB);
    BitsSnoc(18, [TAB, SP, SP, TAB], SP);
    BitsSnoc(36, [TAB, SP, SP, TAB, SP], SP);
    BitsSnoc(72, [TAB, SP, SP, TAB, SP, SP], SP);
  }

  /** `Push 101` ('e') is written `PushE`: binary 1100101. */
  lemma Push101()
    ensures Encoding.Encode(Push, Number(101)) == PushE
  {
    BitsSnoc(1, [], TAB);
    BitsSnoc(3, [TAB], TAB);
    BitsSnoc(6, [TAB, TAB], SP);
    BitsSnoc(12, [TAB, TAB, SP], SP);
    BitsSnoc(25, [TAB, TAB, SP, SP], TAB);
    BitsSnoc(50, [TAB, TAB, SP, SP, TAB], SP);
    BitsSnoc(101, [TAB, TAB, SP, SP, TAB, SP], TAB);
  }

  /** `Push 108` ('l') is written `PushL`: binary 1101100. */
  lemma Push108()
    ensures Encoding.Encode(Push, Number(108)) == PushL
  {
    BitsSnoc(1, [], TAB);
    BitsSnoc(3, [TAB], TAB);
    BitsSnoc(6, [TAB, TAB], SP);
    BitsSnoc(13, [TAB, TAB, SP], TAB);
    BitsSnoc(27, [TAB, TAB, SP, TAB], TAB);
    BitsSnoc(54, [TAB, TAB, SP, TAB, TAB], SP);
    BitsSnoc(108, [TAB, TAB, SP, TAB, TAB, SP], SP);
  }

  /** `Push 111` ('o') is written `PushO`: binary 1101111. */
  lemma Push111()
    ensures Encoding.Encode(Push, Number(111)) == PushO
  {
    BitsSnoc(1, [], TAB);
    BitsSnoc(3, [TAB], TAB);
    BitsSnoc(6, [TAB, TAB], SP);
    BitsSnoc(13, [TAB, TAB, SP], TAB);
    BitsSnoc(27, [TAB, TAB, SP, TAB], TAB);
    BitsSnoc(55, [TAB, TAB, SP, TAB, TAB], TAB);
    BitsSnoc(111, [TAB, TAB, SP, TAB, TAB, TAB], TAB);
  }

  /** `Push 33` ('!') is written `PushBang`: binary 100001. */
  lemma Push33()
    ensures Encoding.Encode(Push, Number(33)) == PushBang
  {
    BitsSnoc(1, [], TAB);
    BitsSnoc(2, [TAB], SP);
    BitsSnoc(4, [TAB, SP], SP);
    BitsSnoc(8, [TAB, SP, SP], SP);
    BitsSnoc(16, [TAB, SP, SP, SP], SP);
    BitsSnoc(33, [TAB, SP, SP, SP, SP], TAB);
  }

  /** The commands without parameter are written as their prefix alone. */
  lemma WriteCharBytes()
    ensures Encoding.Encode(WriteChar, NoParam) == Out
  {
  }

  lemma DupBytes()
    ensures Encoding.Encode(Dup, NoParam) == Again
  {
  }

  lemma EndBytes()
    ensures Encoding.Encode(End, NoParam) == Stop
  {
  }

  /** The instructions that write "H" are encoded as their pieces. */
  lemma PiecesH(i: nat)
    requires i < 2
    ensures Encoding.Encode(Hello[i].cmd, Hello[i].param) == Pieces[i]
  {
    if i == 0 { Push72(); } else { WriteCharBytes(); }
  }

  /** So are those that write "e". */
  lemma PiecesE(i: nat)
    requires 2 <= i < 4
    ensures Encoding.Encode(Hello[i].cmd, Hello[i].param) == Pieces[i]
  {
    if i == 2 { Push101(); } else { WriteCharBytes(); }
  }

  /** So are those that write "ll". */
  lemma PiecesLl(i: nat)
    requires 4 <= i < 8
    ensures Encoding.Encode(Hello[i].cmd, Hello[i].param) == Pieces[i]
  {
    if i == 4 { Push108(); }
    else if i == 5 { DupBytes(); }
    else if i == 6 { WriteCharBytes(); }
    else { WriteCharBytes(); }
  }

  /** So are those that write "o!" and stop. */
  lemma PiecesEnd(i: nat)
    requires 8 <= i < |Hello|
    ensures Encoding.Encode(Hello[i].cmd, Hello[i].param) == Pieces[i]
  {
    if i == 8 { Push111(); }
    else if i == 9 { WriteCharBytes(); }
    else if i == 10 { Push33(); }
    else if i == 11 { WriteCharBytes(); }
    else { EndBytes(); }
  }

  /** Each instruction of `Hello` is encoded as its piece of the source. */
  lemma HelloPiece(i: nat)
    requires i < |Hello|
    ensures Encoding.Encode(Hello[i].cmd, Hello[i].param) == Pieces[i]
  {
    if i < 2 { PiecesH(i); } else if i < 4 { PiecesE(i); } else if i < 8 { PiecesLl(i); } else { PiecesEnd(i); }
  }

  /** The source is the encoding of those instructions. */
  lemma HelloEncoded()
    ensures Encoding.EncodeProgram(Hello) == HelloCode
  {
    forall i | 0 <= i < |Hello|
      ensures Encoding.Encode(Hello[i].cmd, Hello[i].param) == Pieces[i]
    {
      HelloPiece(i);
    }
    Encoding.EncodeJoin(Hello, Pieces);
  }

  /** Every instruction of `Hello` has an encoding, and none is a `Mark`. */
  lemma HelloPlain()
    ensures forall i :: 0 <= i < |Hello| ==> Hello[i].cmd != Mark && Encoding.Encodable(Hello[i].cmd, Hello[i].param)
  {
  }

  /** Each opcode of the program carries its instruction in segment 1. */
  lemma HelloOps()
    ensures forall i :: 0 <= i < |Hello| ==> HelloProgram[i] == OpCode(Hello[i].cmd, Hello[i].param, 1, HelloProgram[i].pos)
  {
  }

  /** Each opcode after the first sits just after the piece before it. */
  lemma HelloPositions()
    ensures forall i :: 0 <= i < |Hello| - 1 ==> HelloProgram[i + 1].pos == HelloProgram[i].pos + |Pieces[i]|
  {
  }

  /** The opcodes of `Hello` placed from offset 0 in segment 1. */
  lemma HelloPlaced()
    ensures Encoding.Placed(Hello, 1, 0) == HelloProgram
  {
    forall i | 0 <= i < |Hello|
      ensures Encoding.Encode(Hello[i].cmd, Hello[i].param) == Pieces[i]
    {
      HelloPiece(i);
    }
    HelloOps();
    HelloPositions();
    Encoding.PlacedOffsets(Hello, Pieces, 1, 0, HelloProgram);
  }

  /** `Load` on a new machine (segment 1) reads the example as its
      thirteen opcodes, defines no label and consumes all 84 bytes. */
  lemma LoadHello(code: seq<byte>)
    requires code == HelloCode
    ensures Loader.Load([], map[], 1, code) == Loader.LoadResult(HelloProgram, map[], |code|, None)
  {
    HelloPlain();
    HelloEncoded();
    HelloPlaced();
    Encoding.LoadPlain(Hello, 1, code, HelloProgram);
  }


  // ---------------------------------------------------------------------
  // Running

  /** A run whose next step succeeds goes on from that step's result. */
  lemma RunsOn(m: Machine.State, io: Machine.Ports, scan: Machine.Scanner, polls: nat, t: Machine.StepResult)
    requires !m.terminated && polls > 0
    requires Machine.Step(m, io, scan) == t && t.outcome == Machine.Ok
    ensures Machine.Run(m, io, scan, polls) == Machine.Run(t.state, t.ports, scan, polls - 1)
  {
    Machine.RunTurns(m, io, scan, polls);
  }

  /** `Push n` at `PC` pushes `n` and goes on. */
  lemma PushRuns(m: Machine.State, io: Machine.Ports, scan: Machine.Scanner, polls: nat, n: int64)
    requires !m.terminated && polls > 0 && m.pc < |m.program|
    requires m.program[m.pc].cmd == Push && m.program[m.pc].param == Number(n)
    ensures Machine.Run(m, io, scan, polls)
      == Machine.Run(m.(pc := m.pc + 1, stack := m.stack + [n]), io, scan, polls - 1)
  {
    RunsOn(m, io, scan, polls, Machine.StepResult(m.(pc := m.pc + 1, stack := m.stack + [n]), io, Machine.Ok));
  }

  /** `Dup` at `PC` pushes a copy of the top and goes on. */
  lemma DupRuns(m: Machine.State, io: Machine.Ports, scan: Machine.Scanner, polls: nat)
    requires !m.terminated && polls > 0 && m.pc < |m.program|
    requires m.program[m.pc].cmd == Dup && |m.stack| > 0
    ensures Machine.Run(m, io, scan, polls)
      == Machine.Run(m.(pc := m.pc + 1, stack := m.stack + [m.stack[|m.stack| - 1]]), io, scan, polls - 1)
  {
    RunsOn(m, io, scan, polls, Machine.StepResult(m.(pc := m.pc + 1, stack := m.stack + [m.stack[|m.stack| - 1]]), io, Machine.Ok));
  }

  /** `WriteChar` at `PC` pops the top, writes its low byte and goes on. */
  lemma WriteCharRuns(m: Machine.State, io: Machine.Ports, scan: Machine.Scanner, polls: nat)
    requires !m.terminated && polls > 0 && m.pc < |m.program|
    requires m.program[m.pc].cmd == WriteChar && |m.stack| > 0 && io.writable
    ensures Machine.Run(m, io, scan, polls)
      == Machine.Run(m.(pc := m.pc + 1, stack := m.stack[..|m.stack| - 1]),
                     io.(output := io.output + [Machine.LowByte(m.stack[|m.stack| - 1])]), scan, polls - 1)
  {
    RunsOn(m, io, scan, polls, Machine.StepResult(m.(pc := m.pc + 1, stack := m.stack[..|m.stack| - 1]),
      io.(output := io.output + [Machine.LowByte(m.stack[|m.stack| - 1])]), Machine.Ok));
  }

  /** `End` at `PC` terminates the machine, which ends the run. */
  lemma EndRuns(m: Machine.State, io: Machine.Ports, scan: Machine.Scanner, polls: nat)
    requires !m.terminated && polls > 0 && m.pc < |m.program|
    requires m.program[m.pc].cmd == End
    ensures Machine.Run(m, io, scan, polls) == Machine.StepResult(m.(terminated := true), io, Machine.Ok)
  {
    RunsOn(m, io, scan, polls, Machine.StepResult(m.(terminated := true), io, Machine.Ok));
  }

  /** The machine `Load` leaves, `PC` at `pc`, with `stack`. */
  function At(pc: nat, stack: seq<int64>): Machine.State {
    Machine.State(HelloProgram, map[], false, pc, stack, map[], [])
  }

  /** A `Push n` followed by a `WriteChar` writes the byte `n`. */
  lemma PrintsLetter(pc: nat, n: int64, input: seq<byte>, out: seq<byte>, scan: Machine.Scanner, polls: nat)
    requires pc + 1 < |HelloProgram| && polls >= 2
    requires HelloProgram[pc].cmd == Push && HelloProgram[pc].param == Number(n)
    requires HelloProgram[pc + 1].cmd == WriteChar
    ensures Machine.Run(At(pc, []), Machine.Ports(input, out, true), scan, polls)
      == Machine.Run(At(pc + 2, []), Machine.Ports(input, out + [Machine.LowByte(n)], true), scan, polls - 2)
  {
    var io := Machine.Ports(input, out, true);
    PushRuns(At(pc, []), io, scan, polls, n);
    assert At(pc, []).(pc := pc + 1, stack := [] + [n]) == At(pc + 1, [n]);
    WriteCharRuns(At(pc + 1, [n]), io, scan, polls - 1);
    assert At(pc + 1, [n]).(pc := pc + 2, stack := [n][..0]) == At(pc + 2, []);
  }

  /** A `Push n` followed by a `Dup` leaves two copies of `n`. */
  lemma PushesTwice(pc: nat, n: int64, io: Machine.Ports, scan: Machine.Scanner, polls: nat)
    requires pc + 1 < |HelloProgram| && polls >= 2
    requires HelloProgram[pc].cmd == Push && HelloProgram[pc].param == Number(n)
    requires HelloProgram[pc + 1].cmd == Dup
    ensures Machine.Run(At(pc, []), io, scan, polls) == Machine.Run(At(pc + 2, [n, n]), io, scan, polls - 2)
  {
    PushRuns(At(pc, []), io, scan, polls, n);
    assert At(pc, []).(pc := pc + 1, stack := [] + [n]) == At(pc + 1, [n]);
    DupRuns(At(pc + 1, [n]), io, scan, polls - 1);
    assert At(pc + 1, [n]).(pc := pc + 2, stack := [n] + [n]) == At(pc + 2, [n, n]);
  }

  /** Two `WriteChar`s on two copies of `n` write the byte `n` twice. */
  lemma WritesTwice(pc: nat, n: int64, input: seq<byte>, out: seq<byte>, scan: Machine.Scanner, polls: nat)
    requires pc + 1 < |HelloProgram| && polls >= 2
    requires HelloProgram[pc].cmd == WriteChar && HelloProgram[pc + 1].cmd == WriteChar
    ensures Machine.Run(At(pc, [n, n]), Machine.Ports(input, out, true), scan, polls)
      == Machine.Run(At(pc + 2, []), Machine.Ports(input, out + [Machine.LowByte(n), Machine.LowByte(n)], true), scan, polls - 2)
  {
    var io := Machine.Ports(input, out, true);
    WriteCharRuns(At(pc, [n, n]), io, scan, polls);
    assert At(pc, [n, n]).(pc := pc + 1, stack := [n, n][..1]) == At(pc + 1, [n]);
    var io' := io.(output := out + [Machine.LowByte(n)]);
    WriteCharRuns(At(pc + 1, [n]), io', scan, polls - 1);
    assert At(pc + 1, [n]).(pc := pc + 2, stack := [n][..0]) == At(pc + 2, []);
    assert out + [Machine.LowByte(n)] + [Machine.LowByte(n)] == out + [Machine.LowByte(n), Machine.LowByte(n)];
  }

  /** The letters of the example, as the bytes `WriteChar` writes. */
  lemma Letters()
    ensures Machine.LowByte(72) == 'H' && Machine.LowByte(101) == 'e' && Machine.LowByte(108) == 'l'
    ensures Machine.LowByte(111) == 'o' && Machine.LowByte(33) == '!'
  {
  }

  /** The output after each letter. */
  lemma HelloOutput()
    ensures [] + [Machine.LowByte(72)] == "H"
    ensures "H" + [Machine.LowByte(101)] == "He"
    ensures "He" + [Machine.LowByte(108), Machine.LowByte(108)] == "Hell"
    ensures "Hell" + [Machine.LowByte(111)] == "Hello"
    ensures "Hello" + [Machine.LowByte(33)] == "Hello!"
  {
    Letters();
  }

  /** The first four steps write "He". */
  lemma RunHe(input: seq<byte>, scan: Machine.Scanner, polls: nat)
    requires polls >= 4
    ensures Machine.Run(At(0, []), Machine.Ports(input, [], true), scan, polls)
      == Machine.Run(At(4, []), Machine.Ports(input, "He", true), scan, polls - 4)
  {
    RunH(input, scan, polls);
    HelloOutput();
    PrintsLetter(2, 101, input, "H", scan, polls - 2);
  }

  /** The first two write "H". */
  lemma RunH(input: seq<byte>, scan: Machine.Scanner, polls: nat)
    requires polls >= 2
    ensures Machine.Run(At(0, []), Machine.Ports(input, [], true), scan, polls)
      == Machine.Run(At(2, []), Machine.Ports(input, "H", true), scan, polls - 2)
  {
    HelloOutput();
    PrintsLetter(0, 72, input, [], scan, polls);
  }

  /** The next eight write "llo!". */
  lemma RunLlo(input: seq<byte>, scan: Machine.Scanner, polls: nat)
    requires polls >= 8
    ensures Machine.Run(At(4, []), Machine.Ports(input, "He", true), scan, polls)
      == Machine.Run(At(12, []), Machine.Ports(input, "Hello!", true), scan, polls - 8)
  {
    HelloOutput();
    PushesTwice(4, 108, Machine.Ports(input, "He", true), scan, polls);
    WritesTwice(6, 108, input, "He", scan, polls - 2);
    RunOBang(input, scan, polls - 4);
  }

  /** Four more write "o!". */
  lemma RunOBang(input: seq<byte>, scan: Machine.Scanner, polls: nat)
    requires polls >= 4
    ensures Machine.Run(At(8, []), Machine.Ports(input, "Hell", true), scan, polls)
      == Machine.Run(At(12, []), Machine.Ports(input, "Hello!", true), scan, polls - 4)
  {
    HelloOutput();
    PrintsLetter(8, 111, input, "Hell", scan, polls);
    PrintsLetter(10, 33, input, "Hello", scan, polls - 2);
  }

  /** Run with the context polled at least 13 times, the program writes
      "Hello!" and stops on its `End`, with nothing left on the stack and
      nothing read. */
  lemma RunHello(input: seq<byte>, scan: Machine.Scanner, polls: nat)
    requires polls >= 13
    ensures Machine.Run(At(0, []), Machine.Ports(input, [], true), scan, polls)
      == Machine.StepResult(At(12, []).(terminated := true), Machine.Ports(input, "Hello!", true), Machine.Ok)
  {
    RunHe(input, scan, polls);
    RunLlo(input, scan, polls - 4);
    EndRuns(At(12, []), Machine.Ports(input, "Hello!", true), scan, polls - 12);
  }

  /** `ExampleVM`: a new machine loads the example and runs it with a
      context that is not done before the program ends (the background
      context never is); it writes "Hello!", whatever the input. */
  method ExampleVM(input: seq<byte>, scan: Machine.Scanner, polls: nat) returns (output: seq<byte>, outcome: Machine.Outcome)
    requires polls >= 13
    ensures output == "Hello!" && outcome == Machine.Ok
  {
    var vm := new Wspace.VM.New();
    var seg, consumed, err := vm.Load(HelloCode);
    LoadHello(HelloCode);
    assert vm.State() == At(0, []);
    var io;
    io, outcome := vm.Run(Machine.Ports(input, [], true), scan, polls);
    RunHello(input, scan, polls);
    output := io.output;
  }
}
