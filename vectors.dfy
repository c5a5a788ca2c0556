/** The test vectors of wspace/vm_test.go, stated about the model. */
module Vectors {
  import opened Words
  import opened Errors
  import opened Wrappers
  import opened OpCodes
  import Scan
  import Machine

  // ---------------------------------------------------------------------
  // TestReadNum

  /** The rows of `TestReadNum`: running out of symbols is
      `ErrIncompleteCode` with `(0, 0)`, before the sign ... */
  lemma ReadNumNoSign(s: seq<byte>)
    requires s == "aaa"
    ensures Scan.ReadNum(s, 0) == (0, 0, Some(ErrIncompleteCode))
  {
    assert Scan.NextWhite(s, 2) == -1;
    assert Scan.NextWhite(s, 1) == -1;
    assert Scan.NextWhite(s, 0) == -1;
  }

  /** ... or before the LF that ends the digits. */
  lemma ReadNumUnterminated(s: seq<byte>)
    requires s == " \t "
    ensures Scan.ReadNum(s, 0) == (0, 0, Some(ErrIncompleteCode))
  {
    assert Scan.DigitsFrom(s, 3, 2) == (0, 0, Some(ErrIncompleteCode));
    assert Scan.DigitsFrom(s, 2, 1) == (0, 0, Some(ErrIncompleteCode));
    assert Scan.DigitsFrom(s, 1, 0) == (0, 0, Some(ErrIncompleteCode));
  }

  /** An LF sign reads as 0, and non-whitespace is skipped. */
  lemma ReadNumZeroSign(s: seq<byte>)
    requires s == "\n"
    ensures Scan.ReadNum(s, 0) == (0, 1, None)
  {
    assert Scan.NextWhite(s, 0) == 0;
  }

  lemma ReadNumSkipsComments(s: seq<byte>)
    requires s == "aa \n"
    ensures Scan.ReadNum(s, 0) == (0, 4, None)
  {
    assert Scan.NextWhite(s, 2) == 2;
    assert Scan.NextWhite(s, 1) == 2;
    assert Scan.NextWhite(s, 0) == 2;
    assert Scan.DigitsFrom(s, 3, 0) == (0, 4, None);
  }

  /** A number with no digits is 0, whatever its sign. */
  lemma ReadNumNoDigits(s: seq<byte>)
    requires s == "aa a\n"
    ensures Scan.ReadNum(s, 0) == (0, 5, None)
  {
    assert Scan.NextWhite(s, 2) == 2;
    assert Scan.NextWhite(s, 1) == 2;
    assert Scan.NextWhite(s, 0) == 2;
    assert Scan.NextWhite(s, 4) == 4;
    assert Scan.NextWhite(s, 3) == 4;
    assert Scan.DigitsFrom(s, 3, 0) == (0, 5, None);
  }

  lemma ReadNumNoDigitsNegative(s: seq<byte>)
    requires s == "\tabc\n"
    ensures Scan.ReadNum(s, 0) == (0, 5, None)
  {
    assert Scan.NextWhite(s, 0) == 0;
    assert Scan.NextWhite(s, 4) == 4;
    assert Scan.NextWhite(s, 3) == 4;
    assert Scan.NextWhite(s, 2) == 4;
    assert Scan.NextWhite(s, 1) == 4;
    assert Scan.DigitsFrom(s, 1, 0) == (0, 5, None);
  }

  /** A tab sign is negative. */
  lemma ReadNumNegative(s: seq<byte>)
    requires s == "aa\t\t  \n"
    ensures Scan.ReadNum(s, 0) == (-4, 7, None)
  {
    assert Scan.NextWhite(s, 2) == 2;
    assert Scan.NextWhite(s, 1) == 2;
    assert Scan.NextWhite(s, 0) == 2;
    assert Scan.DigitsFrom(s, 6, 4) == (4, 7, None);
    assert Scan.DigitsFrom(s, 5, 2) == (4, 7, None);
    assert Scan.DigitsFrom(s, 4, 1) == (4, 7, None);
    assert Scan.DigitsFrom(s, 3, 0) == (4, 7, None);
  }

  /** `" \t \t \n"` is 10, and it is what `EncodeNum` writes for 10. */
  lemma ReadNumTen()
    ensures Scan.EncodeNum(10) == " \t \t \n"
    ensures Scan.ReadNum(" \t \t \n", 0) == (10, 6, None)
  {
    var s: seq<byte> := " \t \t \n";
    assert Scan.Bits(10) == [TAB, SP, TAB, SP] by {
      assert Scan.Bits(5) == [TAB, SP, TAB] by {
        assert Scan.Bits(2) == [TAB, SP] by {
          assert Scan.Bits(1) == [TAB];
        }
      }
    }
    assert Scan.EncodeNum(10) == s;
    Scan.ReadNumEncodeNum(s, 0, 10);
    assert s[0..6] == s;
  }

  function Pow2(k: nat): nat {
    if k == 0 then 1 else 2 * Pow2(k - 1)
  }

  lemma {:induction false} Pow2Add(a: nat, b: nat)
    ensures Pow2(a + b) == Pow2(a) * Pow2(b)
  {
    if a > 0 {
      Pow2Add(a - 1, b);
      assert Pow2(a + b) == 2 * (Pow2(a - 1) * Pow2(b));
    }
  }

  /** 2^63, by repeated doubling of the exponent. */
  lemma Pow2At63()
    ensures Pow2(63) == MaxInt + 1
  {
    assert Pow2(1) == 2;
    Pow2Add(1, 1);
    Pow2Add(2, 1);
    Pow2Add(2, 2);
    Pow2Add(4, 3);
    Pow2Add(4, 4);
    Pow2Add(8, 7);
    Pow2Add(8, 8);
    Pow2Add(16, 15);
    Pow2Add(16, 16);
    Pow2Add(32, 31);
  }

  /** Zero digits double the accumulator. */
  lemma {:induction false} ZerosScale(n: nat, k: nat)
    ensures Scan.Accumulate(n, seq(k, _ => SP)) == n * Pow2(k)
    decreases k
  {
    if k > 0 {
      assert seq(k, _ => SP)[1..] == seq(k - 1, _ => SP);
      ZerosScale(2 * n, k - 1);
      assert 2 * n * Pow2(k - 1) == n * (2 * Pow2(k - 1));
    }
  }

  /** The last row of `TestReadNum`: a one followed by 63 zeros, 2^63,
      does not fit and is `ErrOverflow`. */
  lemma ReadNumOverflows()
    ensures Scan.ReadNum([SP, TAB] + seq(63, _ => SP) + [LF], 0) == (0, 0, Some(ErrOverflow))
  {
    var zeros: seq<byte> := seq(63, _ => SP);
    var bits := [TAB] + zeros;
    assert bits[1..] == zeros;
    ZerosScale(1, 63);
    Pow2At63();
    var s := [SP, TAB] + zeros + [LF];
    assert s == [SP] + bits + [LF];
    Scan.ReadNumOverflow(s, 0, SP, bits);
  }

  // ---------------------------------------------------------------------
  // TestStackManipulation, TestArithmetic, TestHeapAccess

  /** A machine as the tests set it up: a fresh one given a program and a
      stack, `PC` at `pc`. */
  function Setup(program: seq<OpCode>, stack: seq<int64>, pc: nat): Machine.State {
    Machine.Empty.(program := program, stack := stack, pc := pc)
  }

  function Op(cmd: Command, param: Param): OpCode {
    OpCode(cmd, param, 0, 0)
  }

  /** The stack after one step of `[op]` from `stack`, when it succeeds
      and moves on to `PC` 1. */
  predicate StepsTo(op: OpCode, stack: seq<int64>, want: seq<int64>, io: Machine.Ports, scan: Machine.Scanner) {
    var r := Machine.Step(Setup([op], stack, 0), io, scan);
    r.outcome == Machine.Ok && r.state.stack == want && r.state.pc == 1
  }

  lemma StackTable(io: Machine.Ports, scan: Machine.Scanner)
    ensures StepsTo(Op(Push, Number(1)), [], [1], io, scan)
    ensures StepsTo(Op(Dup, NoParam), [1, 2], [1, 2, 2], io, scan)
    ensures StepsTo(Op(Copy, Number(3)), [1, 2, 3, 4, 5], [1, 2, 3, 4, 5, 2], io, scan)
  {
  }

  lemma StackTableRest(io: Machine.Ports, scan: Machine.Scanner)
    ensures StepsTo(Op(Swap, NoParam), [1, 2, 3, 4], [1, 2, 4, 3], io, scan)
    ensures StepsTo(Op(Discard, NoParam), [1, 2, 3], [1, 2], io, scan)
    ensures StepsTo(Op(Slide, Number(2)), [1, 2, 3, 4, 5], [1, 2, 5], io, scan)
  {
  }

  lemma ArithTable(io: Machine.Ports, scan: Machine.Scanner)
    ensures StepsTo(Op(Add, NoParam), [1, 2, 3], [1, 5], io, scan)
    ensures StepsTo(Op(Sub, NoParam), [1, 2, 3], [1, -1], io, scan)
    ensures StepsTo(Op(Mul, NoParam), [1, 2, 3], [1, 6], io, scan)
  {
  }

  /** Division and remainder truncate toward zero. */
  lemma DivModTable(io: Machine.Ports, scan: Machine.Scanner)
    ensures StepsTo(Op(Div, NoParam), [5, 7, 3], [5, 2], io, scan)
    ensures StepsTo(Op(Mod, NoParam), [5, 7, 3], [5, 1], io, scan)
  {
  }

  /** `TestHeapAccess`: store 12345 at 10, then retrieve it. */
  lemma HeapTable(io: Machine.Ports, scan: Machine.Scanner)
    ensures Machine.Step(Setup([Op(Store, NoParam), Op(Retrieve, NoParam)], [10, 10, 12345], 0), io, scan).state
      == Setup([Op(Store, NoParam), Op(Retrieve, NoParam)], [10], 1).(heap := map[10 := 12345])
    ensures Machine.Step(Setup([Op(Store, NoParam), Op(Retrieve, NoParam)], [10], 1).(heap := map[10 := 12345]), io, scan)
      == Machine.StepResult(Setup([Op(Store, NoParam), Op(Retrieve, NoParam)], [12345], 2).(heap := map[10 := 12345]), io, Machine.Ok)
  {
  }

  // ---------------------------------------------------------------------
  // TestFlowControl

  const FlowProgram: seq<OpCode> := [
    Op(End, NoParam), Op(Ret, NoParam), Op(Jump, Label(" ")), Op(Call, Label("\t")),
    Op(JZero, Label(" ")), Op(JZero, Label(" ")), Op(JNeg, Label(" ")), Op(JNeg, Label(" "))]

  /** The flow test's machine: labels `" "` and `"\t"` mark instructions
      0 and 1. */
  function Flow(stack: seq<int64>, pc: nat, callStack: seq<nat>): Machine.State {
    Setup(FlowProgram, stack, pc).(labels := map[" " := 0, "\t" := 1], callStack := callStack)
  }

  lemma JumpVector(io: Machine.Ports, scan: Machine.Scanner)
    ensures Machine.Step(Flow([], 2, []), io, scan) == Machine.StepResult(Flow([], 0, []), io, Machine.Ok)
  {
  }

  /** `Call` pushes the next index and `Ret` comes back to it. */
  lemma CallRetVector(io: Machine.Ports, scan: Machine.Scanner)
    ensures Machine.Step(Flow([], 3, []), io, scan) == Machine.StepResult(Flow([], 1, [4]), io, Machine.Ok)
    ensures Machine.Step(Flow([], 1, [4]), io, scan) == Machine.StepResult(Flow([], 4, []), io, Machine.Ok)
  {
  }

  /** `JZero` falls through on -1 and jumps on 0, popping either way. */
  lemma JZeroVector(io: Machine.Ports, scan: Machine.Scanner)
    ensures Machine.Step(Flow([0, -1], 4, []), io, scan) == Machine.StepResult(Flow([0], 5, []), io, Machine.Ok)
    ensures Machine.Step(Flow([0], 5, []), io, scan) == Machine.StepResult(Flow([], 0, []), io, Machine.Ok)
  {
  }

  /** `JNeg` falls through on 0 and jumps on -1, popping either way. */
  lemma JNegVector(io: Machine.Ports, scan: Machine.Scanner)
    ensures Machine.Step(Flow([-1, 0], 6, []), io, scan) == Machine.StepResult(Flow([-1], 7, []), io, Machine.Ok)
    ensures Machine.Step(Flow([-1], 7, []), io, scan) == Machine.StepResult(Flow([], 0, []), io, Machine.Ok)
  {
  }

  /** `End` terminates without an error and leaves `PC` where it is. */
  lemma EndVector(io: Machine.Ports, scan: Machine.Scanner)
    ensures Machine.Step(Flow([], 0, []), io, scan) == Machine.StepResult(Flow([], 0, []).(terminated := true), io, Machine.Ok)
  {
  }

  // ---------------------------------------------------------------------
  // TestIO

  const ReadProgram: seq<OpCode> := [Op(ReadChar, NoParam), Op(Command.ReadNum, NoParam)]

  /** `ReadChar` stores the byte `'a'` at address 0. */
  lemma ReadCharVector(scan: Machine.Scanner)
    ensures Machine.Step(Setup(ReadProgram, [1, 0], 0), Machine.Ports("a123\n", [], true), scan)
      == Machine.StepResult(Setup(ReadProgram, [1], 1).(heap := map[0 := 97]), Machine.Ports("123\n", [], true), Machine.Ok)
  {
  }

  /** `ReadNum` stores at address 1 what the scanner reads from the line,
      here 123. */
  lemma ReadNumVector(scan: Machine.Scanner)
    requires scan("123\n") == Machine.Scanned(Some(123), 4)
    ensures Machine.Step(Setup(ReadProgram, [1], 1).(heap := map[0 := 97]), Machine.Ports("123\n", [], true), scan)
      == Machine.StepResult(Setup(ReadProgram, [], 2).(heap := map[0 := 97, 1 := 123]), Machine.Ports([], [], true), Machine.Ok)
  {
  }

  const WriteProgram: seq<OpCode> := [Op(WriteChar, NoParam), Op(WriteNum, NoParam)]

  /** `WriteChar` writes `'c'`. */
  lemma WriteCharVector(input: seq<byte>, scan: Machine.Scanner)
    ensures Machine.Step(Setup(WriteProgram, [123, 99], 0), Machine.Ports(input, [], true), scan)
      == Machine.StepResult(Setup(WriteProgram, [123], 1), Machine.Ports(input, "c", true), Machine.Ok)
  {
  }

  /** `WriteNum` then writes `123` in decimal. */
  lemma WriteNumVector(input: seq<byte>, scan: Machine.Scanner)
    ensures Machine.Step(Setup(WriteProgram, [123], 1), Machine.Ports(input, "c", true), scan)
      == Machine.StepResult(Setup(WriteProgram, [], 2), Machine.Ports(input, "c123", true), Machine.Ok)
  {
    assert Digits(1) == "1";
    assert Digits(12) == "12";
    assert Decimal(123) == "123";
    assert Machine.DecimalBytes(123) == "123";
  }
}
