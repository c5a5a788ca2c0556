/** What `VM.Load` (wspace/vm.go) computes, as functions: the decoding of one
    instruction (the body of its `switch`) and the loop over the buffer that
    appends opcodes and fills the label table.  The method `VM.Load` in
    module `Wspace` runs the loop and is proved to agree with `LoadFrom`. */
module Loader {
  import opened Words
  import opened Errors
  import opened Wrappers
  import Scan
  import opened OpCodes

  /** One instruction: its command, its parameter and the number of bytes it
      spans from its first symbol; or the error that stops `Load`. */
  datatype Decoded = Instr(cmd: Command, param: Param, read: nat) | Bad(err: Error)

  /** The parameter fits the command, as `WellShaped` demands of an opcode. */
  predicate Shaped(cmd: Command, param: Param) {
    WellShaped(OpCode(cmd, param, 0, 0))
  }

  /** A command with a number parameter read at offset `at`; `read` bytes of
      the instruction precede `at`. */
  function WithNumber(cmd: Command, s: seq<byte>, at: nat, read: nat): (d: Decoded)
    requires at <= |s|
    ensures d.Instr? ==> d.read > read && at + d.read - read <= |s|
    ensures d.Instr? ==> d.cmd == cmd && d.param.Number?
    ensures d.Bad? ==> d.err in {ErrIncompleteCode, ErrOverflow}
  {
    var r := Scan.ReadNum(s, at);
    if r.2.Some? then Bad(r.2.value) else Instr(cmd, Number(r.0), read + r.1)
  }

  /** A command with a label parameter read at offset `at`. */
  function WithLabel(cmd: Command, s: seq<byte>, at: nat, read: nat): (d: Decoded)
    requires at <= |s|
    ensures d.Instr? ==> d.read > read && at + d.read - read <= |s|
    ensures d.Instr? ==> d.cmd == cmd && d.param.Label?
    ensures d.Bad? ==> d.err == ErrIncompleteCode
  {
    var r := Scan.ReadLabel(s, at);
    if r.2.Some? then Bad(r.2.value) else Instr(cmd, Label(r.0), read + r.1)
  }

  /** A command chosen by a fourth symbol read at offset `at`: `sp`, `tab`
      and `lf` are the commands for space, tab and LF, `NoCommand` meaning
      that symbol is invalid. */
  function WithFourth(s: seq<byte>, at: nat, read: nat, sp: Command, tab: Command, lf: Command): (d: Decoded)
    requires at <= |s|
    ensures d.Instr? ==> d.read > read && at + d.read - read <= |s|
    ensures d.Instr? ==> d.cmd in {sp, tab, lf} && d.cmd != NoCommand && d.param.NoParam?
    ensures d.Bad? ==> d.err in {ErrIncompleteCode, ErrInvalidCode}
  {
    var w := Scan.FindWhite(s, at);
    if w.1 < 0 then Bad(ErrIncompleteCode) else Pick(w.0, read + w.1 + 1, sp, tab, lf)
  }

  /** `WithFourth` picks by the symbol `findWhite` returns. */
  lemma FourthFound(s: seq<byte>, at: nat, read: nat, sp: Command, tab: Command, lf: Command)
    requires at <= |s|
    ensures var w := Scan.FindWhite(s, at);
      WithFourth(s, at, read, sp, tab, lf)
        == if w.1 < 0 then Bad(ErrIncompleteCode) else Pick(w.0, read + w.1 + 1, sp, tab, lf)
  {
  }

  /** The command a fourth symbol `c` selects among `sp`, `tab` and `lf`,
      the instruction spanning `read` bytes. */
  function Pick(c: byte, read: nat, sp: Command, tab: Command, lf: Command): (d: Decoded)
    ensures d.Instr? ==> d.read == read && d.cmd != NoCommand && d.param.NoParam?
    ensures d.Bad? ==> d.err == ErrInvalidCode
  {
    var cmd := if c == SP then sp else if c == TAB then tab else lf;
    if cmd == NoCommand then Bad(ErrInvalidCode) else Instr(cmd, NoParam, read)
  }

  /** Instructions whose first symbol is a space (stack manipulation);
      `b` and `c` are the second and third symbols. */
  function StackGroup(s: seq<byte>, pos: nat, read: nat, b: byte, c: byte): (d: Decoded)
    requires 3 <= read && pos + read <= |s|
    ensures d.Instr? ==> 3 <= d.read <= |s| - pos && Shaped(d.cmd, d.param)
    ensures d.Bad? ==> d.err in {ErrIncompleteCode, ErrInvalidCode, ErrOverflow}
  {
    if b == SP then
      if c == SP || c == TAB then WithNumber(Push, s, pos + read - 1, read - 1)
      else Bad(ErrInvalidCode)
    else if b == LF then
      if c == SP then Instr(Dup, NoParam, read)
      else if c == TAB then Instr(Swap, NoParam, read)
      else if c == LF then Instr(Discard, NoParam, read)
      else Bad(ErrInvalidCode)
    else if b == TAB then
      if c == SP then WithNumber(Copy, s, pos + read, read)
      else if c == LF then WithNumber(Slide, s, pos + read, read)
      else Bad(ErrInvalidCode)
    else Bad(ErrInvalidCode)
  }

  /** Instructions whose first symbol is a tab (arithmetic, heap and I/O). */
  function TabGroup(s: seq<byte>, pos: nat, read: nat, b: byte, c: byte): (d: Decoded)
    requires 3 <= read && pos + read <= |s|
    ensures d.Instr? ==> 3 <= d.read <= |s| - pos && Shaped(d.cmd, d.param)
    ensures d.Bad? ==> d.err in {ErrIncompleteCode, ErrInvalidCode, ErrOverflow}
  {
    match (b, c)
    case (' ', ' ') => WithFourth(s, pos + read, read, Add, Sub, Mul)
    case (' ', '\t') => WithFourth(s, pos + read, read, Div, Mod, NoCommand)
    case ('\t', ' ') => Instr(Store, NoParam, read)
    case ('\t', '\t') => Instr(Retrieve, NoParam, read)
    case ('\n', ' ') => WithFourth(s, pos + read, read, WriteChar, WriteNum, NoCommand)
    case ('\n', '\t') => WithFourth(s, pos + read, read, ReadChar, ReadNum, NoCommand)
    case _ => Bad(ErrInvalidCode)
  }

  /** Instructions whose first symbol is an LF (flow control). */
  function FlowGroup(s: seq<byte>, pos: nat, read: nat, b: byte, c: byte): (d: Decoded)
    requires 3 <= read && pos + read <= |s|
    ensures d.Instr? ==> 3 <= d.read <= |s| - pos && Shaped(d.cmd, d.param)
    ensures d.Bad? ==> d.err in {ErrIncompleteCode, ErrInvalidCode, ErrOverflow}
  {
    match (b, c)
    case (' ', ' ') => WithLabel(Mark, s, pos + read, read)
    case (' ', '\t') => WithLabel(Call, s, pos + read, read)
    case (' ', '\n') => WithLabel(Jump, s, pos + read, read)
    case ('\t', ' ') => WithLabel(JZero, s, pos + read, read)
    case ('\t', '\t') => WithLabel(JNeg, s, pos + read, read)
    case ('\t', '\n') => Instr(Ret, NoParam, read)
    case ('\n', '\n') => Instr(End, NoParam, read)
    case _ => Bad(ErrInvalidCode)
  }

  /** The body of the `switch` in `Load` for an instruction whose first
      symbol is at `pos`: the first three symbols choose the command, and
      the parameter or a fourth symbol follows them. */
  function Decode(s: seq<byte>, pos: nat): (d: Decoded)
    requires pos <= |s|
    ensures d.Instr? ==> 3 <= d.read <= |s| - pos && Shaped(d.cmd, d.param)
    ensures d.Bad? ==> d.err in {ErrIncompleteCode, ErrInvalidCode, ErrOverflow}
  {
    var t := Scan.Read3Code(s, pos);
    if t.1 == 0 then Bad(ErrIncompleteCode)
    else if t.0[0] == SP then StackGroup(s, pos, t.1, t.0[1], t.0[2])
    else if t.0[0] == TAB then TabGroup(s, pos, t.1, t.0[1], t.0[2])
    else if t.0[0] == LF then FlowGroup(s, pos, t.1, t.0[1], t.0[2])
    else Bad(ErrInvalidCode)
  }

  /** What `Load` leaves behind: the program and label table, the count of
      bytes consumed, and the error. */
  datatype LoadResult = LoadResult(
    program: seq<OpCode>, labels: map<seq<byte>, nat>, consumed: nat, err: Option<Error>)

  /** The loop of `Load` from offset `pos`, with the program and labels built
      so far; `seg` is the segment number every new opcode carries.  The
      loop runs while bytes are left. */
  function LoadFrom(program: seq<OpCode>, labels: map<seq<byte>, nat>, seg: int, s: seq<byte>, pos: nat)
    : (r: LoadResult)
    requires pos <= |s|
    ensures pos <= r.consumed <= |s|
    ensures r.err.None? ==> r.consumed == |s|
    decreases |s| - pos, 2
  {
    if pos == |s| then LoadResult(program, labels, pos, None)
    else Seek(program, labels, seg, s, pos)
  }

  /** The start of a turn of that loop: bytes before the next whitespace
      symbol are skipped; with none left, the whole buffer is consumed. */
  function Seek(program: seq<OpCode>, labels: map<seq<byte>, nat>, seg: int, s: seq<byte>, pos: nat)
    : (r: LoadResult)
    requires pos < |s|
    ensures pos <= r.consumed <= |s|
    ensures r.err.None? ==> r.consumed == |s|
    decreases |s| - pos, 1
  {
    var w := Scan.FindWhite(s, pos);
    if w.1 < 0 then LoadResult(program, labels, |s|, None)
    else LoadAt(program, labels, seg, s, pos + w.1)
  }

  /** The rest of a turn of that loop, for the instruction whose first
      symbol is at `at`: decode it, refuse a label already defined, append
      the opcode (registering a `Mark` first) and go on after it. */
  function LoadAt(program: seq<OpCode>, labels: map<seq<byte>, nat>, seg: int, s: seq<byte>, at: nat)
    : (r: LoadResult)
    requires at <= |s|
    ensures at <= r.consumed <= |s|
    ensures r.err.None? ==> r.consumed == |s|
    decreases |s| - at, 0
  {
    var d := Decode(s, at);
    if d.Bad? then LoadResult(program, labels, at, Some(d.err))
    else if d.cmd == Mark && d.param.l in labels then
      LoadResult(program, labels, at, Some(ErrDuplicateLabel))
    else
      var labels' := if d.cmd == Mark then labels[d.param.l := |program|] else labels;
      LoadFrom(program + [OpCode(d.cmd, d.param, seg, at)], labels', seg, s, at + d.read)
  }

  /** `Load(code)` on a VM holding `program`, `labels` and `Seg == seg`. */
  function Load(program: seq<OpCode>, labels: map<seq<byte>, nat>, seg: int, code: seq<byte>): (r: LoadResult)
    ensures r.consumed <= |code|
  {
    LoadFrom(program, labels, seg, code, 0)
  }

  /** The `Seg` after a `Load` that consumed `consumed` bytes
      (wspace/vm.go lines 47-51): the deferred increment happens exactly
      when something was consumed. */
  function NextSeg(seg: int, consumed: nat): int {
    if consumed > 0 then seg + 1 else seg
  }

  // ---------------------------------------------------------------------
  // What `Load` guarantees

  /** Every label names the `Mark` opcode that carries it, and every `Mark`
      is named by its label: the label table `Load` keeps. */
  predicate LabelsValid(program: seq<OpCode>, labels: map<seq<byte>, nat>) {
    && (forall l :: l in labels ==>
          labels[l] < |program| && program[labels[l]].cmd == Mark && program[labels[l]].param == Label(l))
    && (forall i :: 0 <= i < |program| && program[i].cmd == Mark && program[i].param.Label? ==>
          program[i].param.l in labels && labels[program[i].param.l] == i)
  }

  /** The instruction at `at` is appended: it decodes, and it is not a
      `Mark` of a label already defined. */
  predicate Appends(labels: map<seq<byte>, nat>, s: seq<byte>, at: nat)
    requires at <= |s|
  {
    Decode(s, at).Instr? && !(Decode(s, at).cmd == Mark && Decode(s, at).param.l in labels)
  }

  /** The label table after appending the decoded instruction `d` at
      `index` (wspace/vm.go lines 131-136): a `Mark` registers its label at
      its own index, any other instruction leaves the table alone. */
  function Register(labels: map<seq<byte>, nat>, d: Decoded, index: nat): map<seq<byte>, nat>
    requires d.Instr? && Shaped(d.cmd, d.param)
  {
    if d.cmd == Mark then labels[d.param.l := index] else labels
  }

  /** The turn at `pos` skips to the next whitespace symbol, or ends the loop. */
  lemma LoadFromSkips(program: seq<OpCode>, labels: map<seq<byte>, nat>, seg: int, s: seq<byte>, pos: nat)
    requires pos <= |s|
    ensures Scan.NextWhite(s, pos) >= 0 ==>
      LoadFrom(program, labels, seg, s, pos) == LoadAt(program, labels, seg, s, Scan.NextWhite(s, pos))
    ensures Scan.NextWhite(s, pos) < 0 ==> LoadFrom(program, labels, seg, s, pos) == LoadResult(program, labels, |s|, None)
  {
    if pos == |s| {
      assert Scan.NextWhite(s, pos) == -1;
    } else {
      var j := Scan.NextWhite(s, pos);
      assert Scan.FindWhite(s, pos).1 == if j < 0 then -1 else j - pos;
      assert LoadFrom(program, labels, seg, s, pos) == Seek(program, labels, seg, s, pos);
    }
  }

  /** The instruction at `at` is appended and the loop goes on after it. */
  lemma LoadAtAppends(program: seq<OpCode>, labels: map<seq<byte>, nat>, seg: int, s: seq<byte>, at: nat)
    requires at <= |s| && Appends(labels, s, at)
    ensures at + Decode(s, at).read <= |s|
    ensures var d := Decode(s, at);
      LoadAt(program, labels, seg, s, at) == LoadFrom(
        program + [OpCode(d.cmd, d.param, seg, at)],
        if d.cmd == Mark then labels[d.param.l := |program|] else labels, seg, s, at + d.read)
  {
  }

  /** An instruction that is not appended stops the loop there. */
  lemma LoadAtStops(program: seq<OpCode>, labels: map<seq<byte>, nat>, seg: int, s: seq<byte>, at: nat)
    requires at < |s| && Scan.IsWhite(s[at]) && !Appends(labels, s, at)
    ensures LoadAt(program, labels, seg, s, at).program == program
    ensures LoadAt(program, labels, seg, s, at).labels == labels
    ensures LoadAt(program, labels, seg, s, at).consumed == at
    ensures LoadAt(program, labels, seg, s, at).err.Some?
    ensures FailsAt(labels, s, at, LoadAt(program, labels, seg, s, at).err.value)
  {
  }

  /** The instruction at `at` is where `Load` fails with `e`: a whitespace
      symbol that does not decode, with `e` as the reason, or the `Mark` of a
      label already in `labels`. */
  predicate FailsAt(labels: map<seq<byte>, nat>, s: seq<byte>, at: nat, e: Error)
    requires at < |s|
  {
    && Scan.IsWhite(s[at])
    && match Decode(s, at)
       case Bad(err) => e == err
       case Instr(cmd, param, _) => cmd == Mark && param.l in labels && e == ErrDuplicateLabel
  }

  /** One turn of the loop at `pos`: either it stops there, with the
      program and labels as they were, or it appends one well-shaped opcode
      of segment `seg` found at or after `pos` (registering it first when it
      is a `Mark`, whose label is then new) and goes on from `next`. */
  lemma LoadFromTurn(program: seq<OpCode>, labels: map<seq<byte>, nat>, seg: int, s: seq<byte>, pos: nat)
    returns (appended: bool, op: OpCode, labels': map<seq<byte>, nat>, next: nat)
    requires pos <= |s|
    ensures appended ==>
      && pos <= op.pos < next <= |s| && op.seg == seg && WellShaped(op)
      && labels' == (if op.cmd == Mark then labels[op.param.l := |program|] else labels)
      && (op.cmd == Mark ==> op.param.Label? && op.param.l !in labels)
      && LoadFrom(program, labels, seg, s, pos) == LoadFrom(program + [op], labels', seg, s, next)
    ensures !appended ==> var r := LoadFrom(program, labels, seg, s, pos);
      && r.program == program && r.labels == labels
      && (r.err.Some? ==> pos <= r.consumed < |s| && FailsAt(labels, s, r.consumed, r.err.value))
      && (r.err.None? ==> Scan.NextWhite(s, pos) < 0)
  {
    var at := Scan.NextWhite(s, pos);
    if at >= 0 && Appends(labels, s, at) {
      appended := true;
      op, labels', next := TurnAppends(program, labels, seg, s, pos);
    } else {
      TurnStops(program, labels, seg, s, pos);
      appended, op, labels', next := false, OpCode(NoCommand, NoParam, 0, 0), labels, pos;
    }
  }

  /** A turn that appends: the opcode it appends and where the loop goes on. */
  lemma TurnAppends(program: seq<OpCode>, labels: map<seq<byte>, nat>, seg: int, s: seq<byte>, pos: nat)
    returns (op: OpCode, labels': map<seq<byte>, nat>, next: nat)
    requires pos <= |s|
    requires Scan.NextWhite(s, pos) >= 0 && Appends(labels, s, Scan.NextWhite(s, pos))
    ensures && pos <= op.pos < next <= |s| && op.seg == seg && WellShaped(op)
      && labels' == (if op.cmd == Mark then labels[op.param.l := |program|] else labels)
      && (op.cmd == Mark ==> op.param.Label? && op.param.l !in labels)
      && LoadFrom(program, labels, seg, s, pos) == LoadFrom(program + [op], labels', seg, s, next)
  {
    var at := Scan.NextWhite(s, pos);
    var d := Decode(s, at);
    LoadFromSkips(program, labels, seg, s, pos);
    AppendedOp(program, labels, seg, s, at);
    op, labels', next := OpCode(d.cmd, d.param, seg, at), Register(labels, d, |program|), at + d.read;
  }

  /** A turn that appends, with the opcode it appends named by what its
      instruction decodes to. */
  lemma TurnDecoded(program: seq<OpCode>, labels: map<seq<byte>, nat>, seg: int, s: seq<byte>, pos: nat)
    returns (op: OpCode, labels': map<seq<byte>, nat>, next: nat)
    requires pos <= |s|
    requires Scan.NextWhite(s, pos) >= 0 && Appends(labels, s, Scan.NextWhite(s, pos))
    ensures op.pos == Scan.NextWhite(s, pos) && op.seg == seg
    ensures op.cmd == Decode(s, op.pos).cmd && op.param == Decode(s, op.pos).param
    ensures next == op.pos + Decode(s, op.pos).read
    ensures labels' == (if op.cmd == Mark then labels[op.param.l := |program|] else labels)
    ensures LoadFrom(program, labels, seg, s, pos) == LoadFrom(program + [op], labels', seg, s, next)
  {
    var at := Scan.NextWhite(s, pos);
    var d := Decode(s, at);
    LoadFromSkips(program, labels, seg, s, pos);
    AppendedOp(program, labels, seg, s, at);
    op, labels', next := OpCode(d.cmd, d.param, seg, at), Register(labels, d, |program|), at + d.read;
  }

  /** A turn that appends nothing leaves the program and labels as they
      were: it fails at the instruction it could not append, or it found
      no instruction at all. */
  lemma TurnStops(program: seq<OpCode>, labels: map<seq<byte>, nat>, seg: int, s: seq<byte>, pos: nat)
    requires pos <= |s|
    requires !(Scan.NextWhite(s, pos) >= 0 && Appends(labels, s, Scan.NextWhite(s, pos)))
    ensures var r := LoadFrom(program, labels, seg, s, pos);
      && r.program == program && r.labels == labels
      && (r.err.Some? ==> pos <= r.consumed < |s| && FailsAt(labels, s, r.consumed, r.err.value))
      && (r.err.None? ==> Scan.NextWhite(s, pos) < 0)
  {
    LoadFromSkips(program, labels, seg, s, pos);
    var at := Scan.NextWhite(s, pos);
    if at >= 0 {
      LoadAtStops(program, labels, seg, s, at);
    }
  }

  /** The opcode a turn appends at `at`: well shaped, of segment `seg`, a
      `Mark` only of a new label, and the loop goes on after it. */
  lemma AppendedOp(program: seq<OpCode>, labels: map<seq<byte>, nat>, seg: int, s: seq<byte>, at: nat)
    requires at <= |s| && Appends(labels, s, at)
    ensures var d := Decode(s, at);
      && at < at + d.read <= |s| && WellShaped(OpCode(d.cmd, d.param, seg, at))
      && (d.cmd == Mark ==> d.param.Label? && d.param.l !in labels)
      && LoadAt(program, labels, seg, s, at)
        == LoadFrom(program + [OpCode(d.cmd, d.param, seg, at)], Register(labels, d, |program|), seg, s, at + d.read)
  {
    LoadAtAppends(program, labels, seg, s, at);
  }

  /** `Load` only appends: the opcodes it started with stay as they were,
      even when it fails. */
  lemma {:induction false} LoadFromKeeps(program: seq<OpCode>, labels: map<seq<byte>, nat>, seg: int, s: seq<byte>, pos: nat)
    requires pos <= |s|
    ensures |program| <= |LoadFrom(program, labels, seg, s, pos).program|
    ensures forall i :: 0 <= i < |program| ==> LoadFrom(program, labels, seg, s, pos).program[i] == program[i]
    decreases |s| - pos
  {
    var appended, op, labels', next := LoadFromTurn(program, labels, seg, s, pos);
    if appended {
      LoadFromKeeps(program + [op], labels', seg, s, next);
    }
  }

  /** The labels `Load` started with keep their indices, even when it fails. */
  lemma {:induction false} LoadFromKeepsLabels(program: seq<OpCode>, labels: map<seq<byte>, nat>, seg: int, s: seq<byte>, pos: nat)
    requires pos <= |s|
    ensures forall l :: l in labels ==>
      l in LoadFrom(program, labels, seg, s, pos).labels && LoadFrom(program, labels, seg, s, pos).labels[l] == labels[l]
    decreases |s| - pos
  {
    var appended, op, labels', next := LoadFromTurn(program, labels, seg, s, pos);
    if appended {
      LoadFromKeepsLabels(program + [op], labels', seg, s, next);
    }
  }

  /** The opcodes a call appends carry its segment, sit at increasing
      offsets between where it started and where it stopped, and are well
      shaped. */
  lemma {:induction false} LoadFromNew(program: seq<OpCode>, labels: map<seq<byte>, nat>, seg: int, s: seq<byte>, pos: nat)
    requires pos <= |s|
    ensures forall i :: |program| <= i < |LoadFrom(program, labels, seg, s, pos).program| ==>
      && LoadFrom(program, labels, seg, s, pos).program[i].seg == seg
      && pos <= LoadFrom(program, labels, seg, s, pos).program[i].pos < LoadFrom(program, labels, seg, s, pos).consumed
      && WellShaped(LoadFrom(program, labels, seg, s, pos).program[i])
    ensures forall i, j :: |program| <= i < j < |LoadFrom(program, labels, seg, s, pos).program| ==>
      LoadFrom(program, labels, seg, s, pos).program[i].pos < LoadFrom(program, labels, seg, s, pos).program[j].pos
    decreases |s| - pos
  {
    var appended, op, labels', next := LoadFromTurn(program, labels, seg, s, pos);
    if appended {
      LoadFromNew(program + [op], labels', seg, s, next);
      LoadFromKeeps(program + [op], labels', seg, s, next);
      assert LoadFrom(program, labels, seg, s, pos).program[|program|] == op;
    }
  }

  /** Appending a well-shaped opcode, and registering it when it is the
      `Mark` of a new label, keeps the label table valid. */
  lemma LabelsValidAppend(program: seq<OpCode>, labels: map<seq<byte>, nat>, op: OpCode)
    requires LabelsValid(program, labels) && WellShaped(op)
    requires op.cmd == Mark ==> op.param.l !in labels
    ensures LabelsValid(program + [op], if op.cmd == Mark then labels[op.param.l := |program|] else labels)
  {
    var p := program + [op];
    var m := if op.cmd == Mark then labels[op.param.l := |program|] else labels;
    forall l | l in m
      ensures m[l] < |p| && p[m[l]].cmd == Mark && p[m[l]].param == Label(l)
    {
      if op.cmd == Mark && l == op.param.l {
      } else {
        assert p[labels[l]] == program[labels[l]];
      }
    }
    forall i | 0 <= i < |p| && p[i].cmd == Mark && p[i].param.Label?
      ensures p[i].param.l in m && m[p[i].param.l] == i
    {
      if i < |program| {
        assert p[i] == program[i];
        assert labels[p[i].param.l] == i;
      }
    }
  }

  /** `Load` keeps the label table valid: every label it registers names
      the `Mark` that defines it, and every `Mark` it appends is registered. */
  lemma {:induction false} LoadFromLabelsValid(program: seq<OpCode>, labels: map<seq<byte>, nat>, seg: int, s: seq<byte>, pos: nat)
    requires pos <= |s| && LabelsValid(program, labels)
    ensures LabelsValid(LoadFrom(program, labels, seg, s, pos).program, LoadFrom(program, labels, seg, s, pos).labels)
    decreases |s| - pos
  {
    var appended, op, labels', next := LoadFromTurn(program, labels, seg, s, pos);
    if appended {
      LabelsValidAppend(program, labels, op);
      LoadFromLabelsValid(program + [op], labels', seg, s, next);
    }
  }

  /** `Load` fails only at a whitespace symbol that does not decode or that
      opens a duplicate `Mark`, leaving `consumed` at that symbol; it
      succeeds only when no whitespace is left after the last instruction. */
  lemma {:induction false} LoadFromError(program: seq<OpCode>, labels: map<seq<byte>, nat>, seg: int, s: seq<byte>, pos: nat)
    requires pos <= |s|
    ensures LoadFrom(program, labels, seg, s, pos).err.Some? ==>
      && pos <= LoadFrom(program, labels, seg, s, pos).consumed < |s|
      && LoadFrom(program, labels, seg, s, pos).err.value.IsLoadError()
      && FailsAt(LoadFrom(program, labels, seg, s, pos).labels, s,
                 LoadFrom(program, labels, seg, s, pos).consumed, LoadFrom(program, labels, seg, s, pos).err.value)
    decreases |s| - pos
  {
    var appended, op, labels', next := LoadFromTurn(program, labels, seg, s, pos);
    if appended {
      LoadFromError(program + [op], labels', seg, s, next);
    }
  }
}
