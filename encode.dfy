/** The whitespace encoding of instructions that the comments beside the
    commands in wspace/opcode.go document, and what `Load`'s decoder makes
    of it: every encodable instruction decodes back to itself, and the
    openings no command has are refused. */
module Encoding {
  import opened Words
  import opened Errors
  import opened Wrappers
  import Scan
  import opened OpCodes
  import opened Loader

  /** The bytes of an instruction: the command's symbols, then the
      parameter. */
  function Encode(cmd: Command, param: Param): seq<byte>
  {
    Prefix(cmd) + EncodeParam(param)
  }

  function EncodeParam(param: Param): seq<byte>
  {
    match param
    case NoParam => []
    case Number(n) => Scan.EncodeNum(n)
    case Label(l) => Scan.EncodeLabel(l)
  }

  /** An instruction that has an encoding: its parameter fits its command,
      a number's magnitude fits in `int` and a label is made of spaces and
      tabs. */
  predicate Encodable(cmd: Command, param: Param) {
    && Shaped(cmd, param)
    && (param.Number? ==> Abs(param.n) <= MaxInt)
    && (param.Label? ==> Scan.SpaceTab(param.l))
  }

  /** `s` holds the encoding of the instruction at offset `k`. */
  predicate EncodedAt(s: seq<byte>, k: nat, cmd: Command, param: Param) {
    k + |Encode(cmd, param)| <= |s| && s[k..k + |Encode(cmd, param)|] == Encode(cmd, param)
  }

  /** Where `s` holds `p + m`, it holds `p` and then `m`. */
  lemma SplitAt(s: seq<byte>, k: nat, p: seq<byte>, m: seq<byte>)
    requires k + |p| + |m| <= |s| && s[k..k + |p| + |m|] == p + m
    ensures s[k + |p|..k + |p| + |m|] == m
    ensures s[k..k + |p|] == p
  {
    forall i | 0 <= i < |p| ensures s[k..k + |p|][i] == p[i] {
      assert s[k + i] == s[k..k + |p| + |m|][i];
    }
    forall i | 0 <= i < |m| ensures s[k + |p|..k + |p| + |m|][i] == m[i] {
      assert s[k + |p| + i] == s[k..k + |p| + |m|][|p| + i];
    }
  }

  /** The first of three whitespace symbols picks the group of commands. */
  lemma DecodeOpens(s: seq<byte>, k: nat)
    requires k + 3 <= |s| && Scan.IsWhite(s[k]) && Scan.IsWhite(s[k + 1]) && Scan.IsWhite(s[k + 2])
    ensures s[k] == SP ==> Decode(s, k) == StackGroup(s, k, 3, s[k + 1], s[k + 2])
    ensures s[k] == TAB ==> Decode(s, k) == TabGroup(s, k, 3, s[k + 1], s[k + 2])
    ensures s[k] == LF ==> Decode(s, k) == FlowGroup(s, k, 3, s[k + 1], s[k + 2])
  {
    Scan.Read3CodeWhite(s, k);
  }

  /** Where `s` holds an instruction's encoding, it holds the command's
      symbols and then the parameter's encoding. */
  lemma EncodedParts(s: seq<byte>, k: nat, cmd: Command, param: Param)
    requires EncodedAt(s, k, cmd, param)
    ensures k + |Prefix(cmd)| + |EncodeParam(param)| <= |s|
    ensures s[k..k + |Prefix(cmd)|] == Prefix(cmd)
    ensures s[k + |Prefix(cmd)|..k + |Prefix(cmd)| + |EncodeParam(param)|] == EncodeParam(param)
  {
    SplitAt(s, k, Prefix(cmd), EncodeParam(param));
  }

  /** `Push` decodes back: its number's sign is its third symbol. */
  lemma PushDecodes(s: seq<byte>, k: nat, n: int64)
    requires Abs(n) <= MaxInt && k + 2 + |Scan.EncodeNum(n)| <= |s|
    requires s[k..k + 2] == "  " && s[k + 2..k + 2 + |Scan.EncodeNum(n)|] == Scan.EncodeNum(n)
    ensures Decode(s, k) == Instr(Push, Number(n), 2 + |Scan.EncodeNum(n)|)
  {
    var m := Scan.EncodeNum(n);
    Scan.ReadNumEncodeNum(s, k + 2, n);
    assert s[k + 2] == s[k + 2..k + 2 + |m|][0];
    assert s[k] == s[k..k + 2][0] && s[k + 1] == s[k..k + 2][1];
    DecodeOpens(s, k);
  }

  /** `Copy` and `Slide` decode back. */
  lemma CountDecodes(s: seq<byte>, k: nat, cmd: Command, n: int64)
    requires cmd in {Copy, Slide}
    requires Abs(n) <= MaxInt && k + 3 + |Scan.EncodeNum(n)| <= |s|
    requires s[k..k + 3] == Prefix(cmd) && s[k + 3..k + 3 + |Scan.EncodeNum(n)|] == Scan.EncodeNum(n)
    ensures Decode(s, k) == Instr(cmd, Number(n), 3 + |Scan.EncodeNum(n)|)
  {
    Scan.ReadNumEncodeNum(s, k + 3, n);
    assert s[k] == s[k..k + 3][0] && s[k + 1] == s[k..k + 3][1] && s[k + 2] == s[k..k + 3][2];
    DecodeOpens(s, k);
  }

  /** A label instruction decodes back. */
  lemma LabelDecodes(s: seq<byte>, k: nat, cmd: Command, l: seq<byte>)
    requires cmd.TakesLabel() && Scan.SpaceTab(l) && k + 3 + |l| + 1 <= |s|
    requires s[k..k + 3] == Prefix(cmd) && s[k + 3..k + 3 + |l| + 1] == Scan.EncodeLabel(l)
    ensures Decode(s, k) == Instr(cmd, Label(l), 3 + |l| + 1)
  {
    Scan.ReadLabelEncodeLabel(s, k + 3, l);
    assert s[k] == s[k..k + 3][0] && s[k + 1] == s[k..k + 3][1] && s[k + 2] == s[k..k + 3][2];
    DecodeOpens(s, k);
  }

  /** An instruction of three symbols and no parameter decodes back. */
  lemma PlainDecodes(s: seq<byte>, k: nat, cmd: Command)
    requires cmd in {Dup, Swap, Discard, Store, Retrieve, Ret, End}
    requires k + 3 <= |s| && s[k..k + 3] == Prefix(cmd)
    ensures Decode(s, k) == Instr(cmd, NoParam, 3)
  {
    assert s[k] == s[k..k + 3][0] && s[k + 1] == s[k..k + 3][1] && s[k + 2] == s[k..k + 3][2];
    DecodeOpens(s, k);
  }

  /** An instruction of four symbols decodes back. */
  lemma FourDecodes(s: seq<byte>, k: nat, cmd: Command)
    requires cmd in {Add, Sub, Mul, Div, Mod, WriteChar, WriteNum, ReadChar, ReadNum}
    requires k + 4 <= |s| && s[k..k + 4] == Prefix(cmd)
    ensures Decode(s, k) == Instr(cmd, NoParam, 4)
  {
    var p := s[k..k + 4];
    assert s[k] == p[0] && s[k + 1] == p[1] && s[k + 2] == p[2] && s[k + 3] == p[3];
    assert Scan.NextWhite(s, k + 3) == k + 3;
    DecodeOpens(s, k);
  }

  lemma NumberDecodes(s: seq<byte>, k: nat, cmd: Command, n: int64)
    requires cmd.TakesNumber() && Abs(n) <= MaxInt && EncodedAt(s, k, cmd, Number(n))
    ensures Decode(s, k) == Instr(cmd, Number(n), |Encode(cmd, Number(n))|)
  {
    EncodedParts(s, k, cmd, Number(n));
    if cmd == Push {
      PushDecodes(s, k, n);
    } else {
      CountDecodes(s, k, cmd, n);
    }
  }

  lemma LabelInstrDecodes(s: seq<byte>, k: nat, cmd: Command, l: seq<byte>)
    requires cmd.TakesLabel() && Scan.SpaceTab(l) && EncodedAt(s, k, cmd, Label(l))
    ensures Decode(s, k) == Instr(cmd, Label(l), |Encode(cmd, Label(l))|)
  {
    EncodedParts(s, k, cmd, Label(l));
    LabelDecodes(s, k, cmd, l);
  }

  lemma BareDecodes(s: seq<byte>, k: nat, cmd: Command)
    requires cmd != NoCommand && !cmd.TakesNumber() && !cmd.TakesLabel() && EncodedAt(s, k, cmd, NoParam)
    ensures Decode(s, k) == Instr(cmd, NoParam, |Encode(cmd, NoParam)|)
  {
    EncodedParts(s, k, cmd, NoParam);
    if cmd in {Dup, Swap, Discard, Store, Retrieve, Ret, End} {
      PlainDecodes(s, k, cmd);
    } else {
      FourDecodes(s, k, cmd);
    }
  }

  /** Decoding the documented encoding of an instruction gives back that
      instruction and the length of its encoding, whatever follows it. */
  lemma DecodeEncode(s: seq<byte>, k: nat, cmd: Command, param: Param)
    requires Encodable(cmd, param) && EncodedAt(s, k, cmd, param)
    ensures Decode(s, k) == Instr(cmd, param, |Encode(cmd, param)|)
  {
    match param
    case Number(n) => NumberDecodes(s, k, cmd, n);
    case Label(l) => LabelInstrDecodes(s, k, cmd, l);
    case NoParam => BareDecodes(s, k, cmd);
  }

  // ---------------------------------------------------------------------
  // Sequences no instruction has

  /** The seven openings of three whitespace symbols that no command has:
      of the 27 possible, `Load` accepts the other 20. */
  const InvalidOpenings: set<seq<byte>> :=
    {"  \n", " \t\t", "\t \n", "\t\t\n", "\t\n\n", "\n\n ", "\n\n\t"}

  /** An opening with no command is `ErrInvalidCode`, whatever follows. */
  lemma DecodeInvalidOpening(s: seq<byte>, k: nat)
    requires k + 3 <= |s| && s[k..k + 3] in InvalidOpenings
    ensures Decode(s, k) == Bad(ErrInvalidCode)
  {
    var p := s[k..k + 3];
    assert s[k] == p[0] && s[k + 1] == p[1] && s[k + 2] == p[2];
    DecodeOpens(s, k);
  }

  /** LF as the fourth symbol after the openings of `Div`/`Mod`,
      `WriteChar`/`WriteNum` and `ReadChar`/`ReadNum` is `ErrInvalidCode`;
      `Add`/`Sub`/`Mul` use all three. */
  lemma DecodeInvalidFourth(s: seq<byte>, k: nat)
    requires k + 4 <= |s| && s[k..k + 4] in {"\t \t\n", "\t\n \n", "\t\n\t\n"}
    ensures Decode(s, k) == Bad(ErrInvalidCode)
  {
    var p := s[k..k + 4];
    assert s[k] == p[0] && s[k + 1] == p[1] && s[k + 2] == p[2] && s[k + 3] == p[3];
    assert Scan.NextWhite(s, k + 3) == k + 3;
    DecodeOpens(s, k);
  }

  /** Fewer than three whitespace symbols left is `ErrIncompleteCode`. */
  lemma DecodeShort(s: seq<byte>, k: nat)
    requires k <= |s| && |Scan.Ws(s, k, |s|)| < 3
    ensures Decode(s, k) == Bad(ErrIncompleteCode)
  {
    Scan.Read3CodeFails(s, k);
  }

  // ---------------------------------------------------------------------
  // Whole programs

  /** An instruction as a program states it: a command and its parameter. */
  datatype Instruction = Instruction(cmd: Command, param: Param)

  /** The bytes of a program: the encodings of its instructions, one after
      another. */
  function EncodeProgram(p: seq<Instruction>): seq<byte>
  {
    if p == [] then [] else Encode(p[0].cmd, p[0].param) + EncodeProgram(p[1..])
  }

  /** Byte strings one after another. */
  function Join(pieces: seq<seq<byte>>): seq<byte>
  {
    if pieces == [] then [] else pieces[0] + Join(pieces[1..])
  }

  /** A program whose instructions encode as the given pieces encodes as
      the pieces joined. */
  lemma {:induction false} EncodeJoin(p: seq<Instruction>, pieces: seq<seq<byte>>)
    requires |p| == |pieces|
    requires forall i :: 0 <= i < |p| ==> Encode(p[i].cmd, p[i].param) == pieces[i]
    ensures EncodeProgram(p) == Join(pieces)
    decreases |p|
  {
    if p != [] {
      EncodeJoin(p[1..], pieces[1..]);
    }
  }

  /** The opcodes of `p` written from offset `k`, in segment `seg`. */
  function Placed(p: seq<Instruction>, seg: int, k: nat): (ops: seq<OpCode>)
    ensures |ops| == |p|
  {
    if p == [] then []
    else [OpCode(p[0].cmd, p[0].param, seg, k)] + Placed(p[1..], seg, k + |Encode(p[0].cmd, p[0].param)|)
  }

  /** The label table after registering the `Mark`s of `p`, the first
      instruction of `p` going to index `index`. */
  function Marked(p: seq<Instruction>, labels: map<seq<byte>, nat>, index: nat): map<seq<byte>, nat>
  {
    if p == [] then labels
    else Marked(p[1..], if p[0].cmd == Mark && p[0].param.Label? then labels[p[0].param.l := index] else labels, index + 1)
  }

  /** Every instruction of `p` is encodable and every `Mark` defines a label
      not defined before it. */
  predicate Loadable(p: seq<Instruction>, labels: map<seq<byte>, nat>, index: nat)
  {
    p != [] ==>
      && Encodable(p[0].cmd, p[0].param)
      && (p[0].cmd == Mark ==> p[0].param.l !in labels)
      && Loadable(p[1..], if p[0].cmd == Mark then labels[p[0].param.l := index] else labels, index + 1)
  }

  /** Where no instruction is a `Mark`, registering leaves the label table
      as it was. */
  lemma {:induction false} MarkedNone(p: seq<Instruction>, labels: map<seq<byte>, nat>, index: nat)
    requires forall i :: 0 <= i < |p| ==> p[i].cmd != Mark
    ensures Marked(p, labels, index) == labels
    decreases |p|
  {
    if p != [] {
      MarkedNone(p[1..], labels, index + 1);
    }
  }

  /** A program of encodable instructions with no `Mark` is loadable. */
  lemma {:induction false} LoadableNone(p: seq<Instruction>, labels: map<seq<byte>, nat>, index: nat)
    requires forall i :: 0 <= i < |p| ==> p[i].cmd != Mark && Encodable(p[i].cmd, p[i].param)
    ensures Loadable(p, labels, index)
    decreases |p|
  {
    if p != [] {
      LoadableNone(p[1..], labels, index + 1);
    }
  }

  /** `ops` carries the instructions of `p` in segment `seg`, the first
      at `k` and each next one just after the bytes of the one before, the
      bytes of each instruction being `pieces`. */
  predicate Offsets(p: seq<Instruction>, pieces: seq<seq<byte>>, seg: int, k: nat, ops: seq<OpCode>)
  {
    && |p| == |pieces| == |ops|
    && (forall i :: 0 <= i < |p| ==> Encode(p[i].cmd, p[i].param) == pieces[i])
    && (forall i :: 0 <= i < |p| ==> ops[i] == OpCode(p[i].cmd, p[i].param, seg, ops[i].pos))
    && (p != [] ==> ops[0].pos == k)
    && (forall i :: 0 <= i < |p| - 1 ==> ops[i + 1].pos == ops[i].pos + |pieces[i]|)
  }

  /** Those offsets hold of the tails once the first instruction is taken
      off. */
  lemma OffsetsTail(p: seq<Instruction>, pieces: seq<seq<byte>>, seg: int, k: nat, ops: seq<OpCode>)
    requires p != [] && Offsets(p, pieces, seg, k, ops)
    ensures Offsets(p[1..], pieces[1..], seg, k + |pieces[0]|, ops[1..])
    ensures ops[0] == OpCode(p[0].cmd, p[0].param, seg, k) && pieces[0] == Encode(p[0].cmd, p[0].param)
  {
  }

  /** A non-empty sequence is its head followed by its tail. */
  lemma HeadTail(ops: seq<OpCode>)
    requires ops != []
    ensures ops == [ops[0]] + ops[1..]
  {
  }

  /** The head of `ops` placed before its tail. */
  lemma PlacedStep(p: seq<Instruction>, pieces: seq<seq<byte>>, seg: int, k: nat, ops: seq<OpCode>)
    requires p != [] && |p| == |ops| && |pieces| > 0
    requires ops[0] == OpCode(p[0].cmd, p[0].param, seg, k) && pieces[0] == Encode(p[0].cmd, p[0].param)
    requires Placed(p[1..], seg, k + |pieces[0]|) == ops[1..]
    ensures Placed(p, seg, k) == ops
  {
    PlacedHead(p, seg, k);
    HeadTail(ops);
  }

  /** The opcodes placed for `p` are any `ops` with those offsets. */
  lemma {:induction false} PlacedOffsets(p: seq<Instruction>, pieces: seq<seq<byte>>, seg: int, k: nat, ops: seq<OpCode>)
    requires Offsets(p, pieces, seg, k, ops)
    ensures Placed(p, seg, k) == ops
    decreases |p|
  {
    if p != [] {
      OffsetsTail(p, pieces, seg, k, ops);
      PlacedOffsets(p[1..], pieces[1..], seg, k + |pieces[0]|, ops[1..]);
      PlacedStep(p, pieces, seg, k, ops);
    }
  }

  /** A program with no `Mark`, encoded as `code`, loads into an empty
      machine as its placed opcodes, defining no label. */
  lemma LoadPlain(p: seq<Instruction>, seg: int, code: seq<byte>, ops: seq<OpCode>)
    requires forall i :: 0 <= i < |p| ==> p[i].cmd != Mark && Encodable(p[i].cmd, p[i].param)
    requires EncodeProgram(p) == code && Placed(p, seg, 0) == ops
    ensures Load([], map[], seg, code) == LoadResult(ops, map[], |code|, None)
  {
    LoadableNone(p, map[], 0);
    MarkedNone(p, map[], 0);
    LoadEncoded([], map[], seg, p);
    assert [] + ops == ops;
  }

  /** Every command is written starting with a whitespace symbol. */
  lemma PrefixOpens(c: Command)
    requires c != NoCommand
    ensures Scan.IsWhite(Prefix(c)[0])
  {
  }

  /** The first instruction of an encoded rest of the buffer: it decodes
      as itself at `k`, which holds a whitespace symbol, and the encoding of
      the other instructions follows it. */
  lemma EncodedHead(s: seq<byte>, k: nat, p: seq<Instruction>)
    requires k <= |s| && s[k..] == EncodeProgram(p) && p != [] && Encodable(p[0].cmd, p[0].param)
    ensures k + |Encode(p[0].cmd, p[0].param)| <= |s|
    ensures s[k + |Encode(p[0].cmd, p[0].param)|..] == EncodeProgram(p[1..])
    ensures Scan.NextWhite(s, k) == k
    ensures Decode(s, k) == Instr(p[0].cmd, p[0].param, |Encode(p[0].cmd, p[0].param)|)
  {
    var e := Encode(p[0].cmd, p[0].param);
    SliceSplit(s, k, e, EncodeProgram(p[1..]));
    PrefixOpens(p[0].cmd);
    assert s[k] == e[0];
    DecodeEncode(s, k, p[0].cmd, p[0].param);
  }

  /** Where `s` holds `a + b` from `k` on, it holds `a` and then `b`. */
  lemma SliceSplit(s: seq<byte>, k: nat, a: seq<byte>, b: seq<byte>)
    requires k <= |s| && s[k..] == a + b
    ensures k + |a| <= |s| && s[k..k + |a|] == a && s[k + |a|..] == b
  {
    assert s[k..k + |a|] == s[k..][..|a|];
    assert s[k + |a|..] == s[k..][|a|..];
  }

  /** One turn of `Load`'s loop on an encoded rest of the buffer appends
      the opcode of its first instruction and goes on after its encoding. */
  lemma LoadsHead(program: seq<OpCode>, labels: map<seq<byte>, nat>, seg: int, s: seq<byte>, k: nat, p: seq<Instruction>)
    returns (op: OpCode, labels': map<seq<byte>, nat>, next: nat)
    requires k <= |s| && s[k..] == EncodeProgram(p) && p != [] && Encodable(p[0].cmd, p[0].param)
    requires p[0].cmd == Mark ==> p[0].param.l !in labels
    ensures op == OpCode(p[0].cmd, p[0].param, seg, k)
    ensures next == k + |Encode(p[0].cmd, p[0].param)| && next <= |s|
    ensures s[next..] == EncodeProgram(p[1..])
    ensures labels' == if p[0].cmd == Mark then labels[p[0].param.l := |program|] else labels
    ensures LoadFrom(program, labels, seg, s, k) == LoadFrom(program + [op], labels', seg, s, next)
  {
    EncodedHead(s, k, p);
    op, labels', next := TurnDecoded(program, labels, seg, s, k);
  }

  /** The first instruction of `p` is placed at `k`, the others after its
      encoding. */
  lemma PlacedHead(p: seq<Instruction>, seg: int, k: nat)
    requires p != []
    ensures Placed(p, seg, k)
      == [OpCode(p[0].cmd, p[0].param, seg, k)] + Placed(p[1..], seg, k + |Encode(p[0].cmd, p[0].param)|)
  {
  }

  /** Placing `p` after `program` places its first instruction, then the
      others after that one's encoding. */
  lemma PlacedTurn(program: seq<OpCode>, seg: int, k: nat, p: seq<Instruction>, op: OpCode, next: nat)
    requires p != []
    requires op == OpCode(p[0].cmd, p[0].param, seg, k) && next == k + |Encode(p[0].cmd, p[0].param)|
    ensures program + Placed(p, seg, k) == (program + [op]) + Placed(p[1..], seg, next)
  {
    PlacedHead(p, seg, k);
    AppendAssoc(program, op, Placed(p[1..], seg, next));
  }

  /** Appending one opcode and then the rest is appending both at once. */
  lemma AppendAssoc(program: seq<OpCode>, op: OpCode, rest: seq<OpCode>)
    ensures program + ([op] + rest) == (program + [op]) + rest
  {
  }

  /** The `Mark`s of `p` are those of its first instruction, then the
      others'. */
  lemma MarkedHead(p: seq<Instruction>, labels: map<seq<byte>, nat>, index: nat)
    requires p != [] && (p[0].cmd == Mark ==> p[0].param.Label?)
    ensures Marked(p, labels, index)
      == Marked(p[1..], if p[0].cmd == Mark then labels[p[0].param.l := index] else labels, index + 1)
  {
  }

  /** A loadable program starts with an encodable instruction, a `Mark`
      only of a new label, and goes on loadable after it. */
  lemma LoadableHead(p: seq<Instruction>, labels: map<seq<byte>, nat>, index: nat)
    requires p != [] && Loadable(p, labels, index)
    ensures Encodable(p[0].cmd, p[0].param)
    ensures p[0].cmd == Mark ==> p[0].param.Label? && p[0].param.l !in labels
    ensures Loadable(p[1..], if p[0].cmd == Mark then labels[p[0].param.l := index] else labels, index + 1)
  {
  }

  /** One turn of `Load`'s loop on an encoded rest of the buffer, in the
      terms of the program it encodes: the opcode appended and the label
      table and offset the loop goes on with are those of the first
      instruction, and what is left is loadable and encoded from there. */
  lemma EncodedTurn(program: seq<OpCode>, labels: map<seq<byte>, nat>, seg: int, s: seq<byte>, k: nat, p: seq<Instruction>)
    returns (op: OpCode, labels': map<seq<byte>, nat>, next: nat)
    requires k <= |s| && s[k..] == EncodeProgram(p) && p != []
    requires Loadable(p, labels, |program|)
    ensures next <= |s| && s[next..] == EncodeProgram(p[1..])
    ensures Loadable(p[1..], labels', |program| + 1)
    ensures LoadFrom(program, labels, seg, s, k) == LoadFrom(program + [op], labels', seg, s, next)
    ensures program + Placed(p, seg, k) == (program + [op]) + Placed(p[1..], seg, next)
    ensures Marked(p, labels, |program|) == Marked(p[1..], labels', |program| + 1)
  {
    LoadableHead(p, labels, |program|);
    op, labels', next := LoadsHead(program, labels, seg, s, k, p);
    PlacedTurn(program, seg, k, p, op, next);
    MarkedHead(p, labels, |program|);
  }

  /** Where the rest of the buffer from `k` is the encoding of `p`, the loop
      of `Load` appends exactly the opcodes of `p` at their offsets,
      registers their `Mark`s, and consumes everything without error. */
  lemma {:induction false} LoadFromEncoded(program: seq<OpCode>, labels: map<seq<byte>, nat>, seg: int,
                                           s: seq<byte>, k: nat, p: seq<Instruction>)
    requires k <= |s| && s[k..] == EncodeProgram(p)
    requires Loadable(p, labels, |program|)
    ensures LoadFrom(program, labels, seg, s, k) == LoadResult(program + Placed(p, seg, k), Marked(p, labels, |program|), |s|, None)
    decreases |p|
  {
    if p == [] {
      assert |s[k..]| == 0;
    } else {
      var op, labels', next := EncodedTurn(program, labels, seg, s, k, p);
      assert |program + [op]| == |program| + 1;
      LoadFromEncoded(program + [op], labels', seg, s, next, p[1..]);
    }
  }

  /** `Load` reads the encoding of a program back as that program: every
      instruction becomes its opcode, in the loading segment and at the
      offset of its first symbol, every `Mark` is registered, and the whole
      buffer is consumed without error. */
  lemma LoadEncoded(program: seq<OpCode>, labels: map<seq<byte>, nat>, seg: int, p: seq<Instruction>)
    requires Loadable(p, labels, |program|)
    ensures Load(program, labels, seg, EncodeProgram(p))
      == LoadResult(program + Placed(p, seg, 0), Marked(p, labels, |program|), |EncodeProgram(p)|, None)
  {
    LoadFromEncoded(program, labels, seg, EncodeProgram(p), 0, p);
  }
}
