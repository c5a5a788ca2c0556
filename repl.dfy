/** The logic of the interactive interpreter (wspace/cmd/wspace/main.go):
    the prompt's picture of the pending code, the reader's buffer
    selector, and what one line of input does to the pending code and to
    the machine. */
module Repl {
  import opened Words
  import opened Errors
  import opened Wrappers
  import OpCodes
  import Scan
  import Loader
  import Machine
  import Wspace
  import Resume

  // ---------------------------------------------------------------------
  // visualize

  /** The picture of one whitespace symbol. */
  function Glyph(c: byte): (g: char)
    requires Scan.IsWhite(c)
    ensures g in {'.', '_', ','}
  {
    if c == SP then '.' else if c == TAB then '_' else ','
  }

  /** What `visualize` appends for a byte: a picture for whitespace,
      nothing for any other byte. */
  function Picture(c: byte): (p: string) {
    if Scan.IsWhite(c) then [Glyph(c)] else []
  }

  /** The picture of `code`, byte by byte. */
  function Visualized(code: seq<byte>): (v: string)
    ensures |v| <= |code|
  {
    if |code| == 0 then [] else Visualized(code[..|code| - 1]) + Picture(code[|code| - 1])
  }

  /** `visualize(code)`. */
  method Visualize(code: seq<byte>) returns (v: string)
    ensures v == Visualized(code)
  {
    v := [];
    for i := 0 to |code|
      invariant v == Visualized(code[..i])
    {
      assert code[..i + 1][..i] == code[..i];
      match code[i] {
        case ' ' => v := v + ['.'];
        case '\t' => v := v + ['_'];
        case '\n' => v := v + [','];
        case _ =>
      }
    }
    assert code[..|code|] == code;
  }

  /** `v` pictures the whitespace symbols `w`: one glyph for each, in
      order. */
  predicate Depicts(v: string, w: seq<byte>) {
    |v| == |w| && forall i :: 0 <= i < |v| ==> Scan.IsWhite(w[i]) && v[i] == Glyph(w[i])
  }

  /** One more byte adds its picture exactly when it is whitespace. */
  lemma DepictsSnoc(v: string, w: seq<byte>, c: byte)
    requires Depicts(v, w)
    ensures Depicts(v + Picture(c), w + (if Scan.IsWhite(c) then [c] else []))
  {
    if !Scan.IsWhite(c) {
      assert v + Picture(c) == v && w + [] == w;
    }
  }

  /** Two pictures are equal exactly when what they picture is. */
  lemma DepictsSame(va: string, wa: seq<byte>, vb: string, wb: seq<byte>)
    requires Depicts(va, wa) && Depicts(vb, wb)
    ensures va == vb <==> wa == wb
  {
    if va == vb {
      forall i | 0 <= i < |wa|
        ensures wa[i] == wb[i]
      {
        assert Glyph(wa[i]) == Glyph(wb[i]);
      }
    }
  }

  /** The picture shows the whitespace symbols of `code`, in order, one
      character each, and nothing else. */
  lemma {:induction false} VisualizedWs(code: seq<byte>)
    ensures Depicts(Visualized(code), Scan.Ws(code, 0, |code|))
    decreases |code|
  {
    var n := |code|;
    if n > 0 {
      var front, c := code[..n - 1], code[n - 1];
      VisualizedWs(front);
      Scan.WsSplit(code, 0, n - 1, n);
      assert code == front + [c];
      Scan.WsExtend(front, [c], 0, n - 1);
      assert Scan.Ws(code, n - 1, n) == (if Scan.IsWhite(c) then [c] else []) + Scan.Ws(code, n, n);
      assert Scan.Ws(code, n, n) == [];
      DepictsSnoc(Visualized(front), Scan.Ws(front, 0, n - 1), c);
    }
  }

  /** Only `.`, `_` and `,` appear in a picture. */
  lemma VisualizedAlphabet(code: seq<byte>)
    ensures forall i :: 0 <= i < |Visualized(code)| ==> Visualized(code)[i] in {'.', '_', ','}
  {
    VisualizedWs(code);
  }

  /** The picture of a concatenation is the concatenation of the pictures. */
  lemma {:induction false} VisualizedAppend(a: seq<byte>, b: seq<byte>)
    ensures Visualized(a + b) == Visualized(a) + Visualized(b)
    decreases |b|
  {
    if |b| > 0 {
      var b' := b[..|b| - 1];
      assert (a + b)[..|a + b| - 1] == a + b';
      VisualizedAppend(a, b');
    } else {
      assert a + b == a;
    }
  }

  /** Two buffers have the same picture exactly when they hold the same
      whitespace symbols: the prompt shows the pending code faithfully. */
  lemma VisualizedFaithful(a: seq<byte>, b: seq<byte>)
    ensures Visualized(a) == Visualized(b) <==> Scan.Ws(a, 0, |a|) == Scan.Ws(b, 0, |b|)
  {
    VisualizedWs(a);
    VisualizedWs(b);
    DepictsSame(Visualized(a), Scan.Ws(a, 0, |a|), Visualized(b), Scan.Ws(b, 0, |b|));
  }

  // ---------------------------------------------------------------------
  // SwitchBufReader

  /** The reader shared by the prompt and the program: one buffer per
      client, `nil` until first filled, and the one selected.  Each buffer
      is the bytes it still holds; the underlying reader is not part of
      this model. */
  class SwitchBufReader {
    var bufs: seq<Option<seq<byte>>>
    var sel: int

    /** `NewSwitchBufReader(rd, n)`: `n` empty buffers, the first selected. */
    constructor New(n: nat)
      ensures |bufs| == n && sel == 0
      ensures forall i :: 0 <= i < n ==> bufs[i].None?
    {
      bufs := seq(n, _ => None);
      sel := 0;
    }

    /** `Switch(n)`: select buffer `n` if there is one. */
    method Switch(n: int) returns (ok: bool)
      modifies this
      ensures ok <==> 0 <= n < |bufs|
      ensures sel == if ok then n else old(sel)
      ensures bufs == old(bufs)
    {
      if n < 0 || n >= |bufs| {
        return false;
      }
      sel := n;
      return true;
    }
  }

  // ---------------------------------------------------------------------
  // One line of the interactive loop

  /** The code kept for the next prompt after `Load` consumed `l` bytes of
      `buf` (wspace/cmd/wspace/main.go lines 84-89): nothing after an error
      other than `ErrIncompleteCode`, otherwise what was not consumed. */
  function Retained(buf: seq<byte>, l: nat, err: Option<Error>): seq<byte>
    requires l <= |buf|
  {
    if err.Some? && err.value != ErrIncompleteCode then [] else buf[l..]
  }

  /** After a load, nothing is kept unless the code ends in an unfinished
      instruction; then what is kept starts at that instruction's first
      symbol, everything before it having been loaded. */
  lemma KeepsUnfinished(program: seq<OpCodes.OpCode>, labels: map<seq<byte>, nat>, seg: int, buf: seq<byte>)
    ensures Loader.Load(program, labels, seg, buf).err != Some(ErrIncompleteCode) ==>
      Retained(buf, Loader.Load(program, labels, seg, buf).consumed, Loader.Load(program, labels, seg, buf).err) == []
    ensures Loader.Load(program, labels, seg, buf).err == Some(ErrIncompleteCode) ==>
      && Retained(buf, Loader.Load(program, labels, seg, buf).consumed, Loader.Load(program, labels, seg, buf).err)
           == buf[Loader.Load(program, labels, seg, buf).consumed..]
      && Loader.Load(program, labels, seg, buf).consumed < |buf|
      && Scan.IsWhite(buf[Loader.Load(program, labels, seg, buf).consumed])
      && Loader.Decode(buf, Loader.Load(program, labels, seg, buf).consumed) == Loader.Bad(ErrIncompleteCode)
  {
    Loader.LoadFromError(program, labels, seg, buf, 0);
  }

  /** Code typed over two prompts loads as if typed at one.  After `a` is
      loaded, the code kept for the next prompt followed by the next line
      `b` is loaded in the segment `NextSeg` names: when the first load
      ended well or on an unfinished instruction, this agrees with loading
      `a + b` at once on the labels, the error and the bytes consumed, with
      the same opcodes but for their segment and offset; after any other
      error nothing is kept, and loading `a + b` at once stops at that same
      error with the same result. */
  lemma PendingResumes(program: seq<OpCodes.OpCode>, labels: map<seq<byte>, nat>, seg: int, a: seq<byte>, b: seq<byte>)
    ensures var r1 := Loader.Load(program, labels, seg, a);
      var r := Loader.Load(program, labels, seg, a + b);
      var r2 := Loader.Load(r1.program, r1.labels, Loader.NextSeg(seg, r1.consumed), Retained(a, r1.consumed, r1.err) + b);
      (r1.err.None? || r1.err == Some(ErrIncompleteCode)) ==>
        && r.labels == r2.labels && r.err == r2.err && r.consumed == r1.consumed + r2.consumed
        && |r1.program| <= |r.program| && r.program[..|r1.program|] == r1.program
        && Resume.Relocated(r.program, r2.program, |r1.program|, seg, r1.consumed)
    ensures var r1 := Loader.Load(program, labels, seg, a);
      (r1.err.Some? && r1.err != Some(ErrIncompleteCode)) ==>
        Retained(a, r1.consumed, r1.err) == [] && Loader.Load(program, labels, seg, a + b) == r1
  {
    var r1 := Loader.Load(program, labels, seg, a);
    Resume.LoadResumes(program, labels, seg, Loader.NextSeg(seg, r1.consumed), a, b);
    Resume.LoadFromExtend(program, labels, seg, a, b, 0);
  }

  /** Lines 82-89: the line is added to the pending code, the whole of it
      is loaded, and what is kept for the next prompt is decided. */
  method Accept(vm: Wspace.VM, code: seq<byte>, line: seq<byte>)
    returns (pending: seq<byte>, s: int, l: nat, err: Option<Error>)
    modifies vm
    ensures s == old(vm.Seg)
    ensures Loader.LoadResult(vm.Program, vm.Labels, l, err) == Loader.Load(old(vm.Program), old(vm.Labels), old(vm.Seg), code + line)
    ensures vm.Seg == Loader.NextSeg(old(vm.Seg), l)
    ensures vm.State() == old(vm.State()).(program := vm.Program, labels := vm.Labels)
    ensures l <= |code + line| && pending == Retained(code + line, l, err)
  {
    var buf := code + line;
    s, l, err := vm.Load(buf);
    if err.Some? && err.value != ErrIncompleteCode {
      pending := [];
    } else {
      pending := buf[l..];
    }
  }

  /** Lines 96-101: after a failed run the machine is made ready for the
      next segment: `PC` past the program, not terminated, stack, heap and
      call stack kept. */
  method Recover(vm: Wspace.VM)
    modifies vm
    ensures vm.State() == old(vm.State()).(pc := |old(vm.Program)|, terminated := false)
    ensures vm.Seg == old(vm.Seg)
  {
    vm.PC := |vm.Program|;
    vm.Terminated := false;
  }

  /** The machine after a run that ended as `r`: reset when the run
      reported an error, as it was left otherwise. */
  function Settled(r: Machine.StepResult): (m: Machine.State)
    ensures m.program == r.state.program && m.labels == r.state.labels
    ensures m.stack == r.state.stack && m.heap == r.state.heap && m.callStack == r.state.callStack
  {
    if r.outcome.Fail? || r.outcome.IoFail? then r.state.(pc := |r.state.program|, terminated := false)
    else r.state
  }

  /** The machine with the program and labels a load of `buf` leaves. */
  function Loaded(m: Machine.State, seg: int, buf: seq<byte>): (m': Machine.State)
    ensures m'.pc == m.pc && m'.terminated == m.terminated
    ensures m'.stack == m.stack && m'.heap == m.heap && m'.callStack == m.callStack
  {
    m.(program := Loader.Load(m.program, m.labels, seg, buf).program,
       labels := Loader.Load(m.program, m.labels, seg, buf).labels)
  }

  /** Lines 75-101: one line of input, as `ReadLine` returns it: at least
      its LF.  A line that starts with `%` is a command to the interpreter
      and is skipped: the pending code, the machine and the segment count
      stay as they were.  Any other line is loaded with the pending code;
      when something was consumed the machine runs, and a run that reports
      an error is recovered from.  `scan` and `polls` are the run's number
      scanner and context; a run that panics ends the process, and nothing
      is recovered. */
  method Submit(vm: Wspace.VM, code: seq<byte>, line: seq<byte>, io: Machine.Ports, scan: Machine.Scanner, polls: nat)
    returns (pending: seq<byte>, io': Machine.Ports, outcome: Option<Machine.Outcome>)
    requires |line| > 0
    modifies vm
    ensures line[0] == '%' ==>
      pending == code && io' == io && outcome.None? && vm.State() == old(vm.State()) && vm.Seg == old(vm.Seg)
    ensures Loader.Load(old(vm.Program), old(vm.Labels), old(vm.Seg), code + line).consumed <= |code + line|
    ensures line[0] != '%' ==> pending == Retained(code + line,
      Loader.Load(old(vm.Program), old(vm.Labels), old(vm.Seg), code + line).consumed,
      Loader.Load(old(vm.Program), old(vm.Labels), old(vm.Seg), code + line).err)
    ensures line[0] != '%' ==>
      vm.Seg == Loader.NextSeg(old(vm.Seg), Loader.Load(old(vm.Program), old(vm.Labels), old(vm.Seg), code + line).consumed)
    ensures line[0] != '%' && Loader.Load(old(vm.Program), old(vm.Labels), old(vm.Seg), code + line).consumed == 0 ==>
      outcome.None? && io' == io && vm.State() == Loaded(old(vm.State()), old(vm.Seg), code + line)
    ensures line[0] != '%' && Loader.Load(old(vm.Program), old(vm.Labels), old(vm.Seg), code + line).consumed > 0 ==>
      && outcome == Some(Machine.Run(Loaded(old(vm.State()), old(vm.Seg), code + line), io, scan, polls).outcome)
      && io' == Machine.Run(Loaded(old(vm.State()), old(vm.Seg), code + line), io, scan, polls).ports
      && vm.State() == Settled(Machine.Run(Loaded(old(vm.State()), old(vm.Seg), code + line), io, scan, polls))
  {
    if line[0] == '%' {
      return code, io, None;
    }
    var s, l, err;
    pending, s, l, err := Accept(vm, code, line);
    if l == 0 {
      return pending, io, None;
    }
    var o;
    io', o := vm.Run(io, scan, polls);
    if o.Fail? || o.IoFail? {
      Recover(vm);
    }
    return pending, io', Some(o);
  }

  // ---------------------------------------------------------------------
  // What the recovery rule achieves

  /** A run that reported an error leaves `PC` on the failing instruction,
      so the opcode the prompt reports exists; recovering from it leaves a
      machine on which a run executes nothing and reports nothing. */
  lemma RecoveryIsQuiet(m: Machine.State, io: Machine.Ports, scan: Machine.Scanner, polls: nat, io2: Machine.Ports, polls2: nat)
    requires Machine.Run(m, io, scan, polls).outcome.Fail? || Machine.Run(m, io, scan, polls).outcome.IoFail?
    requires Machine.Run(m, io, scan, polls).outcome != Machine.Fail(ErrContextDone)
    requires polls2 > 0
    ensures Machine.Run(m, io, scan, polls).state.pc < |Machine.Run(m, io, scan, polls).state.program|
    ensures Machine.Run(Settled(Machine.Run(m, io, scan, polls)), io2, scan, polls2)
      == Machine.StepResult(Settled(Machine.Run(m, io, scan, polls)), io2, Machine.Ok)
  {
    Machine.RunFaultsAtPC(m, io, scan, polls);
    var s := Settled(Machine.Run(m, io, scan, polls));
    Machine.RunTurns(s, io2, scan, polls2);
  }

  /** After recovery the next segment runs from its own first opcode: the
      program only grows, and `PC` lands on the first opcode the load
      appends, which carries the new segment number. */
  lemma ResumesAtNewSegment(m: Machine.State, seg: int, buf: seq<byte>)
    requires m.pc == |m.program|
    ensures |Loaded(m, seg, buf).program| >= |m.program|
    ensures Loaded(m, seg, buf).program[..|m.program|] == m.program
    ensures m.pc < |Loaded(m, seg, buf).program| ==> Loaded(m, seg, buf).program[m.pc].seg == seg
  {
    Loader.LoadFromKeeps(m.program, m.labels, seg, buf, 0);
    Loader.LoadFromNew(m.program, m.labels, seg, buf, 0);
  }
}
