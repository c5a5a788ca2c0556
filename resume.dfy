/** `Load` is resumable (wspace/vm.go `Load`, wspace/cmd/wspace/main.go lines
    82-89): code cut anywhere, loaded in two calls with the unconsumed tail
    carried over, loads as the whole code in one call.

    Two facts about the scanners make this work.  Reading never looks past
    what it needs: a scan that succeeds on `s` succeeds in the same way on
    `s + t` ("extend").  And a scan depends only on the tail it reads: on
    `x + y` at `|x| + k` it reads what it reads on `y` at `k`, absolute
    offsets moving by `|x|` ("shift").  For `Decode` the first gives
    `DecodeExtends`: only `ErrIncompleteCode` can change when more code
    arrives; and so an instruction cut short always reports
    `ErrIncompleteCode` (`DecodeCut`). */
module Resume {
  import opened Words
  import opened Errors
  import opened Wrappers
  import opened OpCodes
  import Scan
  import opened Loader

  // ---------------------------------------------------------------------
  // The scanners

  /** A whitespace symbol found in `s` is the one found in `s + t`; when
      `s` has none from `k` on, the search goes on where `t` starts. */
  lemma {:induction false} NextWhiteExtend(s: seq<byte>, t: seq<byte>, k: nat)
    requires k <= |s|
    ensures Scan.NextWhite(s, k) >= 0 ==> Scan.NextWhite(s + t, k) == Scan.NextWhite(s, k)
    ensures Scan.NextWhite(s, k) < 0 ==> Scan.NextWhite(s + t, k) == Scan.NextWhite(s + t, |s|)
    decreases |s| - k
  {
    if k < |s| {
      assert (s + t)[k] == s[k];
      NextWhiteExtend(s, t, k + 1);
    }
  }

  /** The search from `|x| + k` in `x + y` is the search from `k` in `y`. */
  lemma {:induction false} NextWhiteShift(x: seq<byte>, y: seq<byte>, k: nat)
    requires k <= |y|
    ensures Scan.NextWhite(x + y, |x| + k)
      == if Scan.NextWhite(y, k) < 0 then -1 else |x| + Scan.NextWhite(y, k)
    decreases |y| - k
  {
    if k < |y| {
      assert (x + y)[|x| + k] == y[k];
      NextWhiteShift(x, y, k + 1);
    }
  }

  /** `findWhite` that finds a symbol in `s` finds the same in `s + t`. */
  lemma FindWhiteExtend(s: seq<byte>, t: seq<byte>, k: nat)
    requires k <= |s|
    ensures Scan.FindWhite(s, k).1 >= 0 ==> Scan.FindWhite(s + t, k) == Scan.FindWhite(s, k)
  {
    NextWhiteExtend(s, t, k);
    if Scan.NextWhite(s, k) >= 0 {
      assert (s + t)[Scan.NextWhite(s, k)] == s[Scan.NextWhite(s, k)];
    }
  }

  /** `findWhite` on a tail does not see what precedes it. */
  lemma FindWhiteShift(x: seq<byte>, y: seq<byte>, k: nat)
    requires k <= |y|
    ensures Scan.FindWhite(x + y, |x| + k) == Scan.FindWhite(y, k)
  {
    NextWhiteShift(x, y, k);
    if Scan.NextWhite(y, k) >= 0 {
      assert (x + y)[|x| + Scan.NextWhite(y, k)] == y[Scan.NextWhite(y, k)];
    }
  }

  /** The loop of `read3code`, when it completes in `s`, is the same in `s + t`. */
  lemma {:induction false} ThreeFromExtend(s: seq<byte>, t: seq<byte>, cur: nat, i: nat, acc: seq<byte>)
    requires cur <= |s| && i <= 3
    ensures Scan.ThreeFrom(s, cur, i, acc).1 >= 0 ==> Scan.ThreeFrom(s + t, cur, i, acc) == Scan.ThreeFrom(s, cur, i, acc)
    decreases 3 - i
  {
    if i < 3 {
      var j := Scan.NextWhite(s, cur);
      NextWhiteExtend(s, t, cur);
      if j >= 0 {
        assert (s + t)[j] == s[j];
        Scan.ThreeFromNext(s, cur, i, acc);
        Scan.ThreeFromNext(s + t, cur, i, acc);
        ThreeFromExtend(s, t, j + 1, i + 1, acc + [s[j]]);
      }
    }
  }

  /** The loop of `read3code` from `|x| + cur` in `x + y` reads what it
      reads from `cur` in `y`, and ends `|x|` further on. */
  predicate ThreeShifted(x: seq<byte>, y: seq<byte>, cur: nat, i: nat, acc: seq<byte>)
    requires cur <= |y| && i <= 3
  {
    && Scan.ThreeFrom(x + y, |x| + cur, i, acc).0 == Scan.ThreeFrom(y, cur, i, acc).0
    && Scan.ThreeFrom(x + y, |x| + cur, i, acc).1
         == if Scan.ThreeFrom(y, cur, i, acc).1 < 0 then -1 else |x| + Scan.ThreeFrom(y, cur, i, acc).1
  }

  /** The loop of `read3code` on a tail, its end offset moved by `|x|`. */
  lemma {:induction false} ThreeFromShift(x: seq<byte>, y: seq<byte>, cur: nat, i: nat, acc: seq<byte>)
    requires cur <= |y| && i <= 3
    ensures ThreeShifted(x, y, cur, i, acc)
    decreases 3 - i
  {
    if i < 3 {
      var j := Scan.NextWhite(y, cur);
      NextWhiteShift(x, y, cur);
      if j >= 0 {
        assert (x + y)[|x| + j] == y[j];
        ThreeFromShift(x, y, j + 1, i + 1, acc + [y[j]]);
        ThreeShiftedStep(x, y, cur, i, acc, j);
      }
    }
  }

  /** A turn that finds a symbol in `y` finds it, `|x|` further on, in `x + y`. */
  lemma ThreeShiftedStep(x: seq<byte>, y: seq<byte>, cur: nat, i: nat, acc: seq<byte>, j: nat)
    requires cur <= |y| && i < 3 && Scan.NextWhite(y, cur) == j && j < |y|
    requires Scan.NextWhite(x + y, |x| + cur) == |x| + j && (x + y)[|x| + j] == y[j]
    requires ThreeShifted(x, y, j + 1, i + 1, acc + [y[j]])
    ensures ThreeShifted(x, y, cur, i, acc)
  {
    var acc' := acc + [y[j]];
    var r := Scan.ThreeFrom(y, j + 1, i + 1, acc');
    var q := Scan.ThreeFrom(x + y, |x| + (j + 1), i + 1, acc');
    ThreeFromAt(y, cur, i, acc, j, y[j], j + 1);
    assert Scan.ThreeFrom(y, cur, i, acc) == r;
    ThreeFromAt(x + y, |x| + cur, i, acc, |x| + j, y[j], |x| + (j + 1));
    assert Scan.ThreeFrom(x + y, |x| + cur, i, acc) == q;
  }

  /** One turn of the loop of `read3code` that finds the symbol `c` at `j`. */
  lemma ThreeFromAt(s: seq<byte>, cur: nat, i: nat, acc: seq<byte>, j: nat, c: byte, next: nat)
    requires cur <= |s| && i < 3 && Scan.NextWhite(s, cur) == j && j < |s| && s[j] == c && next == j + 1
    ensures Scan.ThreeFrom(s, cur, i, acc) == Scan.ThreeFrom(s, next, i + 1, acc + [c])
  {
  }

  /** `read3code` that reads three symbols in `s` reads them in `s + t`. */
  lemma Read3CodeExtend(s: seq<byte>, t: seq<byte>, k: nat)
    requires k <= |s|
    ensures Scan.Read3Code(s, k).1 > 0 ==> Scan.Read3Code(s + t, k) == Scan.Read3Code(s, k)
  {
    ThreeFromExtend(s, t, k, 0, []);
  }

  /** `read3code` on a tail does not see what precedes it. */
  lemma Read3CodeShift(x: seq<byte>, y: seq<byte>, k: nat)
    requires k <= |y|
    ensures Scan.Read3Code(x + y, |x| + k) == Scan.Read3Code(y, k)
  {
    ThreeFromShift(x, y, k, 0, []);
  }

  /** The digit loop, unless it runs out of code in `s`, does the same in
      `s + t`. */
  predicate DigitsExtended(s: seq<byte>, t: seq<byte>, cur: nat, n: nat)
    requires cur <= |s| && n <= MaxInt
  {
    Scan.DigitsFrom(s, cur, n).2 != Some(ErrIncompleteCode) ==>
      Scan.DigitsFrom(s + t, cur, n) == Scan.DigitsFrom(s, cur, n)
  }

  /** The digit loop, unless it runs out of code in `s`, does the same in
      `s + t`: an overflow is found in the digits already there. */
  lemma {:induction false} DigitsFromExtend(s: seq<byte>, t: seq<byte>, cur: nat, n: nat)
    requires cur <= |s| && n <= MaxInt
    ensures DigitsExtended(s, t, cur, n)
    decreases |s| - cur
  {
    var w := Scan.FindWhite(s, cur);
    FindWhiteExtend(s, t, cur);
    if w.1 >= 0 && w.0 != LF && n <= Scan.HalfMaxInt {
      Scan.DigitsStep(s, cur, n);
      var next, n' := cur + w.1 + 1, 2 * n + Scan.Bit(w.0);
      DigitsFromExtend(s, t, next, n');
      DigitsExtendedStep(s, t, cur, n, next, n');
    } else {
      DigitsExtendedLast(s, t, cur, n);
    }
  }

  /** A digit below the guard is read in both, and the loops go on. */
  lemma DigitsExtendedStep(s: seq<byte>, t: seq<byte>, cur: nat, n: nat, next: nat, n': nat)
    requires cur <= |s| && n <= Scan.HalfMaxInt
    requires Scan.FindWhite(s, cur).1 >= 0 && Scan.FindWhite(s, cur).0 != LF
    requires Scan.FindWhite(s + t, cur) == Scan.FindWhite(s, cur)
    requires next == cur + Scan.FindWhite(s, cur).1 + 1 && n' == 2 * n + Scan.Bit(Scan.FindWhite(s, cur).0)
    requires next <= |s| && n' <= MaxInt && DigitsExtended(s, t, next, n')
    ensures DigitsExtended(s, t, cur, n)
  {
    var r := Scan.DigitsFrom(s, next, n');
    var q := Scan.DigitsFrom(s + t, next, n');
    Scan.DigitsStep(s, cur, n);
    assert Scan.DigitsFrom(s, cur, n) == r;
    Scan.DigitsStep(s + t, cur, n);
    assert Scan.DigitsFrom(s + t, cur, n) == q;
  }

  /** The turn that ends the digit loop in `s`, unless it runs out of code,
      ends it the same way in `s + t`. */
  lemma DigitsExtendedLast(s: seq<byte>, t: seq<byte>, cur: nat, n: nat)
    requires cur <= |s| && n <= MaxInt
    requires Scan.FindWhite(s, cur).1 >= 0 ==> Scan.FindWhite(s + t, cur) == Scan.FindWhite(s, cur)
    requires !(Scan.FindWhite(s, cur).1 >= 0 && Scan.FindWhite(s, cur).0 != LF && n <= Scan.HalfMaxInt)
    ensures DigitsExtended(s, t, cur, n)
  {
  }

  /** The digit loop from `|x| + cur` in `x + y` computes what it computes
      from `cur` in `y`, and ends `|x|` further on. */
  predicate DigitsShifted(x: seq<byte>, y: seq<byte>, cur: nat, n: nat)
    requires cur <= |y| && n <= MaxInt
  {
    var r := Scan.DigitsFrom(y, cur, n);
    Scan.DigitsFrom(x + y, |x| + cur, n) == if r.2.Some? then r else (r.0, |x| + r.1, None)
  }

  /** The digit loop on a tail, its end offset moved by `|x|`. */
  lemma {:induction false} DigitsFromShift(x: seq<byte>, y: seq<byte>, cur: nat, n: nat)
    requires cur <= |y| && n <= MaxInt
    ensures DigitsShifted(x, y, cur, n)
    decreases |y| - cur
  {
    var w := Scan.FindWhite(y, cur);
    FindWhiteShift(x, y, cur);
    if w.1 >= 0 && w.0 != LF && n <= Scan.HalfMaxInt {
      Scan.DigitsStep(y, cur, n);
      var next, n' := cur + w.1 + 1, 2 * n + Scan.Bit(w.0);
      DigitsFromShift(x, y, next, n');
      DigitsShiftedStep(x, y, cur, n, next, n');
    } else {
      DigitsShiftedLast(x, y, cur, n);
    }
  }

  /** A digit below the guard is read in both, and the loops go on. */
  lemma DigitsShiftedStep(x: seq<byte>, y: seq<byte>, cur: nat, n: nat, next: nat, n': nat)
    requires cur <= |y| && n <= Scan.HalfMaxInt
    requires Scan.FindWhite(x + y, |x| + cur) == Scan.FindWhite(y, cur)
    requires Scan.FindWhite(y, cur).1 >= 0 && Scan.FindWhite(y, cur).0 != LF
    requires next == cur + Scan.FindWhite(y, cur).1 + 1 && n' == 2 * n + Scan.Bit(Scan.FindWhite(y, cur).0)
    requires next <= |y| && n' <= MaxInt && DigitsShifted(x, y, next, n')
    ensures DigitsShifted(x, y, cur, n)
  {
    var r := Scan.DigitsFrom(y, next, n');
    var q := Scan.DigitsFrom(x + y, |x| + next, n');
    Scan.DigitsStep(y, cur, n);
    assert Scan.DigitsFrom(y, cur, n) == r;
    Scan.DigitsStep(x + y, |x| + cur, n);
    assert Scan.DigitsFrom(x + y, |x| + cur, n) == q;
  }

  /** The turn that ends the digit loop ends both, the same way. */
  lemma DigitsShiftedLast(x: seq<byte>, y: seq<byte>, cur: nat, n: nat)
    requires cur <= |y| && n <= MaxInt
    requires Scan.FindWhite(x + y, |x| + cur) == Scan.FindWhite(y, cur)
    requires !(Scan.FindWhite(y, cur).1 >= 0 && Scan.FindWhite(y, cur).0 != LF && n <= Scan.HalfMaxInt)
    ensures DigitsShifted(x, y, cur, n)
  {
  }

  /** `readNum`, unless it runs out of code in `s`, reads the same in `s + t`. */
  lemma ReadNumExtend(s: seq<byte>, t: seq<byte>, k: nat)
    requires k <= |s|
    ensures Scan.ReadNum(s, k).2 != Some(ErrIncompleteCode) ==> Scan.ReadNum(s + t, k) == Scan.ReadNum(s, k)
  {
    var w := Scan.FindWhite(s, k);
    FindWhiteExtend(s, t, k);
    if w.1 >= 0 && w.0 != LF {
      DigitsFromExtend(s, t, k + w.1 + 1, 0);
    }
  }

  /** `readNum` on a tail does not see what precedes it. */
  lemma ReadNumShift(x: seq<byte>, y: seq<byte>, k: nat)
    requires k <= |y|
    ensures Scan.ReadNum(x + y, |x| + k) == Scan.ReadNum(y, k)
  {
    var w := Scan.FindWhite(y, k);
    FindWhiteShift(x, y, k);
    if w.1 >= 0 && w.0 != LF {
      DigitsFromShift(x, y, k + w.1 + 1, 0);
    }
  }

  /** The loop of `readLabel`, when it finds its LF in `s`, is the same in `s + t`. */
  lemma {:induction false} LabelFromExtend(s: seq<byte>, t: seq<byte>, read: nat, l: seq<byte>)
    requires read <= |s|
    ensures Scan.LabelFrom(s, read, l).2.None? ==> Scan.LabelFrom(s + t, read, l) == Scan.LabelFrom(s, read, l)
    decreases |s| - read
  {
    var w := Scan.FindWhite(s, read);
    FindWhiteExtend(s, t, read);
    if w.1 >= 0 && w.0 != LF {
      LabelFromExtend(s, t, read + w.1 + 1, l + [w.0]);
    }
  }

  /** The loop of `readLabel` on a tail, its end offset moved by `|x|`. */
  lemma {:induction false} LabelFromShift(x: seq<byte>, y: seq<byte>, read: nat, l: seq<byte>)
    requires read <= |y|
    ensures var r := Scan.LabelFrom(y, read, l);
      Scan.LabelFrom(x + y, |x| + read, l) == if r.2.Some? then r else (r.0, |x| + r.1, None)
    decreases |y| - read
  {
    var w := Scan.FindWhite(y, read);
    FindWhiteShift(x, y, read);
    if w.1 >= 0 && w.0 != LF {
      LabelFromShift(x, y, read + w.1 + 1, l + [w.0]);
    }
  }

  /** `readLabel` that finds its LF in `s` reads the same label in `s + t`. */
  lemma ReadLabelExtend(s: seq<byte>, t: seq<byte>, k: nat)
    requires k <= |s|
    ensures Scan.ReadLabel(s, k).2.None? ==> Scan.ReadLabel(s + t, k) == Scan.ReadLabel(s, k)
  {
    LabelFromExtend(s, t, k, []);
  }

  /** `readLabel` on a tail does not see what precedes it. */
  lemma ReadLabelShift(x: seq<byte>, y: seq<byte>, k: nat)
    requires k <= |y|
    ensures Scan.ReadLabel(x + y, |x| + k) == Scan.ReadLabel(y, k)
  {
    LabelFromShift(x, y, k, []);
  }

  // ---------------------------------------------------------------------
  // One instruction

  /** A number parameter read in full in `s` reads the same in `s + t`. */
  lemma WithNumberExtend(cmd: Command, s: seq<byte>, t: seq<byte>, at: nat, read: nat)
    requires at <= |s|
    ensures WithNumber(cmd, s, at, read) != Bad(ErrIncompleteCode) ==>
      WithNumber(cmd, s + t, at, read) == WithNumber(cmd, s, at, read)
  {
    ReadNumExtend(s, t, at);
  }

  /** A label parameter read in full in `s` reads the same in `s + t`. */
  lemma WithLabelExtend(cmd: Command, s: seq<byte>, t: seq<byte>, at: nat, read: nat)
    requires at <= |s|
    ensures WithLabel(cmd, s, at, read) != Bad(ErrIncompleteCode) ==>
      WithLabel(cmd, s + t, at, read) == WithLabel(cmd, s, at, read)
  {
    ReadLabelExtend(s, t, at);
  }

  /** A fourth symbol found in `s` is the one found in `s + t`. */
  lemma WithFourthExtend(s: seq<byte>, t: seq<byte>, at: nat, read: nat, sp: Command, tab: Command, lf: Command)
    requires at <= |s|
    ensures WithFourth(s, at, read, sp, tab, lf) != Bad(ErrIncompleteCode) ==>
      WithFourth(s + t, at, read, sp, tab, lf) == WithFourth(s, at, read, sp, tab, lf)
  {
    FindWhiteExtend(s, t, at);
  }

  lemma StackGroupExtend(s: seq<byte>, t: seq<byte>, pos: nat, read: nat, b: byte, c: byte)
    requires 3 <= read && pos + read <= |s|
    ensures StackGroup(s, pos, read, b, c) != Bad(ErrIncompleteCode) ==>
      StackGroup(s + t, pos, read, b, c) == StackGroup(s, pos, read, b, c)
  {
    if b == SP && (c == SP || c == TAB) {
      PushExtend(s, t, pos, read);
    } else if b == TAB && c == SP {
      CopyExtend(s, t, pos, read);
    } else if b == TAB && c == LF {
      SlideExtend(s, t, pos, read);
    }
  }

  /** `StackGroupExtend` for push. */
  lemma PushExtend(s: seq<byte>, t: seq<byte>, pos: nat, read: nat)
    requires 3 <= read && pos + read <= |s|
    ensures StackGroup(s, pos, read, ' ', ' ') != Bad(ErrIncompleteCode) ==>
      StackGroup(s + t, pos, read, ' ', ' ') == StackGroup(s, pos, read, ' ', ' ')
    ensures StackGroup(s, pos, read, ' ', '\t') != Bad(ErrIncompleteCode) ==>
      StackGroup(s + t, pos, read, ' ', '\t') == StackGroup(s, pos, read, ' ', '\t')
  {
    WithNumberExtend(Push, s, t, pos + read - 1, read - 1);
  }

  /** `StackGroupExtend` for copy. */
  lemma CopyExtend(s: seq<byte>, t: seq<byte>, pos: nat, read: nat)
    requires 3 <= read && pos + read <= |s|
    ensures StackGroup(s, pos, read, '\t', ' ') != Bad(ErrIncompleteCode) ==>
      StackGroup(s + t, pos, read, '\t', ' ') == StackGroup(s, pos, read, '\t', ' ')
  {
    WithNumberExtend(Copy, s, t, pos + read, read);
  }

  /** `StackGroupExtend` for slide. */
  lemma SlideExtend(s: seq<byte>, t: seq<byte>, pos: nat, read: nat)
    requires 3 <= read && pos + read <= |s|
    ensures StackGroup(s, pos, read, '\t', '\n') != Bad(ErrIncompleteCode) ==>
      StackGroup(s + t, pos, read, '\t', '\n') == StackGroup(s, pos, read, '\t', '\n')
  {
    WithNumberExtend(Slide, s, t, pos + read, read);
  }

  lemma TabGroupExtend(s: seq<byte>, t: seq<byte>, pos: nat, read: nat, b: byte, c: byte)
    requires 3 <= read && pos + read <= |s|
    ensures TabGroup(s, pos, read, b, c) != Bad(ErrIncompleteCode) ==>
      TabGroup(s + t, pos, read, b, c) == TabGroup(s, pos, read, b, c)
  {
    if b == SP && c == SP {
      ArithExtend(s, t, pos, read);
    } else if b == SP && c == TAB {
      DivModExtend(s, t, pos, read);
    } else if b == LF && c == SP {
      OutputExtend(s, t, pos, read);
    } else if b == LF && c == TAB {
      InputExtend(s, t, pos, read);
    }
  }

  /** `TabGroupExtend` for add, sub and mul. */
  lemma ArithExtend(s: seq<byte>, t: seq<byte>, pos: nat, read: nat)
    requires 3 <= read && pos + read <= |s|
    ensures TabGroup(s, pos, read, ' ', ' ') != Bad(ErrIncompleteCode) ==>
      TabGroup(s + t, pos, read, ' ', ' ') == TabGroup(s, pos, read, ' ', ' ')
  {
    WithFourthExtend(s, t, pos + read, read, Add, Sub, Mul);
  }

  /** `TabGroupExtend` for div and mod. */
  lemma DivModExtend(s: seq<byte>, t: seq<byte>, pos: nat, read: nat)
    requires 3 <= read && pos + read <= |s|
    ensures TabGroup(s, pos, read, ' ', '\t') != Bad(ErrIncompleteCode) ==>
      TabGroup(s + t, pos, read, ' ', '\t') == TabGroup(s, pos, read, ' ', '\t')
  {
    WithFourthExtend(s, t, pos + read, read, Div, Mod, NoCommand);
  }

  /** `TabGroupExtend` for the writes. */
  lemma OutputExtend(s: seq<byte>, t: seq<byte>, pos: nat, read: nat)
    requires 3 <= read && pos + read <= |s|
    ensures TabGroup(s, pos, read, '\n', ' ') != Bad(ErrIncompleteCode) ==>
      TabGroup(s + t, pos, read, '\n', ' ') == TabGroup(s, pos, read, '\n', ' ')
  {
    WithFourthExtend(s, t, pos + read, read, WriteChar, WriteNum, NoCommand);
  }

  /** `TabGroupExtend` for the reads. */
  lemma InputExtend(s: seq<byte>, t: seq<byte>, pos: nat, read: nat)
    requires 3 <= read && pos + read <= |s|
    ensures TabGroup(s, pos, read, '\n', '\t') != Bad(ErrIncompleteCode) ==>
      TabGroup(s + t, pos, read, '\n', '\t') == TabGroup(s, pos, read, '\n', '\t')
  {
    WithFourthExtend(s, t, pos + read, read, ReadChar, ReadNum, NoCommand);
  }

  lemma FlowGroupExtend(s: seq<byte>, t: seq<byte>, pos: nat, read: nat, b: byte, c: byte)
    requires 3 <= read && pos + read <= |s|
    ensures FlowGroup(s, pos, read, b, c) != Bad(ErrIncompleteCode) ==>
      FlowGroup(s + t, pos, read, b, c) == FlowGroup(s, pos, read, b, c)
  {
    if b == SP && c == SP {
      MarkExtend(s, t, pos, read);
    } else if b == SP && c == TAB {
      CallExtend(s, t, pos, read);
    } else if b == SP && c == LF {
      JumpExtend(s, t, pos, read);
    } else if b == TAB && c == SP {
      JZeroExtend(s, t, pos, read);
    } else if b == TAB && c == TAB {
      JNegExtend(s, t, pos, read);
    }
  }

  /** `FlowGroupExtend` for mark. */
  lemma MarkExtend(s: seq<byte>, t: seq<byte>, pos: nat, read: nat)
    requires 3 <= read && pos + read <= |s|
    ensures FlowGroup(s, pos, read, ' ', ' ') != Bad(ErrIncompleteCode) ==>
      FlowGroup(s + t, pos, read, ' ', ' ') == FlowGroup(s, pos, read, ' ', ' ')
  {
    WithLabelExtend(Mark, s, t, pos + read, read);
  }

  /** `FlowGroupExtend` for call. */
  lemma CallExtend(s: seq<byte>, t: seq<byte>, pos: nat, read: nat)
    requires 3 <= read && pos + read <= |s|
    ensures FlowGroup(s, pos, read, ' ', '\t') != Bad(ErrIncompleteCode) ==>
      FlowGroup(s + t, pos, read, ' ', '\t') == FlowGroup(s, pos, read, ' ', '\t')
  {
    WithLabelExtend(Call, s, t, pos + read, read);
  }

  /** `FlowGroupExtend` for jump. */
  lemma JumpExtend(s: seq<byte>, t: seq<byte>, pos: nat, read: nat)
    requires 3 <= read && pos + read <= |s|
    ensures FlowGroup(s, pos, read, ' ', '\n') != Bad(ErrIncompleteCode) ==>
      FlowGroup(s + t, pos, read, ' ', '\n') == FlowGroup(s, pos, read, ' ', '\n')
  {
    WithLabelExtend(Jump, s, t, pos + read, read);
  }

  /** `FlowGroupExtend` for jump if zero. */
  lemma JZeroExtend(s: seq<byte>, t: seq<byte>, pos: nat, read: nat)
    requires 3 <= read && pos + read <= |s|
    ensures FlowGroup(s, pos, read, '\t', ' ') != Bad(ErrIncompleteCode) ==>
      FlowGroup(s + t, pos, read, '\t', ' ') == FlowGroup(s, pos, read, '\t', ' ')
  {
    WithLabelExtend(JZero, s, t, pos + read, read);
  }

  /** `FlowGroupExtend` for jump if negative. */
  lemma JNegExtend(s: seq<byte>, t: seq<byte>, pos: nat, read: nat)
    requires 3 <= read && pos + read <= |s|
    ensures FlowGroup(s, pos, read, '\t', '\t') != Bad(ErrIncompleteCode) ==>
      FlowGroup(s + t, pos, read, '\t', '\t') == FlowGroup(s, pos, read, '\t', '\t')
  {
    WithLabelExtend(JNeg, s, t, pos + read, read);
  }

  /** More code changes nothing about an instruction but `ErrIncompleteCode`:
      whatever else `Decode` finds at `pos` in `s`, an instruction, an
      invalid code or an overflow, it finds the same in `s + t`. */
  lemma DecodeExtends(s: seq<byte>, t: seq<byte>, pos: nat)
    requires pos <= |s|
    ensures Decode(s, pos) != Bad(ErrIncompleteCode) ==> Decode(s + t, pos) == Decode(s, pos)
  {
    var r := Scan.Read3Code(s, pos);
    Read3CodeExtend(s, t, pos);
    if r.1 > 0 {
      StackGroupExtend(s, t, pos, r.1, r.0[1], r.0[2]);
      TabGroupExtend(s, t, pos, r.1, r.0[1], r.0[2]);
      FlowGroupExtend(s, t, pos, r.1, r.0[1], r.0[2]);
    }
  }

  /** An instruction cut short is `ErrIncompleteCode`: when the instruction
      at `pos` in `s + t` runs past the end of `s`, `Decode` reports
      `ErrIncompleteCode` on `s`. */
  lemma DecodeCut(s: seq<byte>, t: seq<byte>, pos: nat)
    requires pos <= |s|
    ensures Decode(s + t, pos).Instr? && pos + Decode(s + t, pos).read > |s| ==>
      Decode(s, pos) == Bad(ErrIncompleteCode)
  {
    DecodeExtends(s, t, pos);
  }

  /** A number parameter on a tail does not see what precedes it. */
  lemma WithNumberShift(cmd: Command, x: seq<byte>, y: seq<byte>, at: nat, read: nat, xat: nat)
    requires at <= |y| && xat == |x| + at
    ensures WithNumber(cmd, x + y, xat, read) == WithNumber(cmd, y, at, read)
  {
    ReadNumShift(x, y, at);
  }

  /** A label parameter on a tail does not see what precedes it. */
  lemma WithLabelShift(cmd: Command, x: seq<byte>, y: seq<byte>, at: nat, read: nat, xat: nat)
    requires at <= |y| && xat == |x| + at
    ensures WithLabel(cmd, x + y, xat, read) == WithLabel(cmd, y, at, read)
  {
    ReadLabelShift(x, y, at);
  }

  /** A fourth symbol on a tail does not see what precedes it. */
  lemma WithFourthShift(x: seq<byte>, y: seq<byte>, at: nat, xat: nat, read: nat, sp: Command, tab: Command, lf: Command)
    requires at <= |y| && xat == |x| + at
    ensures WithFourth(x + y, xat, read, sp, tab, lf) == WithFourth(y, at, read, sp, tab, lf)
  {
    FindWhiteShift(x, y, at);
  }

  lemma StackGroupShift(x: seq<byte>, y: seq<byte>, pos: nat, read: nat, b: byte, c: byte)
    requires 3 <= read && pos + read <= |y|
    ensures StackGroup(x + y, |x| + pos, read, b, c) == StackGroup(y, pos, read, b, c)
  {
    if b == SP && (c == SP || c == TAB) {
      PushShift(x, y, pos, read);
    } else if b == TAB && c == SP {
      CopyShift(x, y, pos, read);
    } else if b == TAB && c == LF {
      SlideShift(x, y, pos, read);
    }
  }

  /** `StackGroupShift` for push. */
  lemma PushShift(x: seq<byte>, y: seq<byte>, pos: nat, read: nat)
    requires 3 <= read && pos + read <= |y|
    ensures StackGroup(x + y, |x| + pos, read, ' ', ' ') == StackGroup(y, pos, read, ' ', ' ')
    ensures StackGroup(x + y, |x| + pos, read, ' ', '\t') == StackGroup(y, pos, read, ' ', '\t')
  {
    assert StackGroup(y, pos, read, ' ', ' ') == WithNumber(Push, y, pos + read - 1, read - 1);
    assert StackGroup(x + y, |x| + pos, read, ' ', ' ') == WithNumber(Push, x + y, |x| + pos + read - 1, read - 1);
    WithNumberShift(Push, x, y, pos + read - 1, read - 1, |x| + pos + read - 1);
  }

  /** `StackGroupShift` for copy. */
  lemma CopyShift(x: seq<byte>, y: seq<byte>, pos: nat, read: nat)
    requires 3 <= read && pos + read <= |y|
    ensures StackGroup(x + y, |x| + pos, read, '\t', ' ') == StackGroup(y, pos, read, '\t', ' ')
  {
    WithNumberShift(Copy, x, y, pos + read, read, |x| + pos + read);
  }

  /** `StackGroupShift` for slide. */
  lemma SlideShift(x: seq<byte>, y: seq<byte>, pos: nat, read: nat)
    requires 3 <= read && pos + read <= |y|
    ensures StackGroup(x + y, |x| + pos, read, '\t', '\n') == StackGroup(y, pos, read, '\t', '\n')
  {
    WithNumberShift(Slide, x, y, pos + read, read, |x| + pos + read);
  }

  lemma TabGroupShift(x: seq<byte>, y: seq<byte>, pos: nat, read: nat, b: byte, c: byte)
    requires 3 <= read && pos + read <= |y|
    ensures TabGroup(x + y, |x| + pos, read, b, c) == TabGroup(y, pos, read, b, c)
  {
    if b == SP && c == SP {
      ArithShift(x, y, pos, read);
    } else if b == SP && c == TAB {
      DivModShift(x, y, pos, read);
    } else if b == LF && c == SP {
      OutputShift(x, y, pos, read);
    } else if b == LF && c == TAB {
      InputShift(x, y, pos, read);
    }
  }

  /** `TabGroupShift` for add, sub and mul. */
  lemma ArithShift(x: seq<byte>, y: seq<byte>, pos: nat, read: nat)
    requires 3 <= read && pos + read <= |y|
    ensures TabGroup(x + y, |x| + pos, read, ' ', ' ') == TabGroup(y, pos, read, ' ', ' ')
  {
    WithFourthShift(x, y, pos + read, |x| + pos + read, read, Add, Sub, Mul);
  }

  /** `TabGroupShift` for div and mod. */
  lemma DivModShift(x: seq<byte>, y: seq<byte>, pos: nat, read: nat)
    requires 3 <= read && pos + read <= |y|
    ensures TabGroup(x + y, |x| + pos, read, ' ', '\t') == TabGroup(y, pos, read, ' ', '\t')
  {
    WithFourthShift(x, y, pos + read, |x| + pos + read, read, Div, Mod, NoCommand);
  }

  /** `TabGroupShift` for the writes. */
  lemma OutputShift(x: seq<byte>, y: seq<byte>, pos: nat, read: nat)
    requires 3 <= read && pos + read <= |y|
    ensures TabGroup(x + y, |x| + pos, read, '\n', ' ') == TabGroup(y, pos, read, '\n', ' ')
  {
    WithFourthShift(x, y, pos + read, |x| + pos + read, read, WriteChar, WriteNum, NoCommand);
  }

  /** `TabGroupShift` for the reads. */
  lemma InputShift(x: seq<byte>, y: seq<byte>, pos: nat, read: nat)
    requires 3 <= read && pos + read <= |y|
    ensures TabGroup(x + y, |x| + pos, read, '\n', '\t') == TabGroup(y, pos, read, '\n', '\t')
  {
    WithFourthShift(x, y, pos + read, |x| + pos + read, read, ReadChar, ReadNum, NoCommand);
  }

  lemma FlowGroupShift(x: seq<byte>, y: seq<byte>, pos: nat, read: nat, b: byte, c: byte)
    requires 3 <= read && pos + read <= |y|
    ensures FlowGroup(x + y, |x| + pos, read, b, c) == FlowGroup(y, pos, read, b, c)
  {
    if b == SP && c == SP {
      MarkShift(x, y, pos, read);
    } else if b == SP && c == TAB {
      CallShift(x, y, pos, read);
    } else if b == SP && c == LF {
      JumpShift(x, y, pos, read);
    } else if b == TAB && c == SP {
      JZeroShift(x, y, pos, read);
    } else if b == TAB && c == TAB {
      JNegShift(x, y, pos, read);
    }
  }

  /** `FlowGroupShift` for mark. */
  lemma MarkShift(x: seq<byte>, y: seq<byte>, pos: nat, read: nat)
    requires 3 <= read && pos + read <= |y|
    ensures FlowGroup(x + y, |x| + pos, read, ' ', ' ') == FlowGroup(y, pos, read, ' ', ' ')
  {
    WithLabelShift(Mark, x, y, pos + read, read, |x| + pos + read);
  }

  /** `FlowGroupShift` for call. */
  lemma CallShift(x: seq<byte>, y: seq<byte>, pos: nat, read: nat)
    requires 3 <= read && pos + read <= |y|
    ensures FlowGroup(x + y, |x| + pos, read, ' ', '\t') == FlowGroup(y, pos, read, ' ', '\t')
  {
    WithLabelShift(Call, x, y, pos + read, read, |x| + pos + read);
  }

  /** `FlowGroupShift` for jump. */
  lemma JumpShift(x: seq<byte>, y: seq<byte>, pos: nat, read: nat)
    requires 3 <= read && pos + read <= |y|
    ensures FlowGroup(x + y, |x| + pos, read, ' ', '\n') == FlowGroup(y, pos, read, ' ', '\n')
  {
    WithLabelShift(Jump, x, y, pos + read, read, |x| + pos + read);
  }

  /** `FlowGroupShift` for jump if zero. */
  lemma JZeroShift(x: seq<byte>, y: seq<byte>, pos: nat, read: nat)
    requires 3 <= read && pos + read <= |y|
    ensures FlowGroup(x + y, |x| + pos, read, '\t', ' ') == FlowGroup(y, pos, read, '\t', ' ')
  {
    WithLabelShift(JZero, x, y, pos + read, read, |x| + pos + read);
  }

  /** `FlowGroupShift` for jump if negative. */
  lemma JNegShift(x: seq<byte>, y: seq<byte>, pos: nat, read: nat)
    requires 3 <= read && pos + read <= |y|
    ensures FlowGroup(x + y, |x| + pos, read, '\t', '\t') == FlowGroup(y, pos, read, '\t', '\t')
  {
    WithLabelShift(JNeg, x, y, pos + read, read, |x| + pos + read);
  }

  /** An instruction decodes the same wherever its code sits: `Decode` at
      `|x| + k` in `x + y` is `Decode` at `k` in `y`. */
  lemma DecodeShift(x: seq<byte>, y: seq<byte>, k: nat)
    requires k <= |y|
    ensures Decode(x + y, |x| + k) == Decode(y, k)
  {
    var r := Scan.Read3Code(y, k);
    Read3CodeShift(x, y, k);
    if r.1 > 0 {
      StackGroupShift(x, y, k, r.1, r.0[1], r.0[2]);
      TabGroupShift(x, y, k, r.1, r.0[1], r.0[2]);
      FlowGroupShift(x, y, k, r.1, r.0[1], r.0[2]);
    }
  }

  // ---------------------------------------------------------------------
  // The loop of `Load`

  /** Loading `s + t` from `pos` goes on from where loading `s` stopped,
      with the program and labels that load built; and when loading `s`
      failed for a reason other than `ErrIncompleteCode`, loading `s + t`
      fails in the same way, at the same place. */
  lemma {:induction false} LoadFromExtend(program: seq<OpCode>, labels: map<seq<byte>, nat>, seg: int, s: seq<byte>, t: seq<byte>, pos: nat)
    requires pos <= |s|
    ensures var r := LoadFrom(program, labels, seg, s, pos);
      LoadFrom(program, labels, seg, s + t, pos) == LoadFrom(r.program, r.labels, seg, s + t, r.consumed)
    ensures var r := LoadFrom(program, labels, seg, s, pos);
      r.err.Some? && r.err != Some(ErrIncompleteCode) ==> LoadFrom(program, labels, seg, s + t, pos) == r
    decreases |s| - pos
  {
    var j := Scan.NextWhite(s, pos);
    NextWhiteExtend(s, t, pos);
    LoadFromSkips(program, labels, seg, s, pos);
    LoadFromSkips(program, labels, seg, s + t, pos);
    if j < 0 {
      LoadFromSkips(program, labels, seg, s + t, |s|);
    } else if Appends(labels, s, j) {
      var op, labels', next := ExtendAppends(program, labels, seg, s, t, pos);
      LoadFromExtend(program + [op], labels', seg, s, t, next);
    } else {
      ExtendStops(program, labels, seg, s, t, j);
    }
  }

  /** A turn that appends in `s` appends the same in `s + t`. */
  lemma ExtendAppends(program: seq<OpCode>, labels: map<seq<byte>, nat>, seg: int, s: seq<byte>, t: seq<byte>, pos: nat)
    returns (op: OpCode, labels': map<seq<byte>, nat>, next: nat)
    requires pos <= |s| && Scan.NextWhite(s, pos) >= 0 && Appends(labels, s, Scan.NextWhite(s, pos))
    ensures pos < next <= |s|
    ensures LoadFrom(program, labels, seg, s, pos) == LoadFrom(program + [op], labels', seg, s, next)
    ensures LoadFrom(program, labels, seg, s + t, pos) == LoadFrom(program + [op], labels', seg, s + t, next)
  {
    var j := Scan.NextWhite(s, pos);
    NextWhiteExtend(s, t, pos);
    DecodeExtends(s, t, j);
    op, labels', next := TurnDecoded(program, labels, seg, s, pos);
    var op2, labels2, next2 := TurnDecoded(program, labels, seg, s + t, pos);
  }

  /** An instruction at `j` that `s` does not append stops the load of `s`
      there, and the load of `s + t` resumes from it; unless it is
      unfinished in `s`, the load of `s + t` stops there too, in the same
      way. */
  lemma ExtendStops(program: seq<OpCode>, labels: map<seq<byte>, nat>, seg: int, s: seq<byte>, t: seq<byte>, j: nat)
    requires j < |s| && Scan.IsWhite(s[j]) && !Appends(labels, s, j)
    ensures LoadAt(program, labels, seg, s + t, j) == LoadFrom(program, labels, seg, s + t, j)
    ensures LoadAt(program, labels, seg, s, j).err != Some(ErrIncompleteCode) ==>
      LoadAt(program, labels, seg, s + t, j) == LoadAt(program, labels, seg, s, j)
  {
    assert (s + t)[j] == s[j];
    LoadFromSkips(program, labels, seg, s + t, j);
    DecodeExtends(s, t, j);
    LoadAtStops(program, labels, seg, s, j);
    if Decode(s, j) != Bad(ErrIncompleteCode) {
      LoadAtStops(program, labels, seg, s + t, j);
    }
  }

  /** The opcode `op` moved to segment `seg`, `d` bytes further on. */
  function Relocate(op: OpCode, seg: int, d: int): (r: OpCode)
    ensures r.cmd == op.cmd && r.param == op.param && r.seg == seg && r.pos == d + op.pos
  {
    OpCode(op.cmd, op.param, seg, d + op.pos)
  }

  /** The opcodes `p` are the opcodes `q` relocated: the first `n` are the
      same, and each later one is the same instruction in segment `seg`,
      `d` bytes further on. */
  predicate Relocated(p: seq<OpCode>, q: seq<OpCode>, n: nat, seg: int, d: int) {
    && |p| == |q| && n <= |p| && p[..n] == q[..n]
    && forall i :: n <= i < |p| ==> p[i] == Relocate(q[i], seg, d)
  }

  /** Appending an opcode and its relocation keeps the relocation. */
  lemma RelocatedSnoc(p: seq<OpCode>, q: seq<OpCode>, n: nat, seg: int, d: int, op: OpCode)
    requires Relocated(p, q, n, seg, d)
    ensures Relocated(p + [Relocate(op, seg, d)], q + [op], n, seg, d)
  {
    assert (p + [Relocate(op, seg, d)])[..n] == p[..n];
    assert (q + [op])[..n] == q[..n];
  }

  /** `R`, a load of `x + y` from `|x| + k`, is `r`, a load of `y` from
      `k`, shifted by `d == |x|`: the same labels and error, `d` more bytes
      consumed, the opcodes relocated. */
  predicate Shifted(R: LoadResult, r: LoadResult, n: nat, seg: int, d: nat) {
    && R.labels == r.labels && R.err == r.err && R.consumed == d + r.consumed
    && Relocated(R.program, r.program, n, seg, d)
  }

  /** The loop from `pos` with `p` and `labels` comes to the same result
      as the loop from `next` with `p'` and `labels'`. */
  predicate Steps(p: seq<OpCode>, labels: map<seq<byte>, nat>, seg: int, s: seq<byte>, pos: nat,
                  p': seq<OpCode>, labels': map<seq<byte>, nat>, next: nat) {
    pos <= next <= |s| && LoadFrom(p, labels, seg, s, pos) == LoadFrom(p', labels', seg, s, next)
  }

  /** Loading a tail `y` from `k`, in segment `seg'`, is loading `x + y`
      from `|x| + k` in segment `seg`: the same labels, the same error,
      `|x|` more bytes consumed, and the same opcodes but for their
      segment and offset. */
  lemma {:induction false} LoadFromShift(p: seq<OpCode>, q: seq<OpCode>, n: nat, labels: map<seq<byte>, nat>,
                                         seg: int, seg': int, x: seq<byte>, y: seq<byte>, k: nat)
    requires k <= |y| && Relocated(p, q, n, seg, |x|)
    ensures Shifted(LoadFrom(p, labels, seg, x + y, |x| + k), LoadFrom(q, labels, seg', y, k), n, seg, |x|)
    decreases |y| - k
  {
    var appended, op, labels', next := ShiftTurn(p, q, labels, seg, seg', x, y, k);
    if appended {
      RelocatedSnoc(p, q, n, seg, |x|, op);
      LoadFromShift(p + [Relocate(op, seg, |x|)], q + [op], n, labels', seg, seg', x, y, next);
    }
  }

  /** One turn of both loads: both append an opcode, the one in `x + y`
      relocated, and go on after it; or both stop, in the same way. */
  lemma ShiftTurn(p: seq<OpCode>, q: seq<OpCode>, labels: map<seq<byte>, nat>,
                  seg: int, seg': int, x: seq<byte>, y: seq<byte>, k: nat)
    returns (appended: bool, op: OpCode, labels': map<seq<byte>, nat>, next: nat)
    requires k <= |y| && |p| == |q|
    ensures appended ==>
      && k < next
      && Steps(q, labels, seg', y, k, q + [op], labels', next)
      && Steps(p, labels, seg, x + y, |x| + k, p + [Relocate(op, seg, |x|)], labels', |x| + next)
    ensures !appended ==>
      var R := LoadFrom(p, labels, seg, x + y, |x| + k);
      var r := LoadFrom(q, labels, seg', y, k);
      && R.program == p && r.program == q && R.labels == r.labels
      && R.err == r.err && R.consumed == |x| + r.consumed
  {
    appended, op, labels', next := false, OpCode(NoCommand, NoParam, 0, 0), labels, k;
    var j, d := FindTurn(y, k);
    if j < 0 {
      ShiftNone(p, q, labels, seg, seg', x, y, k);
    } else {
      if d.Instr? && !(d.cmd == Mark && d.param.l in labels) {
        AppendBoth(p, q, labels, seg, seg', x, y, k, j, d);
        appended, op, labels', next := true, OpCode(d.cmd, d.param, seg', j), Register(labels, d, |q|), j + d.read;
      } else {
        StopBoth(p, q, labels, seg, seg', x, y, k, j, d);
      }
    }
  }

  /** A turn of both loads that appends: the instruction found in `y` is
      appended to `q`, and relocated, to `p`. */
  lemma AppendBoth(p: seq<OpCode>, q: seq<OpCode>, labels: map<seq<byte>, nat>,
                   seg: int, seg': int, x: seq<byte>, y: seq<byte>, k: nat, j: nat, d: Decoded)
    requires |p| == |q| && Found(y, k, j, d)
    requires d.Instr? && !(d.cmd == Mark && d.param.l in labels)
    ensures k < j + d.read
    ensures Steps(q, labels, seg', y, k, q + [OpCode(d.cmd, d.param, seg', j)], Register(labels, d, |q|), j + d.read)
    ensures Steps(p, labels, seg, x + y, |x| + k,
                  p + [Relocate(OpCode(d.cmd, d.param, seg', j), seg, |x|)], Register(labels, d, |q|), |x| + (j + d.read))
  {
    FoundShift(x, y, k, j, d);
    TurnWith(q, labels, seg', y, k, j, d);
    TurnWith(p, labels, seg, x + y, |x| + k, |x| + j, d);
    StepsRelocated(p, labels, seg, seg', x + y, |x| + k, d.cmd, d.param, |x|, j, d.read, Register(labels, d, |p|));
  }

  /** A turn of both loads that stops them: both fail at the instruction
      found in `y`, for the same reason. */
  lemma StopBoth(p: seq<OpCode>, q: seq<OpCode>, labels: map<seq<byte>, nat>,
                 seg: int, seg': int, x: seq<byte>, y: seq<byte>, k: nat, j: nat, d: Decoded)
    requires Found(y, k, j, d)
    requires !(d.Instr? && !(d.cmd == Mark && d.param.l in labels))
    ensures var R := LoadFrom(p, labels, seg, x + y, |x| + k);
      var r := LoadFrom(q, labels, seg', y, k);
      && R.program == p && r.program == q && R.labels == r.labels
      && R.err == r.err && R.consumed == |x| + r.consumed
  {
    FoundShift(x, y, k, j, d);
    StopWith(q, labels, seg', y, k, j, d);
    StopWith(p, labels, seg, x + y, |x| + k, |x| + j, d);
  }

  /** The next whitespace symbol, and the instruction it starts, are the
      same in `y` from `k` and in `x + y` from `|x| + k`. */
  lemma ShiftFacts(x: seq<byte>, y: seq<byte>, k: nat, j: nat)
    requires k <= |y| && Scan.NextWhite(y, k) == j
    ensures Scan.NextWhite(x + y, |x| + k) == |x| + j && Decode(x + y, |x| + j) == Decode(y, j)
  {
    NextWhiteShift(x, y, k);
    DecodeShift(x, y, j);
  }

  /** With no whitespace left in `y`, both loads end, consuming all. */
  lemma ShiftNone(p: seq<OpCode>, q: seq<OpCode>, labels: map<seq<byte>, nat>,
                  seg: int, seg': int, x: seq<byte>, y: seq<byte>, k: nat)
    requires k <= |y| && Scan.NextWhite(y, k) < 0
    ensures LoadFrom(p, labels, seg, x + y, |x| + k) == LoadResult(p, labels, |x| + |y|, None)
    ensures LoadFrom(q, labels, seg', y, k) == LoadResult(q, labels, |y|, None)
  {
    NextWhiteShift(x, y, k);
    LoadFromSkips(p, labels, seg, x + y, |x| + k);
    LoadFromSkips(q, labels, seg', y, k);
  }

  /** The turn at `pos` finds its instruction at `at`, and it decodes to
      `d`.  The decoding is stated through a quantifier over the one offset
      `at`, so that the prover unfolds `Decode` only where a lemma looks at
      that instruction, not wherever a turn is mentioned. */
  predicate Found(s: seq<byte>, pos: nat, at: nat, d: Decoded) {
    && pos <= at < |s| && Scan.NextWhite(s, pos) == at
    && (d.Instr? ==> Shaped(d.cmd, d.param))
    && forall i :: at <= i <= at ==> Decode(s, i) == d
  }

  /** The instruction the turn at `pos` finds, if any. */
  lemma FindTurn(s: seq<byte>, pos: nat) returns (at: int, d: Decoded)
    requires pos <= |s|
    ensures at == Scan.NextWhite(s, pos)
    ensures at >= 0 ==> Found(s, pos, at, d)
  {
    at := Scan.NextWhite(s, pos);
    d := if at >= 0 then Decode(s, at) else Bad(ErrIncompleteCode);
  }

  /** The instruction found in `y` from `k` is found in `x + y` from
      `|x| + k`, `|x|` bytes further on. */
  lemma FoundShift(x: seq<byte>, y: seq<byte>, k: nat, j: nat, d: Decoded)
    requires Found(y, k, j, d)
    ensures Found(x + y, |x| + k, |x| + j, d)
  {
    assert Decode(y, j) == d;
    ShiftFacts(x, y, k, j);
  }

  /** A turn at `pos` whose instruction, at `at`, decodes to `d` and is
      appended. */
  lemma TurnWith(p: seq<OpCode>, labels: map<seq<byte>, nat>, seg: int, s: seq<byte>, pos: nat, at: nat, d: Decoded)
    requires Found(s, pos, at, d)
    requires d.Instr? && !(d.cmd == Mark && d.param.l in labels)
    ensures pos < at + d.read
    ensures Steps(p, labels, seg, s, pos, p + [OpCode(d.cmd, d.param, seg, at)], Register(labels, d, |p|), at + d.read)
  {
    assert Decode(s, at) == d;
    var op, labels', next := TurnDecoded(p, labels, seg, s, pos);
  }

  /** The same turn, with the opcode written as a relocation. */
  lemma StepsRelocated(p: seq<OpCode>, labels: map<seq<byte>, nat>, seg: int, seg': int, s: seq<byte>, pos: nat,
                       cmd: Command, param: Param, e: nat, j: nat, read: nat, labels': map<seq<byte>, nat>)
    requires Steps(p, labels, seg, s, pos, p + [OpCode(cmd, param, seg, e + j)], labels', e + j + read)
    ensures Steps(p, labels, seg, s, pos, p + [Relocate(OpCode(cmd, param, seg', j), seg, e)], labels', e + (j + read))
  {
    assert Relocate(OpCode(cmd, param, seg', j), seg, e) == OpCode(cmd, param, seg, e + j);
  }

  /** A turn at `pos` whose instruction, at `at`, decodes to `d` and is
      not appended: the load stops there, with the reason `d` gives. */
  lemma StopWith(p: seq<OpCode>, labels: map<seq<byte>, nat>, seg: int, s: seq<byte>, pos: nat, at: nat, d: Decoded)
    requires Found(s, pos, at, d)
    requires !(d.Instr? && !(d.cmd == Mark && d.param.l in labels))
    ensures LoadFrom(p, labels, seg, s, pos)
      == LoadResult(p, labels, at, Some(if d.Bad? then d.err else ErrDuplicateLabel))
  {
    assert Decode(s, at) == d;
    LoadFromSkips(p, labels, seg, s, pos);
  }

  /** `Load` is resumable.  Load `a`, keep what it did not consume, and
      load that with `b`, in any segment: this agrees with loading `a + b`
      at once on the labels, the error and the bytes consumed; the opcodes
      of the first load come first in both, and every later opcode is the
      same command with the same parameter, only its segment and its
      offset (by the bytes the first load consumed) telling the two apart. */
  lemma LoadResumes(program: seq<OpCode>, labels: map<seq<byte>, nat>, seg: int, seg2: int, a: seq<byte>, b: seq<byte>)
    ensures var r1 := Load(program, labels, seg, a);
      var r2 := Load(r1.program, r1.labels, seg2, a[r1.consumed..] + b);
      var r := Load(program, labels, seg, a + b);
      && r.labels == r2.labels && r.err == r2.err && r.consumed == r1.consumed + r2.consumed
      && |r1.program| <= |r.program| && r.program[..|r1.program|] == r1.program
      && Relocated(r.program, r2.program, |r1.program|, seg, r1.consumed)
  {
    var r1 := Load(program, labels, seg, a);
    var c := r1.consumed;
    var x, y := a[..c], a[c..] + b;
    assert a + b == x + y;
    LoadFromExtend(program, labels, seg, a, b, 0);
    LoadFromShift(r1.program, r1.program, |r1.program|, r1.labels, seg, seg2, x, y, 0);
    LoadFromKeeps(r1.program, r1.labels, seg2, y, 0);
    var r2 := Load(r1.program, r1.labels, seg2, y);
    assert r2.program[..|r1.program|] == r1.program;
  }
}
