/** The scanners of the loader (wspace/vm.go `findWhite`, `read3code`,
    `readNum`, `readLabel`).

    The Go functions are called on a tail `code[k:]` of the buffer being
    loaded.  Here each takes the whole buffer `s` and the offset `k` of that
    tail, and walks it with absolute offsets; the counts they return are
    relative to `k`, as in the source.  The recursive helpers follow the Go
    loops turn by turn; the lemmas say what they compute in terms of the
    whitespace symbols of the buffer (`Ws`), every other byte being a
    comment. */
module Scan {
  import opened Words
  import opened Errors
  import opened Wrappers

  predicate IsWhite(c: byte) {
    c == SP || c == TAB || c == LF
  }

  /** The whitespace symbols of `s[k..n]`, in order. */
  function Ws(s: seq<byte>, k: nat, n: nat): (w: seq<byte>)
    requires k <= n <= |s|
    decreases n - k
  {
    if k == n then [] else (if IsWhite(s[k]) then [s[k]] else []) + Ws(s, k + 1, n)
  }

  lemma {:induction false} WsSplit(s: seq<byte>, k: nat, m: nat, n: nat)
    requires k <= m <= n <= |s|
    ensures Ws(s, k, n) == Ws(s, k, m) + Ws(s, m, n)
    decreases m - k
  {
    if k < m {
      WsSplit(s, k + 1, m, n);
    }
  }

  lemma {:induction false} WsAreWhite(s: seq<byte>, k: nat, n: nat)
    requires k <= n <= |s|
    ensures forall i :: 0 <= i < |Ws(s, k, n)| ==> IsWhite(Ws(s, k, n)[i])
    decreases n - k
  {
    if k < n {
      WsAreWhite(s, k + 1, n);
    }
  }

  /** `Ws` of a sequence of its own, for buffers built by concatenation. */
  lemma {:induction false} WsOfAppend(a: seq<byte>, b: seq<byte>, k: nat, n: nat)
    requires k <= n <= |b|
    ensures Ws(a + b, |a| + k, |a| + n) == Ws(b, k, n)
    decreases n - k
  {
    if k < n {
      var s := a + b;
      var head := if IsWhite(b[k]) then [b[k]] else [];
      assert s[|a| + k] == b[k];
      assert Ws(s, |a| + k, |a| + n) == head + Ws(s, |a| + k + 1, |a| + n);
      WsOfAppend(a, b, k + 1, n);
      assert Ws(b, k, n) == head + Ws(b, k + 1, n);
    }
  }

  /** `Ws` only looks at the bytes between its bounds. */
  lemma {:induction false} WsExtend(s: seq<byte>, t: seq<byte>, k: nat, n: nat)
    requires k <= n <= |s|
    ensures Ws(s + t, k, n) == Ws(s, k, n)
    decreases n - k
  {
    if k < n {
      var u := s + t;
      assert u[k] == s[k];
      WsExtend(s, t, k + 1, n);
      assert Ws(u, k, n) == (if IsWhite(s[k]) then [s[k]] else []) + Ws(u, k + 1, n);
    }
  }

  // ---------------------------------------------------------------------
  // findWhite

  /** The offset of the first whitespace byte at or after `k`, or -1. */
  function NextWhite(s: seq<byte>, k: nat): (j: int)
    requires k <= |s|
    ensures j == -1 || k <= j < |s|
    ensures j >= 0 ==> IsWhite(s[j])
    decreases |s| - k
  {
    if k == |s| then -1 else if IsWhite(s[k]) then k else NextWhite(s, k + 1)
  }

  /** `NextWhite` finds the first whitespace byte: none lies before it. */
  lemma {:induction false} NextWhiteFirst(s: seq<byte>, k: nat)
    requires k <= |s|
    ensures forall i :: k <= i < |s| && (NextWhite(s, k) < 0 || i < NextWhite(s, k)) ==> !IsWhite(s[i])
    decreases |s| - k
  {
    if k < |s| && !IsWhite(s[k]) {
      NextWhiteFirst(s, k + 1);
    }
  }

  /** The symbol `NextWhite` finds heads the whitespace of every range that
      contains it, and a range without it holds no whitespace. */
  lemma {:induction false} NextWhiteWs(s: seq<byte>, k: nat, n: nat)
    requires k <= n <= |s|
    ensures 0 <= NextWhite(s, k) < n ==> Ws(s, k, n) == [s[NextWhite(s, k)]] + Ws(s, NextWhite(s, k) + 1, n)
    ensures !(0 <= NextWhite(s, k) < n) ==> Ws(s, k, n) == []
    decreases n - k
  {
    if k == n {
    } else if IsWhite(s[k]) {
      assert NextWhite(s, k) == k;
      assert Ws(s, k, n) == [s[k]] + Ws(s, k + 1, n);
    } else {
      var j := NextWhite(s, k + 1);
      assert NextWhite(s, k) == j;
      NextWhiteWs(s, k + 1, n);
      assert Ws(s, k, n) == [] + Ws(s, k + 1, n);
      assert [] + Ws(s, k + 1, n) == Ws(s, k + 1, n);
    }
  }

  /** `findWhite(code[k:])`: the first whitespace byte and its offset in the
      tail, or `(0, -1)`. */
  function FindWhite(s: seq<byte>, k: nat): (r: (byte, int))
    requires k <= |s|
    ensures -1 <= r.1 < |s| - k
  {
    var j := NextWhite(s, k);
    if j < 0 then ('\0', -1) else (s[j], j - k)
  }

  /** `findWhite` returns the first whitespace byte of the tail and its
      offset, or `(0, -1)` exactly when the tail holds none. */
  lemma FindWhiteSpec(s: seq<byte>, k: nat)
    requires k <= |s|
    ensures FindWhite(s, k).1 < 0 <==> forall i :: k <= i < |s| ==> !IsWhite(s[i])
    ensures FindWhite(s, k).1 < 0 ==> FindWhite(s, k).0 == '\0'
    ensures FindWhite(s, k).1 >= 0 ==>
      && s[k + FindWhite(s, k).1] == FindWhite(s, k).0
      && IsWhite(FindWhite(s, k).0)
      && forall i :: k <= i < k + FindWhite(s, k).1 ==> !IsWhite(s[i])
  {
    NextWhiteFirst(s, k);
  }

  // ---------------------------------------------------------------------
  // read3code

  /** The loop of `read3code` after `i` turns that read the symbols `acc`
      and ended at offset `cur`; -1 when a turn finds no symbol. */
  function ThreeFrom(s: seq<byte>, cur: nat, i: nat, acc: seq<byte>): (r: (seq<byte>, int))
    requires cur <= |s| && i <= 3
    ensures r.1 == -1 || cur + 3 - i <= r.1 <= |s|
    ensures r.1 >= 0 ==> |r.0| == |acc| + 3 - i
    decreases 3 - i
  {
    if i == 3 then (acc, cur)
    else
      var j := NextWhite(s, cur);
      if j < 0 then ([], -1)
      else ThreeFrom(s, j + 1, i + 1, acc + [s[j]])
  }

  /** `read3code(code[k:])`: the first three whitespace symbols and the
      number of bytes up to and including the third; `("", 0)` when the
      tail holds fewer. */
  function Read3Code(s: seq<byte>, k: nat): (r: (seq<byte>, nat))
    requires k <= |s|
    ensures k + r.1 <= |s|
    ensures r.1 > 0 ==> 3 <= r.1 && |r.0| == 3
  {
    var t := ThreeFrom(s, k, 0, []);
    if t.1 < 0 then ([], 0) else (t.0, t.1 - k)
  }

  /** The whitespace of a tail counts the symbol `NextWhite` finds and
      the whitespace after it. */
  lemma WsCount(s: seq<byte>, k: nat)
    requires k <= |s|
    ensures NextWhite(s, k) < 0 ==> |Ws(s, k, |s|)| == 0
    ensures NextWhite(s, k) >= 0 ==> |Ws(s, k, |s|)| == 1 + |Ws(s, NextWhite(s, k) + 1, |s|)|
  {
    NextWhiteWs(s, k, |s|);
  }

  lemma {:induction false} ThreeFromFails(s: seq<byte>, cur: nat, i: nat, acc: seq<byte>)
    requires cur <= |s| && i <= 3
    ensures ThreeFrom(s, cur, i, acc).1 < 0 <==> |Ws(s, cur, |s|)| < 3 - i
    decreases 3 - i
  {
    if i < 3 {
      var j := NextWhite(s, cur);
      ThreeFromStep(s, cur, i, acc);
      if j >= 0 {
        ThreeFromFails(s, j + 1, i + 1, acc + [s[j]]);
      }
    }
  }

  /** One turn of the `read3code` loop: it fails when the tail holds no
      symbol, and otherwise goes on after the one it finds. */
  lemma ThreeFromStep(s: seq<byte>, cur: nat, i: nat, acc: seq<byte>)
    requires cur <= |s| && i < 3
    ensures NextWhite(s, cur) < 0 ==> ThreeFrom(s, cur, i, acc).1 < 0 && |Ws(s, cur, |s|)| == 0
    ensures NextWhite(s, cur) >= 0 ==>
      && (ThreeFrom(s, cur, i, acc).1 < 0 <==> ThreeFrom(s, NextWhite(s, cur) + 1, i + 1, acc + [s[NextWhite(s, cur)]]).1 < 0)
      && |Ws(s, cur, |s|)| == 1 + |Ws(s, NextWhite(s, cur) + 1, |s|)|
  {
    WsCount(s, cur);
    if NextWhite(s, cur) >= 0 {
      ThreeFromNext(s, cur, i, acc);
    }
  }

  /** One turn of the `read3code` loop that finds a symbol. */
  lemma ThreeFromNext(s: seq<byte>, cur: nat, i: nat, acc: seq<byte>)
    requires cur <= |s| && i < 3 && NextWhite(s, cur) >= 0
    ensures ThreeFrom(s, cur, i, acc)
      == ThreeFrom(s, NextWhite(s, cur) + 1, i + 1, acc + [s[NextWhite(s, cur)]])
  {
  }

  lemma {:induction false} ThreeFromReads(s: seq<byte>, cur: nat, i: nat, acc: seq<byte>)
    requires cur <= |s| && i <= 3
    requires ThreeFrom(s, cur, i, acc).1 >= 0
    ensures ThreeFrom(s, cur, i, acc).0 == acc + Ws(s, cur, ThreeFrom(s, cur, i, acc).1)
    decreases 3 - i
  {
    if i == 3 {
      assert Ws(s, cur, cur) == [];
    } else {
      var j := NextWhite(s, cur);
      ThreeFromNext(s, cur, i, acc);
      var r := ThreeFrom(s, j + 1, i + 1, acc + [s[j]]);
      ThreeFromReads(s, j + 1, i + 1, acc + [s[j]]);
      ReadsStep(s, cur, r.1, acc);
    }
  }

  /** The last byte the `read3code` loop reads is its third symbol. */
  lemma {:induction false} ThreeFromLast(s: seq<byte>, cur: nat, i: nat, acc: seq<byte>)
    requires cur <= |s| && i < 3
    requires ThreeFrom(s, cur, i, acc).1 >= 0
    ensures IsWhite(s[ThreeFrom(s, cur, i, acc).1 - 1])
    decreases 3 - i
  {
    var j := NextWhite(s, cur);
    ThreeFromNext(s, cur, i, acc);
    if i < 2 {
      ThreeFromLast(s, j + 1, i + 1, acc + [s[j]]);
    } else {
      assert ThreeFrom(s, j + 1, i + 1, acc + [s[j]]).1 == j + 1;
    }
  }

  /** Symbols collected so far, then the one `NextWhite` finds, then the
      whitespace after it: the whitespace of the whole range. */
  lemma ReadsStep(s: seq<byte>, cur: nat, e: nat, acc: seq<byte>)
    requires cur <= |s| && 0 <= NextWhite(s, cur) < e <= |s|
    ensures (acc + [s[NextWhite(s, cur)]]) + Ws(s, NextWhite(s, cur) + 1, e) == acc + Ws(s, cur, e)
  {
    var j := NextWhite(s, cur);
    NextWhiteWs(s, cur, e);
    assert (acc + [s[j]]) + Ws(s, j + 1, e) == acc + ([s[j]] + Ws(s, j + 1, e));
  }

  /** The whitespace of a range opens with the symbol `NextWhite` finds,
      so a prefix of the rest extends to a prefix of the whole. */
  lemma PrefixStep(s: seq<byte>, cur: nat, e: nat, m: nat)
    requires cur <= |s| && 0 <= NextWhite(s, cur) < e <= |s|
    requires |Ws(s, NextWhite(s, cur) + 1, |s|)| >= m
    requires Ws(s, NextWhite(s, cur) + 1, e) == Ws(s, NextWhite(s, cur) + 1, |s|)[..m]
    ensures |Ws(s, cur, |s|)| >= m + 1
    ensures Ws(s, cur, e) == Ws(s, cur, |s|)[..m + 1]
  {
    var j := NextWhite(s, cur);
    var tail := Ws(s, j + 1, |s|);
    NextWhiteWs(s, cur, |s|);
    NextWhiteWs(s, cur, e);
    assert ([s[j]] + tail)[..m + 1] == [s[j]] + tail[..m];
  }

  lemma {:induction false} ThreeFromPrefix(s: seq<byte>, cur: nat, i: nat, acc: seq<byte>)
    requires cur <= |s| && i <= 3
    requires ThreeFrom(s, cur, i, acc).1 >= 0
    ensures |Ws(s, cur, |s|)| >= 3 - i
    ensures Ws(s, cur, ThreeFrom(s, cur, i, acc).1) == Ws(s, cur, |s|)[..3 - i]
    decreases 3 - i
  {
    if i == 3 {
      assert Ws(s, cur, cur) == [];
    } else {
      var j := NextWhite(s, cur);
      ThreeFromNext(s, cur, i, acc);
      ThreeFromPrefix(s, j + 1, i + 1, acc + [s[j]]);
      PrefixStep(s, cur, ThreeFrom(s, cur, i, acc).1, 2 - i);
    }
  }

  /** `read3code` fails exactly when the tail holds fewer than three
      whitespace symbols, and then returns no symbols. */
  lemma Read3CodeFails(s: seq<byte>, k: nat)
    requires k <= |s|
    ensures Read3Code(s, k).1 == 0 <==> |Ws(s, k, |s|)| < 3
    ensures Read3Code(s, k).1 == 0 ==> Read3Code(s, k).0 == []
  {
    ThreeFromFails(s, k, 0, []);
  }

  /** Otherwise it returns the first three whitespace symbols of the
      tail ... */
  lemma Read3CodeReads(s: seq<byte>, k: nat)
    requires k <= |s| && Read3Code(s, k).1 > 0
    ensures |Ws(s, k, |s|)| >= 3 && Read3Code(s, k).0 == Ws(s, k, |s|)[..3]
  {
    var t := ThreeFrom(s, k, 0, []);
    assert Read3Code(s, k).0 == t.0;
    ThreeFromReads(s, k, 0, []);
    ThreeFromPrefix(s, k, 0, []);
  }

  /** ... and the count it returns ends on the third. */
  lemma Read3CodeEnds(s: seq<byte>, k: nat)
    requires k <= |s| && Read3Code(s, k).1 > 0
    ensures Read3Code(s, k).0 == Ws(s, k, k + Read3Code(s, k).1)
    ensures IsWhite(s[k + Read3Code(s, k).1 - 1])
  {
    var t := ThreeFrom(s, k, 0, []);
    ThreeFromReads(s, k, 0, []);
    ThreeFromLast(s, k, 0, []);
    var w := Ws(s, k, t.1);
    assert t.0 == [] + w == w;
    assert Read3Code(s, k) == (w, t.1 - k);
  }

  lemma {:induction false} ThreeFromWhite(s: seq<byte>, cur: nat, i: nat, acc: seq<byte>)
    requires i <= 3 && cur + 3 - i <= |s|
    requires forall j :: cur <= j < cur + 3 - i ==> IsWhite(s[j])
    ensures ThreeFrom(s, cur, i, acc).0 == acc + s[cur..cur + 3 - i]
    ensures ThreeFrom(s, cur, i, acc).1 == cur + 3 - i
    decreases 3 - i
  {
    if i < 3 {
      assert NextWhite(s, cur) == cur;
      ThreeFromNext(s, cur, i, acc);
      ThreeFromWhite(s, cur + 1, i + 1, acc + [s[cur]]);
      assert (acc + [s[cur]]) + s[cur + 1..cur + 3 - i] == acc + s[cur..cur + 3 - i];
    }
  }

  /** Three whitespace symbols in a row are read as they stand. */
  lemma Read3CodeWhite(s: seq<byte>, k: nat)
    requires k + 3 <= |s| && IsWhite(s[k]) && IsWhite(s[k + 1]) && IsWhite(s[k + 2])
    ensures Read3Code(s, k).0 == s[k..k + 3]
    ensures Read3Code(s, k).1 == 3
  {
    ThreeFromWhite(s, k, 0, []);
    assert [] + s[k..k + 3] == s[k..k + 3];
  }

  // ---------------------------------------------------------------------
  // readNum

  /** `math.MaxInt >> 1`: the largest accumulator that may take one more
      binary digit. */
  const HalfMaxInt: int := 0x3fff_ffff_ffff_ffff

  /** The binary digit a symbol stands for: tab is 1, space is 0. */
  function Bit(c: byte): nat {
    if c == TAB then 1 else 0
  }

  /** The digit loop of `readNum` from offset `cur` with accumulator `n`:
      the magnitude and the offset just past the terminating LF, or an
      error with `(0, 0)`. */
  function DigitsFrom(s: seq<byte>, cur: nat, n: nat): (r: (nat, nat, Option<Error>))
    requires cur <= |s| && n <= MaxInt
    ensures r.2.Some? ==> r.0 == 0 && r.1 == 0 && r.2.value in {ErrIncompleteCode, ErrOverflow}
    ensures r.2.None? ==> cur < r.1 <= |s| && s[r.1 - 1] == LF && r.0 <= MaxInt
    decreases |s| - cur
  {
    var w := FindWhite(s, cur);
    if w.1 < 0 then (0, 0, Some(ErrIncompleteCode))
    else
      var next := cur + w.1 + 1;
      if w.0 == LF then (n, next, None)
      else if n > HalfMaxInt then (0, 0, Some(ErrOverflow))
      else DigitsFrom(s, next, 2 * n + Bit(w.0))
  }

  /** One turn of the digit loop: a space or tab doubles the accumulator
      and adds its bit, which still fits below `MaxInt`. */
  lemma DigitsStep(s: seq<byte>, cur: nat, n: nat)
    requires cur <= |s| && n <= HalfMaxInt
    requires FindWhite(s, cur).1 >= 0 && FindWhite(s, cur).0 != LF
    ensures 2 * n + Bit(FindWhite(s, cur).0) <= MaxInt
    ensures DigitsFrom(s, cur, n) == DigitsFrom(s, cur + FindWhite(s, cur).1 + 1, 2 * n + Bit(FindWhite(s, cur).0))
  {
  }

  /** `readNum(code[k:])`: the value, the number of bytes read, and the
      error.  A first symbol LF is read as the number 0. */
  function ReadNum(s: seq<byte>, k: nat): (r: (int64, nat, Option<Error>))
    requires k <= |s|
    ensures r.2.Some? ==> r.0 == 0 && r.1 == 0 && r.2.value in {ErrIncompleteCode, ErrOverflow}
    ensures r.2.None? ==> 0 < r.1 <= |s| - k && s[k + r.1 - 1] == LF && Abs(r.0) <= MaxInt
  {
    var w := FindWhite(s, k);
    if w.1 < 0 then (0, 0, Some(ErrIncompleteCode))
    else if w.0 == LF then (0, w.1 + 1, None)
    else
      var d := DigitsFrom(s, k + w.1 + 1, 0);
      if d.2.Some? then (0, 0, d.2)
      else
        var v: int := d.0;
        (if w.0 == TAB then -v else v, d.1 - k, None)
  }

  /** Digit symbols: spaces and tabs. */
  predicate SpaceTab(bits: seq<byte>) {
    forall i :: 0 <= i < |bits| ==> bits[i] == SP || bits[i] == TAB
  }

  /** The value of binary digits read into accumulator `n`, most
      significant first: the reference for the digit loop. */
  function Accumulate(n: nat, bits: seq<byte>): nat
    decreases |bits|
  {
    if bits == [] then n else Accumulate(2 * n + Bit(bits[0]), bits[1..])
  }

  lemma {:induction false} AccumulateAtLeast(n: nat, bits: seq<byte>)
    ensures Accumulate(n, bits) >= n
    ensures bits != [] ==> Accumulate(n, bits) >= 2 * n
    decreases |bits|
  {
    if bits != [] {
      AccumulateAtLeast(2 * n + Bit(bits[0]), bits[1..]);
    }
  }

  lemma {:induction false} AccumulateSnoc(n: nat, bits: seq<byte>, c: byte)
    ensures Accumulate(n, bits + [c]) == 2 * Accumulate(n, bits) + Bit(c)
    decreases |bits|
  {
    if bits != [] {
      assert (bits + [c])[1..] == bits[1..] + [c];
      AccumulateSnoc(2 * n + Bit(bits[0]), bits[1..], c);
    }
  }

  /** The digit loop on digits written without comments: it overflows
      exactly when their value exceeds `MaxInt`, and otherwise returns that
      value.  So the guard `n > MaxInt >> 1` before each digit rejects no
      magnitude that fits. */
  lemma {:induction false} DigitsFromExact(s: seq<byte>, cur: nat, n: nat, bits: seq<byte>)
    requires n <= MaxInt && SpaceTab(bits)
    requires cur + |bits| < |s| && s[cur + |bits|] == LF
    requires forall i :: 0 <= i < |bits| ==> s[cur + i] == bits[i]
    ensures DigitsFrom(s, cur, n) ==
      if Accumulate(n, bits) > MaxInt then (0, 0, Some(ErrOverflow))
      else (Accumulate(n, bits), cur + |bits| + 1, None)
    decreases |bits|
  {
    if bits == [] {
      assert NextWhite(s, cur) == cur;
    } else {
      assert s[cur] == bits[0];
      assert NextWhite(s, cur) == cur;
      if n > HalfMaxInt {
        AccumulateAtLeast(n, bits);
      } else {
        var b := bits[0];
        assert forall i :: 0 <= i < |bits[1..]| ==> s[cur + 1 + i] == bits[1..][i] by {
          forall i | 0 <= i < |bits[1..]| ensures s[cur + 1 + i] == bits[1..][i] {
            assert s[cur + (i + 1)] == bits[i + 1];
          }
        }
        DigitsFromExact(s, cur + 1, 2 * n + Bit(b), bits[1..]);
      }
    }
  }

  /** The binary digits of a natural number, most significant first, with
      no leading zero; none for 0. */
  function Bits(m: nat): (b: seq<byte>)
    ensures SpaceTab(b)
    ensures Accumulate(0, b) == m
  {
    if m == 0 then []
    else
      var b := Bits(m / 2) + [if m % 2 == 1 then TAB else SP];
      AccumulateSnoc(0, Bits(m / 2), if m % 2 == 1 then TAB else SP);
      b
  }

  /** A number as Whitespace writes it: a sign symbol (space for
      non-negative, tab for negative), the binary digits of the magnitude,
      and LF. */
  function EncodeNum(n: int): (e: seq<byte>)
    ensures 2 <= |e| && e[|e| - 1] == LF
    ensures e[0] == (if n < 0 then TAB else SP)
  {
    [if n < 0 then TAB else SP] + Bits(Abs(n)) + [LF]
  }

  /** `readNum` reads back every number whose magnitude fits in `int`,
      whatever follows it. */
  lemma ReadNumEncodeNum(s: seq<byte>, k: nat, n: int)
    requires Abs(n) <= MaxInt
    requires k + |EncodeNum(n)| <= |s| && s[k..k + |EncodeNum(n)|] == EncodeNum(n)
    ensures ReadNum(s, k) == (n, |EncodeNum(n)|, None)
  {
    var bits := Bits(Abs(n));
    FrameBytes(s, k, EncodeNum(n)[0], bits);
    ReadNumDigits(s, k, bits);
  }

  /** A sign at `k`, then the digits `bits` and an LF: `readNum` reads
      them, and reports `ErrOverflow` when their value exceeds `MaxInt`. */
  lemma ReadNumDigits(s: seq<byte>, k: nat, bits: seq<byte>)
    requires SpaceTab(bits) && k + |bits| + 1 < |s|
    requires (s[k] == SP || s[k] == TAB) && s[k + 1 + |bits|] == LF
    requires forall i :: 0 <= i < |bits| ==> s[k + 1 + i] == bits[i]
    ensures ReadNum(s, k) == if Accumulate(0, bits) > MaxInt then (0, 0, Some(ErrOverflow))
      else (if s[k] == TAB then -(Accumulate(0, bits) as int) else Accumulate(0, bits), |bits| + 2, None)
  {
    DigitsFromExact(s, k + 1, 0, bits);
    ReadNumSigned(s, k);
  }

  /** The bytes of a framed number, one by one. */
  lemma FrameBytes(s: seq<byte>, k: nat, sign: byte, bits: seq<byte>)
    requires k + |bits| + 2 <= |s| && s[k..k + |bits| + 2] == [sign] + bits + [LF]
    ensures s[k] == sign && s[k + 1 + |bits|] == LF
    ensures forall i :: 0 <= i < |bits| ==> s[k + 1 + i] == bits[i]
  {
    var e := [sign] + bits + [LF];
    assert s[k] == e[0];
    forall i | 0 <= i < |bits| ensures s[k + 1 + i] == bits[i] {
      assert s[k + 1 + i] == e[1 + i];
    }
    assert s[k + 1 + |bits|] == e[1 + |bits|];
  }

  /** A sign symbol at `k` itself: the digits start right after it. */
  lemma ReadNumSigned(s: seq<byte>, k: nat)
    requires k < |s| && (s[k] == SP || s[k] == TAB)
    ensures DigitsFrom(s, k + 1, 0).2.Some? ==> ReadNum(s, k) == (0, 0, DigitsFrom(s, k + 1, 0).2)
    ensures DigitsFrom(s, k + 1, 0).2.None? ==>
      var v: int := DigitsFrom(s, k + 1, 0).0;
      ReadNum(s, k) == (if s[k] == TAB then -v else v, DigitsFrom(s, k + 1, 0).1 - k, None)
  {
    assert NextWhite(s, k) == k;
  }

  /** Digits whose value exceeds `MaxInt` make `readNum` report
      `ErrOverflow`, whatever their sign. */
  lemma ReadNumOverflow(s: seq<byte>, k: nat, sign: byte, bits: seq<byte>)
    requires sign == SP || sign == TAB
    requires SpaceTab(bits) && Accumulate(0, bits) > MaxInt
    requires k + |bits| + 2 <= |s| && s[k..k + |bits| + 2] == [sign] + bits + [LF]
    ensures ReadNum(s, k) == (0, 0, Some(ErrOverflow))
  {
    FrameBytes(s, k, sign, bits);
    ReadNumDigits(s, k, bits);
  }

  // ---------------------------------------------------------------------
  // readLabel

  /** The loop of `readLabel` at offset `read` with the label `l` so far. */
  function LabelFrom(s: seq<byte>, read: nat, l: seq<byte>): (r: (seq<byte>, nat, Option<Error>))
    requires read <= |s|
    ensures r.2.Some? ==> r == ([], 0, Some(ErrIncompleteCode))
    ensures r.2.None? ==> read < r.1 <= |s| && s[r.1 - 1] == LF
    decreases |s| - read
  {
    var w := FindWhite(s, read);
    if w.1 < 0 then ([], 0, Some(ErrIncompleteCode))
    else if w.0 == LF then (l, read + w.1 + 1, None)
    else LabelFrom(s, read + w.1 + 1, l + [w.0])
  }

  /** `readLabel(code[k:])`: the label, the number of bytes read, and the
      error. */
  function ReadLabel(s: seq<byte>, k: nat): (r: (seq<byte>, nat, Option<Error>))
    requires k <= |s|
    ensures r.2.Some? ==> r == ([], 0, Some(ErrIncompleteCode))
    ensures r.2.None? ==> 0 < r.1 <= |s| - k && s[k + r.1 - 1] == LF
  {
    var r := LabelFrom(s, k, []);
    if r.2.Some? then r else (r.0, r.1 - k, None)
  }

  /** The offset of the first LF byte at or after `k`, or -1. */
  function NextLF(s: seq<byte>, k: nat): (j: int)
    requires k <= |s|
    ensures j == -1 || k <= j < |s|
    ensures j >= 0 ==> s[j] == LF
    decreases |s| - k
  {
    if k == |s| then -1 else if s[k] == LF then k else NextLF(s, k + 1)
  }

  lemma {:induction false} LabelFromSpec(s: seq<byte>, read: nat, l: seq<byte>)
    requires read <= |s|
    ensures NextLF(s, read) < 0 ==> LabelFrom(s, read, l) == ([], 0, Some(ErrIncompleteCode))
    ensures NextLF(s, read) >= 0 ==>
      LabelFrom(s, read, l) == (l + Ws(s, read, NextLF(s, read)), NextLF(s, read) + 1, None)
    decreases |s| - read
  {
    var j := NextWhite(s, read);
    LabelFromNext(s, read, l);
    var e := NextLF(s, read);
    if j < 0 {
      NextLFNone(s, read);
    } else {
      NextLFSkip(s, read, j);
      if s[j] == LF {
        NextWhiteWs(s, read, j);
        assert l + Ws(s, read, j) == l;
      } else {
        LabelFromSpec(s, j + 1, l + [s[j]]);
        if e >= 0 {
          ReadsStep(s, read, e, l);
        }
      }
    }
  }

  /** One turn of the `readLabel` loop, in terms of `NextWhite`. */
  lemma LabelFromNext(s: seq<byte>, read: nat, l: seq<byte>)
    requires read <= |s|
    ensures NextWhite(s, read) < 0 ==> LabelFrom(s, read, l) == ([], 0, Some(ErrIncompleteCode))
    ensures NextWhite(s, read) >= 0 ==> var j := NextWhite(s, read);
      LabelFrom(s, read, l) == if s[j] == LF then (l, j + 1, None) else LabelFrom(s, j + 1, l + [s[j]])
  {
  }

  lemma {:induction false} NextLFNone(s: seq<byte>, k: nat)
    requires k <= |s| && NextWhite(s, k) < 0
    ensures NextLF(s, k) < 0
    decreases |s| - k
  {
    if k < |s| {
      NextLFNone(s, k + 1);
    }
  }

  /** Bytes that are not whitespace are not LF, so the search for LF
      passes over them. */
  lemma {:induction false} NextLFSkip(s: seq<byte>, k: nat, j: nat)
    requires k <= j < |s| && NextWhite(s, k) == j
    ensures NextLF(s, k) == if s[j] == LF then j else NextLF(s, j + 1)
    decreases j - k
  {
    if k < j {
      NextLFSkip(s, k + 1, j);
    }
  }

  lemma {:induction false} WsNoLF(s: seq<byte>, k: nat, n: nat)
    requires k <= n <= |s|
    requires forall i :: k <= i < n ==> s[i] != LF
    ensures SpaceTab(Ws(s, k, n))
    decreases n - k
  {
    if k < n {
      WsNoLF(s, k + 1, n);
    }
  }

  lemma {:induction false} NextLFFirst(s: seq<byte>, k: nat)
    requires k <= |s|
    ensures forall i :: k <= i < |s| && (NextLF(s, k) < 0 || i < NextLF(s, k)) ==> s[i] != LF
    decreases |s| - k
  {
    if k < |s| && s[k] != LF {
      NextLFFirst(s, k + 1);
    }
  }

  /** `readLabel` returns the space and tab symbols before the first LF of
      the tail, skipping comment bytes, and counts that LF; without an LF it
      reports `ErrIncompleteCode` and 0. */
  lemma ReadLabelSpec(s: seq<byte>, k: nat)
    requires k <= |s|
    ensures NextLF(s, k) < 0 ==> ReadLabel(s, k) == ([], 0, Some(ErrIncompleteCode))
    ensures NextLF(s, k) >= 0 ==>
      ReadLabel(s, k) == (Ws(s, k, NextLF(s, k)), NextLF(s, k) + 1 - k, None)
    ensures NextLF(s, k) >= 0 ==> SpaceTab(Ws(s, k, NextLF(s, k)))
  {
    LabelFromSpec(s, k, []);
    var e := NextLF(s, k);
    if e >= 0 {
      NextLFFirst(s, k);
      WsNoLF(s, k, e);
      assert [] + Ws(s, k, e) == Ws(s, k, e);
    }
  }

  /** A label as Whitespace writes it: its symbols, then LF. */
  function EncodeLabel(l: seq<byte>): seq<byte>
  {
    l + [LF]
  }

  /** `readLabel` reads back every label of spaces and tabs. */
  lemma ReadLabelEncodeLabel(s: seq<byte>, k: nat, l: seq<byte>)
    requires SpaceTab(l)
    requires k + |l| + 1 <= |s| && s[k..k + |l| + 1] == EncodeLabel(l)
    ensures ReadLabel(s, k) == (l, |l| + 1, None)
  {
    var e := k + |l|;
    assert s[e] == EncodeLabel(l)[|l|];
    assert forall i :: k <= i < e ==> s[i] == l[i - k] && s[i] != LF by {
      forall i | k <= i < e ensures s[i] == l[i - k] && s[i] != LF {
        assert s[i] == EncodeLabel(l)[i - k];
      }
    }
    NextLFAt(s, k, e);
    WsSpaceTab(s, k, e, l);
    ReadLabelSpec(s, k);
  }

  lemma {:induction false} NextLFAt(s: seq<byte>, k: nat, e: nat)
    requires k <= e < |s| && s[e] == LF
    requires forall i :: k <= i < e ==> s[i] != LF
    ensures NextLF(s, k) == e
    decreases e - k
  {
    if k < e {
      NextLFAt(s, k + 1, e);
    }
  }

  /** A range holding only spaces and tabs is its own whitespace. */
  lemma {:induction false} WsSpaceTab(s: seq<byte>, k: nat, n: nat, l: seq<byte>)
    requires k <= n <= |s| && |l| == n - k && SpaceTab(l)
    requires forall i :: k <= i < n ==> s[i] == l[i - k]
    ensures Ws(s, k, n) == l
    decreases n - k
  {
    if k < n {
      assert s[k] == l[0];
      WsSpaceTab(s, k + 1, n, l[1..]);
    }
  }
}
