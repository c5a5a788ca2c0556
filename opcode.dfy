/** Commands and operation codes (wspace/opcode.go). */
module OpCodes {
  import opened Words

  /** The 24 commands.  `NoCommand` is Go's zero value of `Command`, which the
      source declares with `_` and never decodes; a zero `OpCode` carries it. */
  datatype Command =
    | NoCommand
    // stack manipulation
    | Push | Dup | Copy | Swap | Discard | Slide
    // arithmetic
    | Add | Sub | Mul | Div | Mod
    // heap access
    | Store | Retrieve
    // flow control
    | Mark | Call | Jump | JZero | JNeg | Ret | End
    // I/O
    | WriteChar | WriteNum | ReadChar | ReadNum
  {
    /** The integer value `iota` gives the constant. */
    function Code(): (n: int)
      ensures 0 <= n <= 24
      ensures n == 0 <==> this == NoCommand
    {
      match this
      case NoCommand => 0
      case Push => 1 case Dup => 2 case Copy => 3 case Swap => 4 case Discard => 5 case Slide => 6
      case Add => 7 case Sub => 8 case Mul => 9 case Div => 10 case Mod => 11
      case Store => 12 case Retrieve => 13
      case Mark => 14 case Call => 15 case Jump => 16 case JZero => 17 case JNeg => 18 case Ret => 19 case End => 20
      case WriteChar => 21 case WriteNum => 22 case ReadChar => 23 case ReadNum => 24
    }

    /** The text the generated `String()` of `Command` gives: the constant's
        name, and `Command(0)` for the unused zero value. */
    function Name(): (s: string)
      ensures |s| > 0
    {
      match this
      case NoCommand => "Command(0)"
      case Push => "Push" case Dup => "Dup" case Copy => "Copy" case Swap => "Swap"
      case Discard => "Discard" case Slide => "Slide"
      case Add => "Add" case Sub => "Sub" case Mul => "Mul" case Div => "Div" case Mod => "Mod"
      case Store => "Store" case Retrieve => "Retrieve"
      case Mark => "Mark" case Call => "Call" case Jump => "Jump" case JZero => "JZero"
      case JNeg => "JNeg" case Ret => "Ret" case End => "End"
      case WriteChar => "WriteChar" case WriteNum => "WriteNum"
      case ReadChar => "ReadChar" case ReadNum => "ReadNum"
    }

    /** Commands whose parameter is a number. */
    predicate TakesNumber() {
      this in {Push, Copy, Slide}
    }

    /** Commands whose parameter is a label. */
    predicate TakesLabel() {
      this in {Mark, Call, Jump, JZero, JNeg}
    }
  }

  /** The whitespace each command is written with, as the comment beside
      its constant documents it; a parameter, when there is one, follows. */
  function Prefix(c: Command): (p: seq<byte>)
    ensures c != NoCommand ==> 2 <= |p| <= 4
  {
    match c
    case NoCommand => []
    case Push => "  "
    case Dup => " \n "
    case Copy => " \t "
    case Swap => " \n\t"
    case Discard => " \n\n"
    case Slide => " \t\n"
    case Add => "\t   "
    case Sub => "\t  \t"
    case Mul => "\t  \n"
    case Div => "\t \t "
    case Mod => "\t \t\t"
    case Store => "\t\t "
    case Retrieve => "\t\t\t"
    case Mark => "\n  "
    case Call => "\n \t"
    case Jump => "\n \n"
    case JZero => "\n\t "
    case JNeg => "\n\t\t"
    case Ret => "\n\t\n"
    case End => "\n\n\n"
    case WriteChar => "\t\n  "
    case WriteNum => "\t\n \t"
    case ReadChar => "\t\n\t "
    case ReadNum => "\t\n\t\t"
  }

  /** The commands in declaration order. */
  const Commands: seq<Command> := [
    Push, Dup, Copy, Swap, Discard, Slide,
    Add, Sub, Mul, Div, Mod,
    Store, Retrieve,
    Mark, Call, Jump, JZero, JNeg, Ret, End,
    WriteChar, WriteNum, ReadChar, ReadNum]

  /** `iota` numbers the commands 1 to 24 in declaration order and leaves 0
      to the zero value. */
  lemma CodeOrder()
    ensures |Commands| == 24
    ensures forall i :: 0 <= i < |Commands| ==> Commands[i].Code() == i + 1
  {
  }

  lemma CodeIndex(c: Command)
    ensures c != NoCommand ==> Commands[c.Code() - 1] == c
  {
    match c
    case NoCommand =>
    case Push => case Dup => case Copy => case Swap => case Discard => case Slide =>
    case Add => case Sub => case Mul => case Div => case Mod =>
    case Store => case Retrieve =>
    case Mark => case Call => case Jump => case JZero => case JNeg => case Ret => case End =>
    case WriteChar => case WriteNum => case ReadChar => case ReadNum =>
  }

  /** Distinct commands have distinct codes. */
  lemma CodeInjective(a: Command, b: Command)
    ensures a.Code() == b.Code() <==> a == b
  {
    CodeIndex(a);
    CodeIndex(b);
  }

  /** The dynamic `Param any` of the source: absent (nil), an int or a string. */
  datatype Param = NoParam | Number(n: int64) | Label(l: seq<byte>)

  datatype OpCode = OpCode(cmd: Command, param: Param, seg: int, pos: int)
  {
    /** `String()`: `(Seg:Pos) Cmd`, followed by a space and the Go syntax of
        the parameter when there is one. */
    function String(): string
    {
      Rendered(Header(), param)
    }

    function Header(): string
    {
      "(" + Decimal(seg) + ":" + Decimal(pos) + ") " + cmd.Name()
    }
  }

  /** The parameter of `op` has the shape its command needs: what `Load`
      produces and what `Step`'s type assertions expect. */
  predicate WellShaped(op: OpCode) {
    && op.cmd != NoCommand
    && (op.param.Number? <==> op.cmd.TakesNumber())
    && (op.param.Label? <==> op.cmd.TakesLabel())
  }

  // ---------------------------------------------------------------------
  // `%#v` of a parameter: decimal text for an int, a double-quoted Go string
  // literal for a string

  function GoSyntax(p: Param): string
  {
    match p
    case NoParam => "<nil>"
    case Number(n) => Decimal(n)
    case Label(l) => Quote(l)
  }

  function HexDigit(d: nat): char
    requires d < 16
  {
    "0123456789abcdef"[d]
  }

  /** How `strconv.Quote` writes one byte inside the quotes. */
  function Escape(c: byte): (s: string)
    ensures 0 < |s| <= 4
  {
    var n := c as int;
    if n == 7 then "\\a"
    else if n == 8 then "\\b"
    else if n == 12 then "\\f"
    else if c == '\n' then "\\n"
    else if c == '\r' then "\\r"
    else if c == '\t' then "\\t"
    else if n == 11 then "\\v"
    else if c == '"' then "\\\""
    else if c == '\\' then "\\\\"
    else if 0x20 <= n < 0x7f then [c]
    else "\\x" + [HexDigit(n / 16), HexDigit(n % 16)]
  }

  function QuoteBody(l: seq<byte>): string
  {
    if l == [] then [] else Escape(l[0]) + QuoteBody(l[1..])
  }

  function Quote(l: seq<byte>): string
  {
    "\"" + QuoteBody(l) + "\""
  }

  // Reading a quoted label back: the reference that `Quote` is checked against.

  function HexValue(c: char): nat
  {
    if '0' <= c <= '9' then c as int - '0' as int
    else if 'a' <= c <= 'f' then c as int - 'a' as int + 10
    else 0
  }

  function EscapedChar(e: char): char
  {
    match e
    case 'a' => 7 as char
    case 'b' => 8 as char
    case 'f' => 12 as char
    case 'n' => '\n'
    case 'r' => '\r'
    case 't' => '\t'
    case 'v' => 11 as char
    case _ => e
  }

  function Unescape(s: string): string
  {
    if s == [] then []
    else if s[0] == '\\' && |s| >= 4 && s[1] == 'x' then
      [(HexValue(s[2]) * 16 + HexValue(s[3])) as char] + Unescape(s[4..])
    else if s[0] == '\\' && |s| >= 2 then
      [EscapedChar(s[1])] + Unescape(s[2..])
    else
      [s[0]] + Unescape(s[1..])
  }

  function Unquote(s: string): string
  {
    if |s| >= 2 then Unescape(s[1..|s| - 1]) else []
  }

  lemma UnescapePair(e: string, rest: string)
    requires |e| == 2 && e[0] == '\\' && e[1] != 'x'
    ensures Unescape(e + rest) == [EscapedChar(e[1])] + Unescape(rest)
  {
    assert (e + rest)[2..] == rest;
  }

  lemma UnescapePlain(c: char, rest: string)
    requires c != '\\'
    ensures Unescape([c] + rest) == [c] + Unescape(rest)
  {
    assert ([c] + rest)[1..] == rest;
  }

  lemma UnescapeHex(a: char, b: char, rest: string)
    ensures Unescape("\\x" + [a, b] + rest) == [(HexValue(a) * 16 + HexValue(b)) as char] + Unescape(rest)
  {
    assert ("\\x" + [a, b] + rest)[4..] == rest;
  }

  /** The bytes `strconv.Quote` writes as a backslash and a letter or
      punctuation mark, which `EscapedChar` maps back. */
  lemma PairEscapes(c: byte)
    requires c as int in {7, 8, 12, 10, 13, 9, 11} || c == '"' || c == '\\'
    ensures |Escape(c)| == 2 && Escape(c)[0] == '\\' && Escape(c)[1] != 'x'
    ensures EscapedChar(Escape(c)[1]) == c
  {
    var n := c as int;
    if n == 7 {
      assert Escape(c) == "\\a";
    } else if n == 8 {
      assert Escape(c) == "\\b";
    } else if n == 12 {
      assert Escape(c) == "\\f";
    } else if n == 10 {
      assert Escape(c) == "\\n";
    } else if n == 13 {
      assert Escape(c) == "\\r";
    } else if n == 9 {
      assert Escape(c) == "\\t";
    } else if n == 11 {
      assert Escape(c) == "\\v";
    } else if c == '"' {
      assert Escape(c) == "\\\"";
    } else {
      assert Escape(c) == "\\\\";
    }
  }

  lemma EscapeRoundTrip(c: byte, rest: string)
    ensures Unescape(Escape(c) + rest) == [c] + Unescape(rest)
  {
    var e := Escape(c);
    var n := c as int;
    if n in {7, 8, 12, 10, 13, 9, 11} || c == '"' || c == '\\' {
      PairEscapes(c);
      UnescapePair(e, rest);
    } else if 0x20 <= n < 0x7f {
      assert e == [c];
      UnescapePlain(c, rest);
    } else {
      var hi, lo := HexDigit(n / 16), HexDigit(n % 16);
      assert e == "\\x" + [hi, lo];
      assert HexValue(hi) == n / 16 && HexValue(lo) == n % 16;
      UnescapeHex(hi, lo, rest);
    }
  }

  lemma {:induction false} QuoteBodyRoundTrip(l: seq<byte>)
    ensures Unescape(QuoteBody(l)) == l
  {
    if l != [] {
      EscapeRoundTrip(l[0], QuoteBody(l[1..]));
      QuoteBodyRoundTrip(l[1..]);
    }
  }

  /** The `%#v` text of a label parameter is a Go string literal that reads
      back as that label, so the rendering never confuses two labels. */
  lemma QuoteRoundTrip(l: seq<byte>)
    ensures Unquote(Quote(l)) == l
  {
    var q := Quote(l);
    assert q[1..|q| - 1] == QuoteBody(l);
    QuoteBodyRoundTrip(l);
  }

  /** The text after the header: nothing for a nil parameter, otherwise a
      space and the parameter's `%#v`. */
  function Rendered(h: string, p: Param): string {
    h + (if p.NoParam? then "" else " " + GoSyntax(p))
  }

  /** The parameter text is whatever follows the header and a space. */
  lemma AfterHeader(h: string, g: string)
    ensures |h| < |h + (" " + g)|
    ensures (h + (" " + g))[..|h|] == h
    ensures (h + (" " + g))[|h| + 1..] == g
  {
  }

  lemma RenderedLayout(h: string, p: Param)
    ensures var s := Rendered(h, p);
      && |h| <= |s| && s[..|h|] == h
      && (p.NoParam? <==> |s| == |h|)
      && (p.Number? ==> ParseDecimal(s[|h| + 1..]) == p.n)
      && (p.Label? ==> Unquote(s[|h| + 1..]) == p.l)
  {
    if p.NoParam? {
      assert Rendered(h, p) == h + "";
    } else {
      AfterHeader(h, GoSyntax(p));
      if p.Number? {
        DecimalRoundTrip(p.n);
      } else {
        QuoteRoundTrip(p.l);
      }
    }
  }

  /** `String()` is the header `(Seg:Pos) Cmd`, and a parameter part exactly
      when `Param` is non-nil; that part reads back as the parameter. */
  lemma StringLayout(op: OpCode)
    ensures var h := op.Header(); var s := op.String();
      && |h| <= |s| && s[..|h|] == h
      && (op.param.NoParam? <==> |s| == |h|)
      && (op.param.Number? ==> ParseDecimal(s[|h| + 1..]) == op.param.n)
      && (op.param.Label? ==> Unquote(s[|h| + 1..]) == op.param.l)
  {
    RenderedLayout(op.Header(), op.param);
  }
}
