# wspace: a verified model of the whitenote Whitespace interpreter

This project models the core of the `wspace` package of whitenote, an
interpreter for the Whitespace language, whose programs are written in
spaces, tabs and line feeds. Every other byte is a comment. The model covers:

- `wspace/vm.go`: the virtual machine.
  - `Load` incrementally decodes a segment of code into opcodes and a label
    table.
  - `Step` runs one opcode on a stack, a heap and a call stack.
  - `Run` steps until the machine terminates or its context is done.
  - `CurrentOpCode`, and the scanners `findWhite`, `read3code`, `readNum`
    and `readLabel`.
- `wspace/opcode.go`: the 24 commands, their documented encodings, and the
  text of an opcode.
- `wspace/error.go`: the twelve error values and their texts.
- `wspace/cmd/wspace/main.go`, the interactive interpreter:
  - the prompt's picture of the pending code (`visualize`);
  - the buffer selector of `SwitchBufReader`;
  - what one line of input does. It is loaded together with the pending
    code; only an unfinished instruction is kept pending; the program runs;
    after a failed run the machine is reset.

The layout follows the source:

- Imperative code is modelled imperatively. `Wspace.VM` is a class with the
  fields of `VM`. Its methods `Load`, `Step`, `Run` and the scanners are
  loops and in-place updates.
  - Each method is proved equal to a function: `Loader.Load`,
    `Machine.Step`, `Machine.Run` and the `Scan` functions.
  - The properties of the source are proved about those functions, as
    lemmas.
- Pure code becomes datatypes and functions. This covers the commands,
  opcodes and errors, the decoding of one instruction, and the step
  semantics.
- `Encoding` defines the documented encoding of every instruction and
  proves that `Load`'s decoder reads it back.
- `Resume` proves that `Load` can be resumed. Code cut anywhere and loaded
  in two calls, with the unconsumed tail carried into the second, gives the
  labels, error and opcodes that one call on the whole code gives, up to
  each later opcode's segment and offset. An
  instruction cut short reports `ErrIncompleteCode`. This is what the
  interactive interpreter relies on when it keeps an unfinished
  instruction pending.
- `Vectors` states the test vectors of `wspace/vm_test.go` about the model.
- `Example` follows `ExampleVM` of `wspace/example_test.go` through the
  `VM` class: the example's code loads as thirteen opcodes and prints
  `Hello!`.

Behaviour reproduced as the code has it:

- Go's `int` is 64 bits: `Words.int64`, with wrap-around by `Words.Wrap`.
- `/` and `%` truncate toward zero.
- `readNum` reads an LF sign as the number 0, but `Push` is never written
  with an LF sign. `Load`'s `switch` on the first three symbols
  (vm.go:64-198) has no case for the opening `"  \n"`, so it falls to the
  default branch and is `ErrInvalidCode`.
- `Slide n` is refused when `n >= len(stack) - 1`.
- A label maps to the index of its own `Mark` opcode. `vm.go:135`
  registers `len(vm.Program)` before appending the `Mark`. At run time
  `Mark` does nothing, so a jump to the label then runs the instruction
  after the `Mark`.
- The guard `n > math.MaxInt >> 1` is checked before each binary digit of a
  number is folded in. `Scan.DigitsFromExact` proves that this guard is
  exact. The digit loop reports `ErrOverflow` exactly when the magnitude
  exceeds `MaxInt`. Every magnitude that fits is read. `math.MinInt` cannot
  be read, because its magnitude exceeds `MaxInt`.

Ports are values. `Machine.Ports` holds the input still to be read, the
output written so far, and whether writes succeed. `fmt.Fscanln` is a
`Machine.Scanner` function given as a parameter. A run-time panic (a
division by zero, or a parameter of the wrong dynamic type) is the outcome
`Machine.Panic`, which leaves the state unchanged. The context of `Run` is
the number of polls after which it reports done.

## Model

| member | source | states |
|---|---|---|
| Words.Wrap | wspace/vm.go:290-316 | the 64-bit result of `+=`, `-=` and `*=`: congruent to the exact result modulo 2^64, and equal to it when it fits |
| Words.TruncDivMod | wspace/vm.go:317-334 | Go's `/` and `%`: `a == b*q + r`, `abs(r) < abs(b)`, the remainder has the dividend's sign, and `abs(b*q) <= abs(a)` |
| Words.DecimalRoundTrip | wspace/vm.go:431-443 | the `%d` text `WriteNum` writes reads back as the number written |
| Words.DecimalInjective | wspace/vm.go:431-443 | two numbers are written as the same text exactly when they are equal |
| Errors.Error.Message | wspace/error.go:5-23 | `Error()` is never the empty text |
| Errors.MessageInjective | wspace/error.go:5-19 | the twelve texts are pairwise distinct, so comparing errors is comparing texts |
| OpCodes.Command.Code | wspace/opcode.go:18-59 | `iota` numbers the commands 1 to 24 and leaves 0 only to the zero value |
| OpCodes.Command.Name | wspace/opcode.go:14-16 | the `stringer` name of a command is never empty |
| OpCodes.Prefix | wspace/opcode.go:23-58 | every command is written with two to four whitespace symbols |
| OpCodes.CodeOrder | wspace/opcode.go:18-59 | there are 24 commands, numbered in declaration order from 1 |
| OpCodes.CodeIndex | wspace/opcode.go:18-59 | a command's number locates it in declaration order |
| OpCodes.CodeInjective | wspace/opcode.go:18-59 | distinct commands have distinct numbers, in both directions |
| OpCodes.EscapeRoundTrip | wspace/opcode.go:61-67 | every byte `%#v` escapes inside a quoted label reads back as that byte |
| OpCodes.QuoteBodyRoundTrip | wspace/opcode.go:61-67 | the escaped body of a label reads back as the label |
| OpCodes.QuoteRoundTrip | wspace/opcode.go:61-67 | the quoted form of a label parameter reads back as the label, so two labels never print alike |
| OpCodes.RenderedLayout | wspace/opcode.go:61-67 | a header is followed by a parameter part exactly when a parameter exists; that part parses back to the number or unquotes to the label |
| OpCodes.StringLayout | wspace/opcode.go:61-67 | `String()` starts with `(Seg:Pos) Cmd`, has a parameter part exactly when `Param` is non-nil, and the parameter reads back from it |
| Scan.NextWhite | wspace/vm.go:494-501 | the next whitespace offset is in range and holds a whitespace byte, or is -1 |
| Scan.NextWhiteFirst | wspace/vm.go:494-501 | no whitespace byte lies before the one found |
| Scan.FindWhite | wspace/vm.go:494-501 | `findWhite` returns an offset inside the tail, or -1 |
| Scan.FindWhiteSpec | wspace/vm.go:494-501 | `findWhite` fails exactly when the tail holds no whitespace, then returning `(0, -1)`; otherwise it returns the first whitespace byte and its offset |
| Scan.Read3Code | wspace/vm.go:503-515 | `read3code` stays inside the buffer; when it succeeds it returns three symbols and counts at least three bytes |
| Scan.Read3CodeFails | wspace/vm.go:503-515 | `read3code` returns `("", 0)` exactly when the tail holds fewer than three whitespace symbols |
| Scan.Read3CodeReads | wspace/vm.go:503-515 | otherwise it returns the first three whitespace symbols of the tail |
| Scan.Read3CodeEnds | wspace/vm.go:503-515 | the count it returns ends on the third symbol, and the range it counts holds exactly those symbols |
| Scan.Read3CodeWhite | wspace/vm.go:503-515 | three whitespace bytes in a row are read as they stand, with a count of 3 |
| Scan.ThreeFromFails | wspace/vm.go:506-513 | the loop of `read3code` fails after `i` turns exactly when fewer than `3 - i` symbols remain |
| Scan.ThreeFromReads | wspace/vm.go:506-513 | the symbols the loop gathers are the whitespace of the range it reads |
| Scan.ThreeFromPrefix | wspace/vm.go:506-513 | the range the loop reads holds exactly the next `3 - i` symbols of the tail |
| Scan.DigitsFrom | wspace/vm.go:528-544 | the digit loop fails with `(0, 0)` and `ErrIncompleteCode` or `ErrOverflow`; when it succeeds it stops just past an LF with a magnitude of at most `MaxInt` |
| Scan.DigitsStep | wspace/vm.go:528-544 | one space or tab digit, taken below the guard, doubles the accumulator and adds its bit without exceeding `MaxInt` |
| Scan.DigitsFromExact | wspace/vm.go:537-543 | on comment-free digits, the loop reports `ErrOverflow` exactly when their binary value exceeds `MaxInt`, and otherwise returns that value |
| Scan.ReadNum | wspace/vm.go:517-549 | `readNum` fails with `(0, 0)`; when it succeeds its count ends on an LF inside the tail and the magnitude fits |
| Scan.Bits | wspace/vm.go:537-543 | the binary digits of a natural number are spaces and tabs whose value is that number |
| Scan.EncodeNum | wspace/opcode.go:23-23 | a number token: a sign symbol (tab for negative), digits, then an LF |
| Scan.ReadNumEncodeNum | wspace/vm.go:517-549 | `readNum` reads back every number token whose magnitude fits in `int`, with its length, whatever follows |
| Scan.ReadNumDigits | wspace/vm.go:517-549 | a sign, space-and-tab digits and an LF read as the signed value, or as `ErrOverflow` when the value exceeds `MaxInt` |
| Scan.ReadNumSigned | wspace/vm.go:517-549 | after a space or tab sign, `readNum` is the digit loop's result, negated for a tab |
| Scan.ReadNumOverflow | wspace/vm.go:537-539 | digits whose value exceeds `MaxInt` are `ErrOverflow` with `(0, 0)`, whatever the sign |
| Scan.LabelFrom | wspace/vm.go:554-564 | the loop of `readLabel` fails with `("", 0)`, or stops just past an LF |
| Scan.ReadLabel | wspace/vm.go:551-565 | `readLabel` fails with `("", 0, ErrIncompleteCode)`, or counts up to and including an LF |
| Scan.LabelFromSpec | wspace/vm.go:554-564 | the loop returns the label so far followed by the whitespace before the first LF, and stops just past that LF |
| Scan.ReadLabelSpec | wspace/vm.go:551-565 | `readLabel` returns the spaces and tabs before the first LF, skipping comments, and counts that LF; without an LF it reports `ErrIncompleteCode` |
| Scan.ReadLabelEncodeLabel | wspace/vm.go:551-565 | `readLabel` reads back every label of spaces and tabs followed by an LF |
| Loader.WithNumber | wspace/vm.go:64-93 | a number instruction is either the command with a number, spanning more bytes, or `ErrIncompleteCode` or `ErrOverflow` |
| Loader.WithLabel | wspace/vm.go:126-164 | a label instruction is either the command with a label, spanning more bytes, or `ErrIncompleteCode` |
| Loader.WithFourth | wspace/vm.go:94-121 | a fourth symbol picks one of its three commands with no parameter, or it is `ErrIncompleteCode` or `ErrInvalidCode` |
| Loader.FourthFound | wspace/vm.go:94-121 | the fourth symbol is the one `findWhite` returns, and its absence is `ErrIncompleteCode` |
| Loader.Pick | wspace/vm.go:100-121 | the fourth symbol gives a real command with no parameter, or `ErrInvalidCode` |
| Loader.StackGroup | wspace/vm.go:64-93 | the stack instructions decode to a well-shaped opcode inside the buffer, or to a load error |
| Loader.TabGroup | wspace/vm.go:94-125 | the arithmetic, heap and I/O instructions decode to a well-shaped opcode inside the buffer, or to a load error |
| Loader.FlowGroup | wspace/vm.go:126-168 | the flow instructions decode to a well-shaped opcode inside the buffer, or to a load error |
| Loader.Decode | wspace/vm.go:59-199 | one instruction decodes to a well-shaped opcode of at least three bytes inside the buffer, or to `ErrIncompleteCode`, `ErrInvalidCode` or `ErrOverflow` |
| Loader.LoadFrom | wspace/vm.go:52-201 | the loop consumes between its start and the end of the buffer, and all of it when there is no error |
| Loader.Seek | wspace/vm.go:53-58 | skipping comment bytes keeps the consumed count in range, and all is consumed when there is no error |
| Loader.LoadAt | wspace/vm.go:59-200 | a turn at an instruction consumes from there, and all of it when there is no error |
| Loader.Load | wspace/vm.go:45-204 | `Load` never consumes more than its buffer |
| Loader.LoadFromSkips | wspace/vm.go:53-58 | comment bytes before the next instruction are skipped; with no whitespace left, the whole buffer is consumed without error |
| Loader.LoadAtAppends | wspace/vm.go:63-200 | a decodable instruction that is not a duplicate `Mark` appends its opcode, registering a `Mark`'s label at the `Mark`'s own index, and the loop goes on after it |
| Loader.LoadAtStops | wspace/vm.go:59-198 | an instruction that cannot be appended stops `Load` at its first symbol with an error, leaving the program and labels unchanged |
| Loader.LoadFromTurn | wspace/vm.go:52-201 | each turn either appends one well-shaped opcode of the segment at a later offset (a `Mark` only for a new label), or stops with the program and labels unchanged |
| Loader.TurnAppends | wspace/vm.go:58-200 | a turn that appends: the opcode, the new label table and where the loop goes on |
| Loader.TurnStops | wspace/vm.go:53-198 | a turn that appends nothing fails at an instruction it could not append, or finds no instruction |
| Loader.AppendedOp | wspace/vm.go:126-136 | the appended opcode is well shaped and lies inside the buffer, and a `Mark` is appended only for a label not yet defined |
| Loader.LoadFromKeeps | wspace/vm.go:482-492 | `Load` only appends: the opcodes it started with are unchanged, even on failure |
| Loader.LoadFromKeepsLabels | wspace/vm.go:131-135 | labels already defined keep their indices, even on failure |
| Loader.LoadFromNew | wspace/vm.go:45-204 | the opcodes one call appends carry its segment number, are well shaped, and lie at strictly increasing offsets within what it consumed |
| Loader.LabelsValidAppend | wspace/vm.go:126-136 | appending an opcode, and registering a new `Mark`, keeps every label naming its own `Mark` and every `Mark` registered |
| Loader.LoadFromLabelsValid | wspace/vm.go:126-136 | `Load` preserves that label-table invariant |
| Loader.LoadFromError | wspace/vm.go:59-198 | `Load` fails only with a load error, at a whitespace symbol that does not decode or opens a duplicate `Mark`, and its count points at that symbol |
| Encoding.SplitAt | wspace/opcode.go:23-58 | an encoding laid out in the buffer holds its command part and then its parameter |
| Encoding.DecodeOpens | wspace/vm.go:63-199 | the first symbol of an opening picks the stack, tab or flow group |
| Encoding.EncodedParts | wspace/opcode.go:23-58 | an encoded instruction holds its command's symbols and then its parameter's encoding |
| Encoding.PushDecodes | wspace/vm.go:64-70 | `Push` decodes back with its number, the sign being its third symbol |
| Encoding.CountDecodes | wspace/vm.go:74-93 | `Copy` and `Slide` decode back with their number |
| Encoding.LabelDecodes | wspace/vm.go:126-164 | the label instructions decode back with their label |
| Encoding.PlainDecodes | wspace/vm.go:71-168 | the three-symbol instructions without a parameter decode back |
| Encoding.FourDecodes | wspace/vm.go:94-196 | the four-symbol instructions decode back |
| Encoding.NumberDecodes | wspace/opcode.go:23-28 | every number instruction decodes back, with the length of its encoding |
| Encoding.LabelInstrDecodes | wspace/opcode.go:45-49 | every label instruction decodes back, with the length of its encoding |
| Encoding.BareDecodes | wspace/opcode.go:24-58 | every instruction without a parameter decodes back, with the length of its encoding |
| Encoding.DecodeEncode | wspace/opcode.go:23-58 | decoding the documented encoding of any encodable instruction gives back that instruction and the length of its encoding, whatever follows |
| Encoding.DecodeInvalidOpening | wspace/vm.go:197-198 | each of the seven openings no command has is `ErrInvalidCode` |
| Encoding.DecodeInvalidFourth | wspace/vm.go:108-196 | an LF fourth symbol after the `Div`/`Mod`, write and read openings is `ErrInvalidCode` |
| Encoding.DecodeShort | wspace/vm.go:59-62 | fewer than three whitespace symbols left is `ErrIncompleteCode` |
| Encoding.LoadFromEncoded | wspace/vm.go:52-201 | from any offset where the rest of the buffer is the encoding of a loadable program, the loop appends exactly that program's opcodes at the offsets of their first symbols, registers each `Mark` at its own index, and consumes the whole buffer without error |
| Encoding.LoadEncoded | wspace/vm.go:45-204 | `Load` reads the encoding of any loadable program back as that program, whatever was loaded before: encode then load is the identity on instructions |
| Encoding.LoadPlain | wspace/vm.go:45-204 | a program with no `Mark`, loaded into an empty machine, gives its placed opcodes, no label, the whole buffer consumed and no error |
| Example.HelloEncoded | wspace/example_test.go:11-12 | the example's code is the documented encoding of the thirteen instructions that print `Hello!` |
| Example.HelloPlaced | wspace/example_test.go:11-12 | those instructions lie in segment 1 at offsets 0, 11, 15, 26, 30, 41, 44, 48, 52, 63, 67, 77 and 81 |
| Example.LoadHello | wspace/example_test.go:15-15 | loading the example's code into a new VM gives exactly those opcodes, no label, everything consumed and no error |
| Example.RunHello | wspace/example_test.go:16-17 | running the loaded program writes `Hello!`, terminates on its `End` and reports `nil`, whatever the input |
| Example.ExampleVM | wspace/example_test.go:10-17 | `New`, `Load` and `Run` on the example's code, as the example calls them, output `Hello!` with a `nil` result |
| Machine.StackStep | wspace/vm.go:247-289 | stack commands fail only with `ErrNotEnoughStack` or `ErrInvalidParam`, setting `Terminated` and nothing else; they panic only on a non-number parameter; on success they advance `PC` and keep the heap and call stack |
| Machine.ArithStep | wspace/vm.go:290-334 | arithmetic replaces the top two values `a`, `b` with the wrapped or truncated `a op b`; it fails only with fewer than two values and panics only on a zero divisor |
| Machine.HeapStep | wspace/vm.go:335-355 | `Store`/`Retrieve` fail only with `ErrNotEnoughStack`, never panic, and on success advance `PC` |
| Machine.JumpStep | wspace/vm.go:359-407 | jumps fail only with `ErrUndefinedLabel`, or `ErrNotEnoughStack` when the label exists but the stack is empty; they panic exactly when the parameter is not a label; on success `PC` is the label's index, or the next instruction for an untaken conditional |
| Machine.FlowStep | wspace/vm.go:356-417 | `Mark`, `Ret` and `End` fail exactly when `Ret` meets an empty call stack; `Terminated` becomes set exactly for `End` |
| Machine.DecimalBytes | wspace/vm.go:437-437 | `%d` writes at least one byte |
| Machine.LowByte | wspace/vm.go:424-424 | `byte(v)` keeps `v` modulo 256 |
| Machine.IoStep | wspace/vm.go:418-472 | I/O commands pop one value; writes leave the input and heap alone, reads leave the output alone; an empty stack is `ErrNotEnoughStack` |
| Machine.IoEffects | wspace/vm.go:418-472 | with `top` on the stack: `WriteChar` appends `byte(top)` and `WriteNum` its decimal text, succeeding exactly when the writer accepts; `ReadChar` stores the next input byte at `top` and `ReadNum` the scanned number, succeeding exactly when there is one; the input they read is consumed |
| Machine.PushDupDiscard | wspace/vm.go:247-279 | `Push` puts its number on top; `Dup` copies the top and `Discard` removes it, each failing exactly on an empty stack |
| Machine.CopyEffect | wspace/vm.go:257-264 | `Copy n` succeeds exactly for `0 <= n < len(stack)`, pushing the item `n` below the top; otherwise `ErrInvalidParam` |
| Machine.SwapEffect | wspace/vm.go:265-272 | `Swap` succeeds exactly with two items and exchanges the top two, keeping the rest |
| Machine.SlideEffect | wspace/vm.go:280-289 | `Slide n` succeeds exactly for `0 <= n < len(stack) - 1`, removing the `n` items under the top, which stays; otherwise `ErrInvalidParam` |
| Machine.HeapEffects | wspace/vm.go:335-355 | `Store` needs two items and stores the top at the address under it, keeping every other address; `Retrieve` needs one and replaces the address with its value, 0 when never stored |
| Machine.ConditionalEffect | wspace/vm.go:374-407 | `JZero`/`JNeg`: an undefined label is `ErrUndefinedLabel`; otherwise they fail exactly on an empty stack, pop the top and jump exactly when it is zero or negative |
| Machine.CallJumpEffect | wspace/vm.go:359-373 | `Call` and `Jump` to a defined label go to its index and keep the stack; `Call` pushes the next index on the call stack, `Jump` leaves it |
| Machine.FlowEffect | wspace/vm.go:356-417 | `Mark` only advances `PC`; `Ret` with a non-empty call stack pops its last entry into `PC`; `End` only sets `Terminated`, leaving `PC` where it is |
| Machine.ExecKeepsRunning | wspace/vm.go:246-476 | an instruction that succeeds sets `Terminated` exactly when it is `End`, and otherwise leaves it as it was |
| Machine.Exec | wspace/vm.go:246-476 | every instruction keeps the error discipline; `ErrUnknownOpCode` only for `NoCommand`, the zero value and the only command outside the 24 |
| Machine.Step | wspace/vm.go:238-480 | `ErrTerminated` exactly on a terminated machine and `ErrNotLoaded` exactly past the program, both without change; otherwise the opcode at `PC` runs; the program and labels never change |
| Machine.Run | wspace/vm.go:215-235 | a run never reports `ErrNotLoaded` or `ErrTerminated`; `nil` only on a terminated machine or past the program; the context stops it unterminated, any other error terminated |
| Machine.Poll | wspace/vm.go:220-225 | a done context ends the run with `ErrContextDone` and no change |
| Machine.Turn | wspace/vm.go:226-232 | one step of the loop keeps the run's guarantees |
| Machine.StepShaped | wspace/vm.go:238-480 | on opcodes `Load` produces, no step reports `ErrUnknownOpCode` and the only panic left is a division by zero |
| Machine.RunShaped | wspace/vm.go:215-235 | nor does a run on such a program end with `ErrUnknownOpCode` |
| Machine.RunUnrolls | wspace/vm.go:220-233 | one turn of `Run`: a successful step continues the run from the new state; a failed one ends it with its error, `nil` for `ErrNotLoaded`, leaving `PC` on the failing opcode |
| Machine.RunTurns | wspace/vm.go:220-233 | a run with the context not yet done is one turn of the loop |
| Machine.RunFaultsAtPC | wspace/vm.go:226-231 | a run that ends with a program error leaves `PC` on an existing opcode, so `CurrentOpCode` is non-nil |
| Machine.RunResumes | wspace/vm.go:220-225 | a run stopped by its context resumes where it stopped: `a` polls then `b` more equal `a + b` polls |
| Machine.JumpLandsOnMark | wspace/vm.go:359-407 | with the label table `Load` keeps, a taken jump lands on the `Mark` of its own label |
| Machine.CallThenRet | wspace/vm.go:359-415 | `Ret` undoes `Call`: it returns to the instruction after the `Call` and restores the call stack |
| Machine.StoreThenRetrieve | wspace/vm.go:335-355 | `Retrieve` of an address reads back what `Store` stored there |
| Machine.DivModTruncate | wspace/vm.go:317-334 | on machine words `Div` and `Mod` satisfy `a == b*q + r`, `abs(r) < abs(b)`, and `r` has the sign of `a`, except `MinInt / -1` |
| Machine.TruncDivFits | wspace/vm.go:317-325 | the truncated quotient fits in `int` except for `MinInt / -1` |
| Machine.DivOverflow | wspace/vm.go:317-334 | `MinInt / -1` wraps to `MinInt`, and `MinInt % -1` is 0 |
| Wspace.FindWhite | wspace/vm.go:494-501 | the loop returns what `Scan.FindWhite` specifies |
| Wspace.Read3Code | wspace/vm.go:503-515 | the loop into a three-byte buffer returns what `Scan.Read3Code` specifies |
| Wspace.ReadNum | wspace/vm.go:517-549 | `readNum` returns what `Scan.ReadNum` specifies |
| Wspace.Digits | wspace/vm.go:528-544 | the digit loop, with its overflow guard and shift-and-or, returns what `Scan.DigitsFrom` specifies |
| Wspace.ReadLabel | wspace/vm.go:551-565 | the loop that appends to the label returns what `Scan.ReadLabel` specifies |
| Wspace.Fourth | wspace/vm.go:94-121 | the fourth-symbol switch computes `Loader.WithFourth` |
| Wspace.Numbered | wspace/vm.go:64-93 | reading a number parameter computes `Loader.WithNumber` |
| Wspace.Labelled | wspace/vm.go:126-164 | reading a label parameter computes `Loader.WithLabel` |
| Wspace.DecodeAt | wspace/vm.go:59-199 | the `switch c3` computes `Loader.Decode` |
| Wspace.StackCases | wspace/vm.go:64-93 | the space-opened cases compute `Loader.StackGroup` |
| Wspace.TabCases | wspace/vm.go:94-196 | the tab-opened cases compute `Loader.TabGroup` |
| Wspace.FlowCases | wspace/vm.go:126-168 | the LF-opened cases compute `Loader.FlowGroup` |
| Wspace.VM.New | wspace/vm.go:32-41 | a new VM is empty, unterminated at `PC` 0, with segment 1 next |
| Wspace.VM.CurrentOpCode | wspace/vm.go:207-212 | nil exactly when `PC` is past the program, otherwise the opcode at `PC` |
| Wspace.VM.AppendOpCode | wspace/vm.go:482-492 | one opcode of the current segment is appended and nothing else changes |
| Wspace.VM.LoadInstruction | wspace/vm.go:59-200 | one turn of `Load`'s loop moves forward as `Loader.LoadAt` says, or stops with its error; only the program and labels change |
| Wspace.VM.Load | wspace/vm.go:45-204 | `Load` returns the segment it loaded into and leaves the program, labels, count and error `Loader.Load` specifies; `Seg` goes up exactly when something was consumed; the registers are untouched |
| Wspace.VM.Defer | wspace/vm.go:47-51 | the deferred `Seg++` happens exactly when `pos > 0` |
| Wspace.VM.StackOp | wspace/vm.go:247-289 | the stack commands, updating the fields in place, do what `Machine.StackStep` says |
| Wspace.VM.ArithOp | wspace/vm.go:290-334 | the arithmetic commands do what `Machine.ArithStep` says |
| Wspace.VM.HeapOp | wspace/vm.go:335-355 | `Store` and `Retrieve` do what `Machine.HeapStep` says |
| Wspace.VM.JumpOp | wspace/vm.go:359-407 | the jumps do what `Machine.JumpStep` says |
| Wspace.VM.FlowOp | wspace/vm.go:356-417 | `Mark`, `Ret` and `End` do what `Machine.FlowStep` says |
| Wspace.VM.IoOp | wspace/vm.go:418-472 | the I/O commands do what `Machine.IoStep` says on the given ports and scanner |
| Wspace.VM.Step | wspace/vm.go:238-480 | `Step` leaves the machine, ports and outcome `Machine.Step` specifies, and keeps `Seg` |
| Wspace.VM.Run | wspace/vm.go:215-235 | the loop of `Run` leaves the machine, ports and outcome `Machine.Run` specifies |
| Repl.Glyph | wspace/cmd/wspace/main.go:108-115 | a whitespace byte is pictured as `.`, `_` or `,` |
| Repl.Visualized | wspace/cmd/wspace/main.go:105-118 | the picture is no longer than the code |
| Repl.Visualize | wspace/cmd/wspace/main.go:105-118 | the loop builds the picture `Visualized` specifies |
| Repl.DepictsSame | wspace/cmd/wspace/main.go:105-118 | two faithful pictures are equal exactly when the symbols they picture are |
| Repl.VisualizedWs | wspace/cmd/wspace/main.go:105-118 | the picture is one glyph per whitespace symbol of the code, in order, and nothing for comments |
| Repl.VisualizedAlphabet | wspace/cmd/wspace/main.go:108-115 | only `.`, `_` and `,` appear in a picture |
| Repl.VisualizedAppend | wspace/cmd/wspace/main.go:105-118 | the picture of a concatenation is the concatenation of the pictures |
| Repl.VisualizedFaithful | wspace/cmd/wspace/main.go:69-69 | the prompt shows two pending buffers alike exactly when they hold the same whitespace symbols |
| Repl.SwitchBufReader.New | wspace/cmd/wspace/main.go:141-151 | `n` unallocated buffers, the first one selected |
| Repl.SwitchBufReader.Switch | wspace/cmd/wspace/main.go:153-159 | `Switch(n)` succeeds exactly for an existing buffer, which it selects; otherwise the selection is unchanged |
| Repl.KeepsUnfinished | wspace/cmd/wspace/main.go:82-89 | the pending code is dropped unless the load stopped on an unfinished instruction; then what is kept starts at that instruction's first symbol |
| Repl.PendingResumes | wspace/cmd/wspace/main.go:82-89 | loading the next line after the kept pending code gives the labels, error, consumed total and opcodes (in a later segment, at shifted offsets) that loading both at once gives; after any other error nothing is kept and the longer code fails the same way |
| Repl.Accept | wspace/cmd/wspace/main.go:82-89 | the line is appended to the pending code, the whole of it is loaded as `Loader.Load` says, and the pending code is what the rule keeps |
| Repl.Recover | wspace/cmd/wspace/main.go:96-101 | after a failed run `PC` goes past the program and `Terminated` is cleared; stack, heap and call stack are kept |
| Repl.Settled | wspace/cmd/wspace/main.go:96-101 | the reset keeps the program, labels, stack, heap and call stack |
| Repl.Loaded | wspace/cmd/wspace/main.go:83-83 | loading changes only the program and labels |
| Repl.Submit | wspace/cmd/wspace/main.go:75-101 | one line: a line starting with `%` is skipped, changing nothing; otherwise the load, the pending code, the segment count; with nothing consumed, no run; otherwise the run of the loaded machine, reset when it reports an error |
| Repl.RecoveryIsQuiet | wspace/cmd/wspace/main.go:96-101 | a failed run leaves a current opcode to report, and after the reset a run does nothing and reports nothing |
| Repl.ResumesAtNewSegment | wspace/cmd/wspace/main.go:96-101 | after the reset the program only grows, and `PC` lands on the first opcode of the next segment |
| Resume.NextWhiteExtend | wspace/vm.go:494-501 | a whitespace symbol found in a buffer is found in any extension of it; with none found, the search goes on where the extension starts |
| Resume.NextWhiteShift | wspace/vm.go:494-501 | the search in a tail does not see what precedes it; offsets move by the length of the prefix |
| Resume.Read3CodeExtend | wspace/vm.go:503-515 | `read3code` that succeeds reads the same in any extension |
| Resume.Read3CodeShift | wspace/vm.go:503-515 | `read3code` on a tail does not see what precedes it |
| Resume.ReadNumExtend | wspace/vm.go:517-549 | `readNum` that does not run out of code reads the same in any extension |
| Resume.ReadNumShift | wspace/vm.go:517-549 | `readNum` on a tail does not see what precedes it |
| Resume.ReadLabelExtend | wspace/vm.go:551-565 | `readLabel` that finds its LF reads the same label in any extension |
| Resume.ReadLabelShift | wspace/vm.go:551-565 | `readLabel` on a tail does not see what precedes it |
| Resume.DecodeExtends | wspace/vm.go:59-199 | more code changes the decoding of an instruction only when it was `ErrIncompleteCode` |
| Resume.DecodeCut | wspace/vm.go:59-199 | an instruction cut short before its end decodes to `ErrIncompleteCode` |
| Resume.DecodeShift | wspace/vm.go:59-199 | an instruction decodes the same wherever its code sits |
| Resume.LoadFromExtend | wspace/vm.go:52-201 | loading an extended buffer goes on from where loading the buffer stopped, with what it built; a failure other than `ErrIncompleteCode` stays the same failure at the same place |
| Resume.LoadFromShift | wspace/vm.go:52-201 | loading a tail after a prefix gives the labels and error of loading the tail alone, the count moved by the prefix, and the same opcodes moved to the prefix's segment and offsets |
| Resume.LoadResumes | wspace/vm.go:45-204 | two `Load` calls, the second on the unconsumed rest plus more code, agree with one call on all the code: same labels and error, counts adding up, the first call's opcodes first, and each later opcode the same command and parameter at an offset shifted by the first count |
| Vectors.ReadNumNoSign | wspace/vm_test.go:15-15 | `"aaa"` is `ErrIncompleteCode` with `(0, 0)` |
| Vectors.ReadNumUnterminated | wspace/vm_test.go:16-16 | `" \t "` is `ErrIncompleteCode` with `(0, 0)` |
| Vectors.ReadNumZeroSign | wspace/vm_test.go:17-17 | `"\n"` reads 0 in one byte |
| Vectors.ReadNumSkipsComments | wspace/vm_test.go:18-18 | `"aa \n"` reads 0 in four bytes |
| Vectors.ReadNumNoDigits | wspace/vm_test.go:19-19 | `"aa a\n"` reads 0 in five bytes |
| Vectors.ReadNumNoDigitsNegative | wspace/vm_test.go:20-20 | `"\tabc\n"` reads 0 in five bytes |
| Vectors.ReadNumTen | wspace/vm_test.go:21-21 | `" \t \t \n"` reads 10 in six bytes, and is the token for 10 |
| Vectors.ReadNumNegative | wspace/vm_test.go:22-22 | `"aa\t\t  \n"` reads -4 in seven bytes |
| Vectors.ReadNumOverflows | wspace/vm_test.go:24-24 | a one followed by 63 zeros, 2^63, is `ErrOverflow` |
| Vectors.StackTable | wspace/vm_test.go:45-47 | `Push`, `Dup` and `Copy` give the stacks the test expects |
| Vectors.StackTableRest | wspace/vm_test.go:48-50 | `Swap`, `Discard` and `Slide` give the stacks the test expects |
| Vectors.ArithTable | wspace/vm_test.go:74-76 | `Add`, `Sub` and `Mul` give the stacks the test expects |
| Vectors.DivModTable | wspace/vm_test.go:77-78 | `Div` and `Mod` on `7, 3` give 2 and 1 |
| Vectors.HeapTable | wspace/vm_test.go:99-131 | `Store` puts 12345 at 10, and `Retrieve` reads it back |
| Vectors.JumpVector | wspace/vm_test.go:148-156 | `Jump` goes to the label's index 0 |
| Vectors.CallRetVector | wspace/vm_test.go:158-180 | `Call` pushes 4 and goes to 1; `Ret` comes back to 4 |
| Vectors.JZeroVector | wspace/vm_test.go:181-204 | `JZero` falls through on -1 and jumps on 0, popping each time |
| Vectors.JNegVector | wspace/vm_test.go:205-228 | `JNeg` falls through on 0 and jumps on -1, popping each time |
| Vectors.EndVector | wspace/vm_test.go:229-239 | `End` terminates without error and leaves `PC` at 0 |
| Vectors.ReadCharVector | wspace/vm_test.go:245-259 | `ReadChar` stores `'a'` at address 0 |
| Vectors.ReadNumVector | wspace/vm_test.go:261-270 | `ReadNum` stores the scanned 123 at address 1 and consumes the line |
| Vectors.WriteCharVector | wspace/vm_test.go:272-290 | `WriteChar` writes `c` and pops it |
| Vectors.WriteNumVector | wspace/vm_test.go:292-304 | `WriteNum` then writes `123` |

## Left out

- I/O. The reader and writer of `Step` and `Run` are the values in `Machine.Ports`. A failing writer or reader is `writable == false` or exhausted input, with the outcome `IoFail`. The actual error value they return is not modelled.
- `fmt.Fscanln`, used by the `ReadNum` command, is a `Machine.Scanner` parameter: a function from the input to a value, or failure, and the bytes used. Its parsing rules are not modelled.
- `Machine.Run`: the context is the number of polls after which it reports done. That number is also the fuel bound, so a run that would step forever on a context that is never done is not modelled. Concurrency and real time are left out.
- Go run-time panics are the outcome `Machine.Panic`. They arise from a division by zero and from a parameter of the wrong dynamic type, as when an opcode is built by hand as in `wspace/vm_test.go`. The unwinding of a panic is not modelled.
- `Run` wraps a reader that is not an `InputReader` in a `bufio.Reader`. Within one call this has no effect on the values read. Across calls on the same plain reader, the bytes a previous `bufio.Reader` read ahead are lost. `Machine.Ports` stands for an `InputReader`, whose unread input carries over from one call to the next, as `Machine.RunResumes` uses it.
- `SwitchBufReader`'s reading methods (`Read`, `ReadByte`, `ReadLine`, `switchBufReadFn`) are left out: they are reader plumbing. `Repl.SwitchBufReader` keeps the per-client buffers and the selection, and proves `Switch`.
- `NewSwitchBufReader` with a negative `n` panics in `make`. `Repl.SwitchBufReader.New` takes a `nat`.
- In `interactive` (`wspace/cmd/wspace/main.go`), the following are left out as terminal I/O:
  - the printing of the prompt, the diagnostics and `showVM`;
  - what `%debug` prints. `Repl.Submit` skips every line that starts with `%`, as lines 75-80 do;
  - the exit on a read error.
- The `Switch(0)` and `Switch(1)` calls of `interactive` select the buffer that the left-out reading methods use.
- `whitenote.go`, `cmd/main.go` and the batch front end of `wspace/cmd/wspace/main.go` (`main`, file evaluation) are not part of this model.
- OpCodes.Command.Name: the `stringer`-generated file that gives a `Command` its name is not part of this model. The names are the constants' names, and `Command(0)` is the zero value's name.
- OpCodes.Command: Go's `Command` is a plain `int`. Values outside 0..24 are not represented. `Step`'s default branch (vm.go:474-476) would report them as `ErrUnknownOpCode`, as it does `NoCommand`, and `Load` never produces them.
- OpCodes.Escape: models `strconv.Quote` byte by byte. Every byte at or above 0x7f is escaped as `\xNN`, and UTF-8 sequences are not kept as characters. Labels hold only spaces and tabs, so no label `Load` produces is affected.
- Machine.IoStep: a byte read from empty input fails and consumes nothing. A failed scan consumes the bytes the scanner reports. A failed write records no output. Partial writes and the error values of the reader and writer are not modelled.
- Repl.Submit: takes a line of at least one byte. `ReadLine` returns a line that ends in its LF whenever it reports no error, and lines 75-80 index `c[0]` without a check.
- Wspace.Digits is the digit loop of `readNum` as a method of its own. `Wspace.ReadNum` calls it, so the loop's invariant is stated against `Scan.DigitsFrom` in one place.
- Example.ExampleVM: `context.Background()` is never done; the model gives `Run` at least 13 polls, enough for the 13 steps of the program. `os.Stdin` and `os.Stdout` are the ports: any input, and an output that starts empty and accepts writes.
