/** The error values of the whitespace virtual machine (wspace/error.go).

    In the source every error is a constant of the string type `Error`, and
    `Error()` hands back that string.  Here each constant is a constructor and
    `Message()` is its text; `MessageInjective` shows that comparing the
    errors themselves, as `Run` and the REPL do, is the same as comparing
    their texts. */
module Errors {

  datatype Error =
    | ErrIncompleteCode
    | ErrInvalidCode
    | ErrOverflow
    | ErrDuplicateLabel
    | ErrTerminated
    | ErrNotLoaded
    | ErrNotEnoughStack
    | ErrInvalidParam
    | ErrUndefinedLabel
    | ErrEmptyCallStack
    | ErrContextDone
    | ErrUnknownOpCode
  {
    /** The text `Error()` returns. */
    function Message(): (s: string)
      ensures |s| > 0
    {
      match this
      case ErrIncompleteCode => "incomplete sequence"
      case ErrInvalidCode => "invalid sequence"
      case ErrOverflow => "integer overflow"
      case ErrDuplicateLabel => "label already exists"
      case ErrTerminated => "vm already terminated"
      case ErrNotLoaded => "no program loaded"
      case ErrNotEnoughStack => "not enough stack to do"
      case ErrInvalidParam => "invalid parameter"
      case ErrUndefinedLabel => "undefined label"
      case ErrEmptyCallStack => "callstack is empty"
      case ErrContextDone => "context done"
      case ErrUnknownOpCode => "unknown opcode"
    }

    /** The errors a call of `Load` may report. */
    predicate IsLoadError() {
      this in {ErrIncompleteCode, ErrInvalidCode, ErrOverflow, ErrDuplicateLabel}
    }
  }

  /** The twelve texts are pairwise distinct, so equal texts mean equal errors. */
  lemma MessageInjective(a: Error, b: Error)
    ensures a.Message() == b.Message() <==> a == b
  {
  }
}
