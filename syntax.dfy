/**
 * The VM command model: the arithmetic and logic commands and the stack
 * commands `push`/`pop` over eight memory segments.
 */
module Syntax {
  import opened Decimal

  datatype StackAction = Push | Pop

  /**
   * All eight segments the code writer resolves; the parser produces only
   * `Constant`.
   */
  datatype Segment = Constant | Local | Argument | This | That | Temp | Pointer | Static

  datatype Command =
    | Add | Sub | Eq | Lt | Gt | And | Or | Neg | Not
    | Stack(action: StackAction, segment: Segment, index: I64)

  /** The keyword a command's line starts with in VM text. */
  function Keyword(c: Command): string
  {
    match c
    case Add => "add"
    case Sub => "sub"
    case Eq => "eq"
    case Lt => "lt"
    case Gt => "gt"
    case And => "and"
    case Or => "or"
    case Neg => "neg"
    case Not => "not"
    case Stack(Push, _, _) => "push"
    case Stack(Pop, _, _) => "pop"
  }

  function SegmentKeyword(s: Segment): string
  {
    match s
    case Constant => "constant"
    case Local => "local"
    case Argument => "argument"
    case This => "this"
    case That => "that"
    case Temp => "temp"
    case Pointer => "pointer"
    case Static => "static"
  }

  /** The VM text of a stack command before its index: `push constant `. */
  function StackPrefix(c: Command): string
    requires c.Stack?
  {
    Keyword(c) + " " + SegmentKeyword(c.segment) + " "
  }

  /** The canonical VM text of a command: `add`, `push constant 7`, ... */
  function CommandText(c: Command): string
  {
    if c.Stack? then StackPrefix(c) + IntToString(c.index) else Keyword(c)
  }

  /** A program as VM text, one command per line. */
  function ProgramText(cs: seq<Command>): string
  {
    if cs == [] then "" else CommandText(cs[0]) + "\n" + ProgramText(cs[1..])
  }
}
