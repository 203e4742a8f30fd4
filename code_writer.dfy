/**
 * The code writer: turns commands into Hack assembly lines, appended one at
 * a time to a growing list. Every command becomes a block of fixed shape;
 * the comparison blocks jump to absolute line numbers computed from the
 * length of the list at the time of emission.
 */
module CodeWriter {
  import opened Decimal
  import opened Syntax

  /** `get_symbol`: the operand of the first `@` line of a push or pop. */
  function GetSymbol(seg: Segment, index: I64): (sym: string)
    ensures |sym| >= 1
    ensures (IsDigit(sym[0]) || sym[0] == '-') <==> !(seg.Local? || seg.Argument? || seg.This? || seg.That?)
    ensures seg.Local? ==> sym == "LCL"
    ensures seg.Argument? ==> sym == "ARG"
    ensures seg.This? ==> sym == "THIS"
    ensures seg.That? ==> sym == "THAT"
  {
    match seg
    case Constant => IntToString(index)
    case Local => "LCL"
    case Argument => "ARG"
    case That => "THAT"
    case This => "THIS"
    case Temp => IntToString(5 + index)
    case Pointer => IntToString(3 + index)
    case Static => IntToString(16)
  }

  /** `set_a`'s line: `@` and the symbol. */
  function At(symbol: string): string
  {
    "@" + symbol
  }

  /** How many steps the range `0..index` takes: none for an index of zero or below. */
  function IncCount(index: int): nat
  {
    if index > 0 then index else 0
  }

  /** What `inc_a(index)` emits: one `A=A+1` per step of `0..index`. */
  function IncALines(index: int): (ls: seq<string>)
    ensures |ls| == IncCount(index)
    ensures forall k :: 0 <= k < |ls| ==> ls[k] == "A=A+1"
  {
    seq(IncCount(index), _ => "A=A+1")
  }

  /** What `write_binary_operation(op)` emits. */
  function BinaryBlock(op: string): (b: seq<string>)
    ensures |b| == 10 && b[8..] == [At("SP"), "M=M+1"]
  {
    [At("SP"), "M=M-1", "A=M", "D=M", At("SP"), "M=M-1", "A=M", "M=M" + op + "D", At("SP"), "M=M+1"]
  }

  /** What `write_prefix_operation(op)` emits. */
  function PrefixBlock(op: string): (b: seq<string>)
    ensures |b| == 6 && b[4..] == [At("SP"), "M=M+1"]
  {
    [At("SP"), "M=M-1", "A=M", "M=" + op + "M", At("SP"), "M=M+1"]
  }

  /** The first eight lines of a comparison: pop both operands, D := left - right. */
  const CompareHead: seq<string> := [At("SP"), "M=M-1", "A=M", "D=M", At("SP"), "M=M-1", "A=M", "D=M-D"]

  /** Stores a value (`store` is `M=0` or `M=-1`) at the top of the stack and moves the stack pointer up. */
  function PushValue(store: string): seq<string>
  {
    [At("SP"), "A=M", store, At("SP"), "M=M+1"]
  }

  /** A comparison that jumps to line `onTrue` when it holds and then on to line `done`. */
  function CompareLines(cmp: string, onTrue: string, done: string): seq<string>
  {
    CompareHead + [At(onTrue), "D;" + cmp] + PushValue("M=0") + [At(done), "0;JMP"] + PushValue("M=-1")
  }

  /**
   * What `write_compare(cmp)` emits when the list holds `start` lines: the
   * two jump targets are the list's length at their `@` line plus 9 and
   * plus 7.
   */
  function CompareBlock(cmp: string, start: nat): (b: seq<string>)
    ensures |b| == 22
  {
    var firstLoad := start + 8;
    var secondLoad := start + 15;
    CompareLines(cmp, IntToString(firstLoad + 9), IntToString(secondLoad + 7))
  }

  /** Folds the two jump targets into CompareBlock. */
  lemma CompareBlockIs(cmp: string, start: nat, onTrue: int, done: int)
    requires onTrue == start + 8 + 9 && done == start + 15 + 7
    ensures CompareBlock(cmp, start) == CompareLines(cmp, IntToString(onTrue), IntToString(done))
  {
  }

  /**
   * The comparison block has 22 lines. Its line 8 loads the position of its
   * line 17, where the branch that pushes true starts; its line 15 loads the
   * position just past its end.
   */
  lemma CompareJumpTargets(cmp: string, start: nat)
    ensures var b := CompareBlock(cmp, start);
      |b| == 22 &&
      b[8] == At(IntToString(start + 17)) && b[9] == "D;" + cmp &&
      b[17..] == PushValue("M=-1") && b[17] == At("SP") &&
      b[15] == At(IntToString(start + 22)) && b[16] == "0;JMP"
  {
  }

  /**
   * The same jump targets, as positions in the whole list the block was
   * appended to: with `L` the length of the list at the first jump load,
   * line `L` loads `L + 9`, the first line of the branch that pushes true,
   * and line `L + 7` loads `L + 14`, the length of the list once the block
   * is done.
   */
  lemma CompareTargetsInCode(before: seq<string>, cmp: string)
    ensures var code := before + CompareBlock(cmp, |before|);
      var L := |before| + 8;
      code[L] == At(IntToString(L + 9)) && code[L + 9] == At("SP") &&
      code[L + 7] == At(IntToString(L + 14)) && |code| == L + 14
  {
    var b := CompareBlock(cmp, |before|);
    CompareJumpTargets(cmp, |before|);
    var code := before + b;
    var L := |before| + 8;
    assert code[L] == b[8] && code[L + 9] == b[17] && code[L + 7] == b[15];
  }

  /** The lines of a push that bring the value into D, after the `@` line. */
  function PushLoad(seg: Segment, index: I64): seq<string>
  {
    if seg.Constant? then ["D=A"]
    else if seg.Temp? || seg.Pointer? then ["D=M"]
    else ["A=M"] + IncALines(index) + ["D=M"]
  }

  /** What `write_push_segment(seg, index)` emits. */
  function PushBlock(seg: Segment, index: I64): (b: seq<string>)
    ensures |b| == if seg.Constant? || seg.Temp? || seg.Pointer? then 7 else 8 + IncCount(index)
  {
    [At(GetSymbol(seg, index))] + PushLoad(seg, index) + [At("SP"), "A=M", "M=D", At("SP"), "M=M+1"]
  }

  /** The lines of a pop that put the destination address into A, after the `@` line. */
  function PopAddress(seg: Segment, index: I64): seq<string>
  {
    if seg.Temp? || seg.Pointer? || seg.Constant? then []
    else ["A=M"] + IncALines(index)
  }

  /** What `write_pop_segment(seg, index)` emits. */
  function PopBlock(seg: Segment, index: I64): (b: seq<string>)
    ensures |b| == if seg.Constant? || seg.Temp? || seg.Pointer? then 6 else 7 + IncCount(index)
  {
    [At("SP"), "M=M-1", "A=M", "D=M", At(GetSymbol(seg, index))] + PopAddress(seg, index) + ["M=D"]
  }

  /** The block `write_code` emits for one command when the list holds `start` lines. */
  function CommandBlock(c: Command, start: nat): (b: seq<string>)
    ensures |b| >= 6
  {
    match c
    case Stack(Push, seg, index) => PushBlock(seg, index)
    case Stack(Pop, seg, index) => PopBlock(seg, index)
    case Add => BinaryBlock("+")
    case Sub => BinaryBlock("-")
    case And => BinaryBlock("&")
    case Or => BinaryBlock("|")
    case Eq => CompareBlock("JEQ", start)
    case Lt => CompareBlock("JLT", start)
    case Gt => CompareBlock("JGT", start)
    case Neg => PrefixBlock("-")
    case Not => PrefixBlock("!")
  }

  /**
   * The lines `write_code` appends for `cs` when the list holds `start`
   * lines: the block of the first command at `start`, then the rest after
   * it.
   */
  function Emit(start: nat, cs: seq<Command>): (e: seq<string>)
    ensures cs == [] ==> e == []
    ensures cs != [] ==> CommandBlock(cs[0], start) <= e
  {
    EmitBy(CommandBlock, start, cs)
  }

  /**
   * The same fold for any way `block` of turning a command at a position
   * into lines; the lemmas about the fold are stated over it, so that
   * they do not depend on what the blocks hold.
   */
  function EmitBy(block: (Command, nat) -> seq<string>, start: nat, cs: seq<Command>): seq<string>
    decreases |cs|
  {
    if cs == [] then []
    else
      var first := block(cs[0], start);
      first + EmitBy(block, start + |first|, cs[1..])
  }

  /** The fold from position `i` on: the block of `cs[i]`, then the rest from `next`. */
  lemma EmitFrom(block: (Command, nat) -> seq<string>, start: nat, cs: seq<Command>, i: nat, next: nat)
    requires i < |cs|
    requires next == start + |block(cs[i], start)|
    ensures EmitBy(block, start, cs[i..]) == block(cs[i], start) + EmitBy(block, next, cs[i + 1..])
  {
    assert cs[i..][0] == cs[i] && cs[i..][1..] == cs[i + 1..];
  }

  lemma Associate(a: seq<string>, b: seq<string>, c: seq<string>, d: seq<string>)
    ensures a + (b + c + d) == a + b + c + d
  {
  }

  /** Five lines appended one at a time are the five lines appended at once. */
  lemma Spell5(a: seq<string>, l0: string, l1: string, l2: string, l3: string, l4: string)
    ensures a + [l0] + [l1] + [l2] + [l3] + [l4] == a + [l0, l1, l2, l3, l4]
  {
  }

  /** The comparison block written out line by line, as WriteCompare appends it. */
  lemma CompareLinesSpelled(a: seq<string>, cmp: string, onTrue: string, done: string)
    ensures a + [At("SP")] + ["M=M-1"] + ["A=M"] + ["D=M"] + [At("SP")] + ["M=M-1"] + ["A=M"] + ["D=M-D"]
              + [At(onTrue)] + ["D;" + cmp]
              + [At("SP")] + ["A=M"] + ["M=0"] + [At("SP")] + ["M=M+1"]
              + [At(done)] + ["0;JMP"]
              + [At("SP")] + ["A=M"] + ["M=-1"] + [At("SP")] + ["M=M+1"]
            == a + CompareLines(cmp, onTrue, done)
  {
  }

  /**
   * One iteration of `write_code`: once the block of `cs[i]` is appended,
   * what is still to come is the output of the commands after it.
   */
  lemma WriteStep(whole: seq<string>, cs: seq<Command>, i: nat, before: seq<string>, after: seq<string>)
    requires i < |cs|
    requires whole == before + Emit(|before|, cs[i..])
    requires after == before + CommandBlock(cs[i], |before|)
    ensures whole == after + Emit(|after|, cs[i + 1..])
  {
    StepBy(CommandBlock, whole, cs, i, before, after);
  }

  lemma StepBy(block: (Command, nat) -> seq<string>, whole: seq<string>, cs: seq<Command>, i: nat, before: seq<string>, after: seq<string>)
    requires i < |cs|
    requires whole == before + EmitBy(block, |before|, cs[i..])
    requires after == before + block(cs[i], |before|)
    ensures whole == after + EmitBy(block, |after|, cs[i + 1..])
  {
    var b := block(cs[i], |before|);
    assert |after| == |before| + |b|;
    EmitFrom(block, |before|, cs, i, |after|);
    var rest := EmitBy(block, |after|, cs[i + 1..]);
    Chain(before, b, rest, after, b + rest, whole);
  }

  lemma Chain(a: seq<string>, p: seq<string>, q: seq<string>, ap: seq<string>, pq: seq<string>, apq: seq<string>)
    requires ap == a + p && pq == p + q && apq == a + pq
    ensures apq == ap + q
  {
  }

  /** The `Display` text: every line followed by a newline, in order. */
  function Render(lines: seq<string>): (text: string)
    ensures |text| >= |lines|
  {
    if lines == [] then "" else Render(lines[..|lines| - 1]) + lines[|lines| - 1] + "\n"
  }

  /** The writer: `code` is the list of assembly lines emitted so far. */
  class CodeWriter {
    var code: seq<string>

    /** `CodeWriter::new`. */
    constructor ()
      ensures code == []
    {
      code := [];
    }

    /** `write_code`: the blocks of the commands are appended in input order. */
    method WriteCode(commands: seq<Command>)
      modifies this
      ensures code == old(code) + Emit(|old(code)|, commands)
    {
      var i := 0;
      assert commands[i..] == commands;
      while i < |commands|
        invariant 0 <= i <= |commands|
        invariant old(code) + Emit(|old(code)|, commands) == code + Emit(|code|, commands[i..])
      {
        var command := commands[i];
        ghost var before := code;
        match command {
          case Stack(act, seg, index) => WritePushPop(act, seg, index);
          case Add => WriteBinaryOperation("+");
          case Sub => WriteBinaryOperation("-");
          case And => WriteBinaryOperation("&");
          case Or => WriteBinaryOperation("|");
          case Eq => WriteCompare("JEQ");
          case Lt => WriteCompare("JLT");
          case Gt => WriteCompare("JGT");
          case Neg => WritePrefixOperation("-");
          case Not => WritePrefixOperation("!");
        }
        WriteStep(old(code) + Emit(|old(code)|, commands), commands, i, before, code);
        i := i + 1;
      }
      assert commands[i..] == [];
    }

    method WritePushPop(act: StackAction, seg: Segment, index: I64)
      modifies this
      ensures code == old(code) + CommandBlock(Stack(act, seg, index), |old(code)|)
    {
      match act {
        case Push => WritePushSegment(seg, index);
        case Pop => WritePopSegment(seg, index);
      }
    }

    method WriteBinaryOperation(op: string)
      modifies this
      ensures code == old(code) + BinaryBlock(op)
    {
      SetA("SP");
      DecM();
      SetAFromM();
      SetDFromM();
      SetA("SP");
      DecM();
      SetAFromM();
      AppendLines("M=M" + op + "D");
      SetA("SP");
      IncM();
    }

    method WritePrefixOperation(op: string)
      modifies this
      ensures code == old(code) + PrefixBlock(op)
    {
      SetA("SP");
      DecM();
      SetAFromM();
      AppendLines("M=" + op + "M");
      SetA("SP");
      IncM();
    }

    /**
     * `write_compare`: appends the comparison block for the current length,
     * whose jump targets CompareTargetsInCode locates.
     */
    method WriteCompare(cmp: string)
      modifies this
      ensures code == old(code) + CompareBlock(cmp, |old(code)|)
    {
      ghost var c0 := code;
      SetA("SP");
      DecM();
      SetAFromM();
      SetDFromM();
      SetA("SP");
      DecM();
      SetAFromM();
      AppendLines("D=M-D");
      // compare
      var onTrueAt := |code| + 9;
      var onTrue := IntToString(onTrueAt);
      SetA(onTrue);
      AppendLines("D;" + cmp);
      // push false
      SetA("SP");
      SetAFromM();
      AppendLines("M=0");
      SetA("SP");
      IncM();
      var doneAt := |code| + 7;
      var done := IntToString(doneAt);
      SetA(done);
      AppendLines("0;JMP");
      // push true (-1)
      SetA("SP");
      SetAFromM();
      AppendLines("M=-1");
      SetA("SP");
      IncM();
      CompareLinesSpelled(c0, cmp, onTrue, done);
      CompareBlockIs(cmp, |c0|, onTrueAt, doneAt);
    }

    method WritePushSegment(seg: Segment, index: I64)
      modifies this
      ensures code == old(code) + PushBlock(seg, index)
    {
      ghost var c0 := code;
      var symbol := GetSymbol(seg, index);
      SetA(symbol);
      ghost var c1 := code;
      if seg.Constant? {
        SetDFromA();
      } else if seg.Temp? || seg.Pointer? {
        SetDFromM();
      } else {
        SetAFromM();
        IncA(index);
        SetDFromM();
      }
      assert code == c1 + PushLoad(seg, index);
      ghost var c2 := code;
      SetA("SP");
      SetAFromM();
      SetMFromD();
      SetA("SP");
      IncM();
      Spell5(c2, At("SP"), "A=M", "M=D", At("SP"), "M=M+1");
      Associate(c0, [At(symbol)], PushLoad(seg, index), [At("SP"), "A=M", "M=D", At("SP"), "M=M+1"]);
    }

    method WritePopSegment(seg: Segment, index: I64)
      modifies this
      ensures code == old(code) + PopBlock(seg, index)
    {
      ghost var c0 := code;
      var symbol := GetSymbol(seg, index);
      SetA("SP");
      DecM();
      SetAFromM();
      SetDFromM();
      SetA(symbol);
      Spell5(c0, At("SP"), "M=M-1", "A=M", "D=M", At(symbol));
      ghost var c1 := code;
      if !(seg.Temp? || seg.Pointer? || seg.Constant?) {
        SetAFromM();
        IncA(index);
      }
      assert code == c1 + PopAddress(seg, index);
      SetMFromD();
      Associate(c0, [At("SP"), "M=M-1", "A=M", "D=M", At(symbol)], PopAddress(seg, index), ["M=D"]);
    }

    /** `inc_a`: `for _ in 0..index`, so nothing for an index of zero or below. */
    method IncA(index: I64)
      modifies this
      ensures code == old(code) + IncALines(index)
    {
      var i := 0;
      while i < index
        invariant 0 <= i <= IncCount(index)
        invariant code == old(code) + seq(i, _ => "A=A+1")
      {
        AppendLines("A=A+1");
        assert seq(i + 1, _ => "A=A+1") == seq(i, _ => "A=A+1") + ["A=A+1"];
        i := i + 1;
      }
    }

    method SetA(symbol: string)
      modifies this
      ensures code == old(code) + [At(symbol)]
    {
      AppendLines(At(symbol));
    }

    method SetDFromA()
      modifies this
      ensures code == old(code) + ["D=A"]
    {
      AppendLines("D=A");
    }

    method SetAFromM()
      modifies this
      ensures code == old(code) + ["A=M"]
    {
      AppendLines("A=M");
    }

    method SetMFromD()
      modifies this
      ensures code == old(code) + ["M=D"]
    {
      AppendLines("M=D");
    }

    method SetDFromM()
      modifies this
      ensures code == old(code) + ["D=M"]
    {
      AppendLines("D=M");
    }

    method IncM()
      modifies this
      ensures code == old(code) + ["M=M+1"]
    {
      AppendLines("M=M+1");
    }

    method DecM()
      modifies this
      ensures code == old(code) + ["M=M-1"]
    {
      AppendLines("M=M-1");
    }

    /** `append_lines`: the one place `code` changes; the line goes at the end. */
    method AppendLines(line: string)
      modifies this
      ensures code == old(code) + [line]
    {
      code := code + [line];
    }

    /** `Display::fmt`. */
    function Display(): (text: string)
      reads this
      ensures |text| >= |code|
    {
      Render(code)
    }
  }
}
