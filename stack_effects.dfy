/**
 * What the code writer's blocks do on a Hack computer. A block is made of a
 * few short runs of instructions (address the top of the stack and change
 * it, bump the stack pointer); each run's effect is proved once for any
 * program that holds it at the program counter, and the effect of a block
 * on the stack follows by running them one after another.
 */
module StackEffects {
  import opened Wrappers
  import opened Decimal
  import opened Syntax
  import opened Hack
  import opened CodeWriter

  const ToA := Dest(true, false, false)
  const ToD := Dest(false, true, false)
  const ToM := Dest(false, false, true)

  /** `@SP`: the stack pointer lives at address 0. */
  const AtSP := Load(0)
  /** `M=M-1` */
  const DecM := Compute(ToM, Decr(M), None)
  /** `M=M+1` */
  const IncM := Compute(ToM, Incr(M), None)
  /** `A=M` */
  const AFromM := Compute(ToA, Value(M), None)
  /** `D=M` */
  const DFromM := Compute(ToD, Value(M), None)
  /** `D=A` */
  const DFromA := Compute(ToD, Value(A), None)
  /** `M=D` */
  const MFromD := Compute(ToM, Value(D), None)
  /** `A=A+1` */
  const IncAddr := Compute(ToA, Incr(A), None)

  // The lines the writer emits, decoded.

  lemma DecodeAtSP(line: string)
    requires line == At("SP")
    ensures Decode(line) == Some(AtSP)
  {
    assert line[1..] == "SP";
  }

  lemma DecodeDecM(line: string)
    requires line == "M=M-1"
    ensures Decode(line) == Some(DecM)
  {
    assert Encode(DecM) == "M=M-1";
    DecodeEncode(DecM);
  }

  lemma DecodeIncM(line: string)
    requires line == "M=M+1"
    ensures Decode(line) == Some(IncM)
  {
    assert Encode(IncM) == "M=M+1";
    DecodeEncode(IncM);
  }

  lemma DecodeAFromM(line: string)
    requires line == "A=M"
    ensures Decode(line) == Some(AFromM)
  {
    assert Encode(AFromM) == "A=M";
    DecodeEncode(AFromM);
  }

  lemma DecodeDFromM(line: string)
    requires line == "D=M"
    ensures Decode(line) == Some(DFromM)
  {
    assert Encode(DFromM) == "D=M";
    DecodeEncode(DFromM);
  }

  /** A line of an assembled program is the instruction it decodes to. */
  lemma LineIs(lines: seq<string>, prog: seq<Instr>, k: nat, i: Instr)
    requires Assembles(lines, prog) && k < |lines| && Decode(lines[k]) == Some(i)
    ensures prog[k] == i
  {
    assert LineDecodes(lines, prog, k);
  }

  /** The writer's fixed lines, wherever they sit in an assembled program. */
  lemma LineAtSP(lines: seq<string>, prog: seq<Instr>, k: nat)
    requires Assembles(lines, prog) && k < |lines| && lines[k] == At("SP")
    ensures prog[k] == AtSP
  {
    DecodeAtSP(lines[k]);
    LineIs(lines, prog, k, AtSP);
  }

  lemma LineDecM(lines: seq<string>, prog: seq<Instr>, k: nat)
    requires Assembles(lines, prog) && k < |lines| && lines[k] == "M=M-1"
    ensures prog[k] == DecM
  {
    DecodeDecM(lines[k]);
    LineIs(lines, prog, k, DecM);
  }

  lemma LineIncM(lines: seq<string>, prog: seq<Instr>, k: nat)
    requires Assembles(lines, prog) && k < |lines| && lines[k] == "M=M+1"
    ensures prog[k] == IncM
  {
    DecodeIncM(lines[k]);
    LineIs(lines, prog, k, IncM);
  }

  lemma LineAFromM(lines: seq<string>, prog: seq<Instr>, k: nat)
    requires Assembles(lines, prog) && k < |lines| && lines[k] == "A=M"
    ensures prog[k] == AFromM
  {
    DecodeAFromM(lines[k]);
    LineIs(lines, prog, k, AFromM);
  }

  lemma LineDFromM(lines: seq<string>, prog: seq<Instr>, k: nat)
    requires Assembles(lines, prog) && k < |lines| && lines[k] == "D=M"
    ensures prog[k] == DFromM
  {
    DecodeDFromM(lines[k]);
    LineIs(lines, prog, k, DFromM);
  }

  /** The lines of a four-line block, one by one. */
  lemma Lines4(lines: seq<string>, p: nat, b: seq<string>)
    requires |b| == 4 && p + 4 <= |lines| && lines[p..p + 4] == b
    ensures lines[p] == b[0] && lines[p + 1] == b[1] && lines[p + 2] == b[2] && lines[p + 3] == b[3]
  {
    assert lines[p..p + 4][1] == lines[p + 1] && lines[p..p + 4][2] == lines[p + 2];
    assert lines[p..p + 4][0] == lines[p] && lines[p..p + 4][3] == lines[p + 3];
  }

  // Runs of a few instructions, wherever they sit in a program.

  /** One clock cycle. */
  lemma StepTo(prog: seq<Instr>, s: State, u: State)
    requires s.pc < |prog| && Exec(prog[s.pc], s) == u
    ensures Run(prog, s, 1) == u
  {
    RunStep(prog, s, 0);
  }

  /** One clock cycle, then the rest. */
  lemma RunStep(prog: seq<Instr>, s: State, n: nat)
    requires s.pc < |prog|
    ensures Run(prog, s, n + 1) == Run(prog, Exec(prog[s.pc], s), n)
  {
  }

  /** A run of `m` cycles to `t`, then of `n` cycles to `u`, is a run of `m + n` cycles to `u`. */
  lemma Then(prog: seq<Instr>, s: State, m: nat, t: State, n: nat, u: State)
    requires Run(prog, s, m) == t && Run(prog, t, n) == u
    ensures Run(prog, s, m + n) == u
  {
    RunAppend(prog, s, m, n);
  }

  /** The same, for a total written as `total`, so that a caller can match its own form of `m + n`. */
  lemma Chain(prog: seq<Instr>, s: State, m: nat, t: State, n: nat, total: nat, u: State)
    requires total == m + n && Run(prog, s, m) == t && Run(prog, t, n) == u
    ensures Run(prog, s, total) == u
  {
    RunAppend(prog, s, m, n);
  }

  /** `@SP`, `M=M-1`, `A=M`, then `last`, at position `p`. */
  predicate TopAt(prog: seq<Instr>, p: nat, last: Instr)
  {
    p + 4 <= |prog| && prog[p] == AtSP && prog[p + 1] == DecM && prog[p + 2] == AFromM && prog[p + 3] == last
  }

  /** `@SP`, `M=M+1` at position `p`. */
  predicate BumpAt(prog: seq<Instr>, p: nat)
  {
    p + 2 <= |prog| && prog[p] == AtSP && prog[p + 1] == IncM
  }

  /** The state once `@SP`, `M=M-1`, `A=M` have run: A addresses the new top. */
  function TopAddressed(s: State): State
  {
    var sp: int := Mem(s.ram, 0);
    State(Wrap(sp - 1), s.d, s.pc + 3, s.ram[0 := Wrap(sp - 1)])
  }

  lemma TopAddressedOf(s: State, sp: Word)
    requires Mem(s.ram, 0) == sp >= 1
    ensures TopAddressed(s) == State(sp - 1, s.d, s.pc + 3, s.ram[0 := sp - 1])
  {
  }

  lemma TopAddressedRun(prog: seq<Instr>, s: State, last: Instr, n: nat)
    requires TopAt(prog, s.pc, last)
    ensures Run(prog, s, n + 3) == Run(prog, TopAddressed(s), n)
  {
    var sp: int := Mem(s.ram, 0);
    var s1 := State(0, s.d, s.pc + 1, s.ram);
    var s2 := State(0, s.d, s.pc + 2, s.ram[0 := Wrap(sp - 1)]);
    RunStep(prog, s, n + 2);
    assert Exec(prog[s.pc], s) == s1;
    RunStep(prog, s1, n + 1);
    assert Exec(prog[s1.pc], s1) == s2;
    RunStep(prog, s2, n);
    assert Exec(prog[s2.pc], s2) == TopAddressed(s);
  }

  /**
   * Operating on the top decrements the stack pointer and computes `comp`
   * with A addressing the new top; the result goes to the top word, to D,
   * or to both.
   */
  lemma TopRun(prog: seq<Instr>, s: State, dest: Dest, comp: Comp)
    requires TopAt(prog, s.pc, Compute(dest, comp, None)) && !dest.toA
    ensures var t := TopAddressed(s); var v := Eval(comp, t);
      Run(prog, s, 4) == State(t.a, if dest.toD then v else s.d, s.pc + 4, if dest.toM then t.ram[t.a := v] else t.ram)
  {
    var t := TopAddressed(s);
    TopAddressedRun(prog, s, Compute(dest, comp, None), 1);
    RunStep(prog, t, 0);
  }

  /** Bumping increments the stack pointer. */
  lemma BumpRun(prog: seq<Instr>, s: State)
    requires BumpAt(prog, s.pc)
    ensures Run(prog, s, 2) == State(0, s.d, s.pc + 2, s.ram[0 := Wrap(Mem(s.ram, 0) + 1)])
  {
    var s1 := State(0, s.d, s.pc + 1, s.ram);
    RunStep(prog, s, 1);
    assert Exec(prog[s.pc], s) == s1;
    RunStep(prog, s1, 0);
  }

  /** Popping the top word `Mem(ram, sp - 1)` into D. */
  lemma PopToD(prog: seq<Instr>, s: State, sp: Word)
    requires TopAt(prog, s.pc, DFromM) && Mem(s.ram, 0) == sp >= 2
    ensures Run(prog, s, 4) == State(sp - 1, Mem(s.ram, sp - 1), s.pc + 4, s.ram[0 := sp - 1])
  {
    TopRun(prog, s, ToD, Value(M));
    TopAddressedOf(s, sp);
  }

  /** Bumping a stack pointer that does not wrap. */
  lemma BumpFrom(prog: seq<Instr>, s: State, sp: Word)
    requires BumpAt(prog, s.pc) && Mem(s.ram, 0) == sp < 0xFFFF
    ensures Run(prog, s, 2) == State(0, s.d, s.pc + 2, s.ram[0 := sp + 1])
  {
    BumpRun(prog, s);
  }

  // Arithmetic and logic on two operands: `add`, `sub`, `and`, `or`.

  predicate IsBinary(c: Command)
  {
    c.Add? || c.Sub? || c.And? || c.Or?
  }

  /** The word such a command leaves in place of `x` (below) and `y` (on top). */
  function BinaryValue(c: Command, x: Word, y: Word): Word
    requires IsBinary(c)
  {
    if c.Add? then Wrap(x + y) else if c.Sub? then Wrap(x - y) else if c.And? then AndWord(x, y) else OrWord(x, y)
  }

  function BinaryOp(c: Command): string
    requires IsBinary(c)
  {
    if c.Add? then "+" else if c.Sub? then "-" else if c.And? then "&" else "|"
  }

  function BinaryComp(c: Command): Comp
    requires IsBinary(c)
  {
    if c.Add? then Plus(M, D) else if c.Sub? then Minus(M, D) else if c.And? then BitAnd(M, D) else BitOr(M, D)
  }

  lemma DecodeBinary(c: Command, line: string)
    requires IsBinary(c) && line == "M=M" + BinaryOp(c) + "D"
    ensures Decode(line) == Some(Compute(ToM, BinaryComp(c), None))
  {
    var i := Compute(ToM, BinaryComp(c), None);
    assert Encode(i) == "M=M" + BinaryOp(c) + "D";
    DecodeEncode(i);
  }

  /** The ALU computes the command's value from the word at A and from D. */
  lemma BinaryEval(c: Command, t: State)
    requires IsBinary(c)
    ensures Eval(BinaryComp(c), t) == BinaryValue(c, Mem(t.ram, t.a), t.d)
  {
    var x := Mem(t.ram, t.a);
    assert RegValue(M, t) == x && RegValue(D, t) == t.d;
    if c.Add? {
      assert Eval(Plus(M, D), t) == Wrap(x + t.d);
    } else if c.Sub? {
      assert Eval(Minus(M, D), t) == Wrap(x - t.d);
    } else if c.And? {
      assert Eval(BitAnd(M, D), t) == AndWord(x, t.d);
    } else {
      assert Eval(BitOr(M, D), t) == OrWord(x, t.d);
    }
  }

  /** Lines `@SP`, `M=M-1`, `A=M` and `last` at `p` of an assembled program. */
  lemma TopLines(lines: seq<string>, prog: seq<Instr>, p: nat, last: string, i: Instr)
    requires Assembles(lines, prog) && p + 4 <= |lines| && Decode(last) == Some(i)
    requires lines[p..p + 4] == [At("SP"), "M=M-1", "A=M", last]
    ensures TopAt(prog, p, i)
  {
    Lines4(lines, p, [At("SP"), "M=M-1", "A=M", last]);
    LineAtSP(lines, prog, p);
    LineDecM(lines, prog, p + 1);
    LineAFromM(lines, prog, p + 2);
    LineIs(lines, prog, p + 3, i);
  }

  /** Lines `@SP`, `M=M+1` at `p` of an assembled program. */
  lemma BumpLines(lines: seq<string>, prog: seq<Instr>, p: nat)
    requires Assembles(lines, prog) && p + 2 <= |lines| && lines[p..p + 2] == [At("SP"), "M=M+1"]
    ensures BumpAt(prog, p)
  {
    LineOf(lines, p, [At("SP"), "M=M+1"], 0);
    LineOf(lines, p, [At("SP"), "M=M+1"], 1);
    LineAtSP(lines, prog, p);
    LineIncM(lines, prog, p + 1);
  }

  /** The writer's block for a binary command. */
  lemma BinaryBlockOf(c: Command, p: nat)
    requires IsBinary(c)
    ensures CommandBlock(c, p) == BinaryBlock(BinaryOp(c))
  {
  }

  /** Line `k` of a block that sits at `p`. */
  lemma LineOf(lines: seq<string>, p: nat, b: seq<string>, k: nat)
    requires p + |b| <= |lines| && lines[p..p + |b|] == b && k < |b|
    ensures lines[p + k] == b[k]
  {
    assert lines[p..p + |b|][k] == lines[p + k];
  }

  /** The instruction of the `k`-th line of a block `b` placed at `p`. */
  lemma LineAt(lines: seq<string>, prog: seq<Instr>, p: nat, b: seq<string>, k: nat, i: Instr)
    requires Assembles(lines, prog) && p + |b| <= |lines| && lines[p..p + |b|] == b
    requires k < |b| && Decode(b[k]) == Some(i)
    ensures prog[p + k] == i
  {
    LineOf(lines, p, b, k);
    LineIs(lines, prog, p + k, i);
  }

  /** Where the block of a binary command sits, its instructions are the three runs. */
  lemma BinaryInstrs(lines: seq<string>, prog: seq<Instr>, p: nat, c: Command)
    requires IsBinary(c) && Assembles(lines, prog)
    requires p + 10 <= |lines| && lines[p..p + 10] == BinaryBlock(BinaryOp(c))
    ensures TopAt(prog, p, DFromM) && TopAt(prog, p + 4, Compute(ToM, BinaryComp(c), None)) && BumpAt(prog, p + 8)
  {
    var op := "M=M" + BinaryOp(c) + "D";
    var top1 := [At("SP"), "M=M-1", "A=M", "D=M"];
    var top2 := [At("SP"), "M=M-1", "A=M", op];
    var bump := [At("SP"), "M=M+1"];
    assert BinaryBlock(BinaryOp(c)) == top1 + top2 + bump;
    SliceAt(lines, p, top1 + top2, bump);
    SliceAt(lines, p, top1, top2);
    DecodeDFromM("D=M");
    TopLines(lines, prog, p, "D=M", DFromM);
    DecodeBinary(c, op);
    TopLines(lines, prog, p + 4, op, Compute(ToM, BinaryComp(c), None));
    BumpLines(lines, prog, p + 8);
  }

  /** The second run of a binary command: combine the new top with D. */
  lemma OperateBelow(prog: seq<Instr>, t: State, c: Command, sp: Word)
    requires IsBinary(c) && TopAt(prog, t.pc, Compute(ToM, BinaryComp(c), None)) && Mem(t.ram, 0) == sp >= 2
    ensures Run(prog, t, 4)
         == State(sp - 1, t.d, t.pc + 4, t.ram[0 := sp - 1][sp - 1 := BinaryValue(c, Mem(t.ram, sp - 1), t.d)])
  {
    TopRun(prog, t, ToM, BinaryComp(c));
    TopAddressedOf(t, sp);
    BinaryEval(c, TopAddressed(t));
  }

  /**
   * The three runs of a binary command pop the top word `y` and replace the
   * word `x` below it with the result; D is left holding `y`.
   */
  lemma BinaryRun(prog: seq<Instr>, s: State, c: Command)
    requires IsBinary(c)
    requires TopAt(prog, s.pc, DFromM) && TopAt(prog, s.pc + 4, Compute(ToM, BinaryComp(c), None)) && BumpAt(prog, s.pc + 8)
    requires Mem(s.ram, 0) >= 3
    ensures var sp := Mem(s.ram, 0); var x := Mem(s.ram, sp - 2); var y := Mem(s.ram, sp - 1);
      Run(prog, s, 10) == State(0, y, s.pc + 10, s.ram[0 := sp - 1][sp - 2 := BinaryValue(c, x, y)])
  {
    var sp := Mem(s.ram, 0);
    var x := Mem(s.ram, sp - 2);
    var y := Mem(s.ram, sp - 1);
    var r := BinaryValue(c, x, y);
    var ram1 := s.ram[0 := sp - 1];
    var t1 := State(sp - 1, y, s.pc + 4, ram1);
    PopToD(prog, s, sp);
    assert Mem(ram1, 0) == sp - 1 && Mem(ram1, sp - 2) == x;
    var t2 := State(sp - 2, y, s.pc + 8, ram1[0 := sp - 2][sp - 2 := r]);
    OperateBelow(prog, t1, c, sp - 1);
    var t3 := State(0, y, s.pc + 10, ram1[sp - 2 := r]);
    BumpBack(prog, t2, ram1, sp - 2, sp - 2, r);
    Then(prog, t1, 4, t2, 2, t3);
    Then(prog, s, 4, t1, 6, t3);
  }

  /**
   * `add`, `sub`, `and` and `or`, wherever the writer put their block in an
   * assembled program: ten cycles later the two top words are replaced by
   * the result and the stack pointer is one lower.
   */
  lemma BinaryEffect(lines: seq<string>, prog: seq<Instr>, s: State, c: Command)
    requires IsBinary(c) && Assembles(lines, prog)
    requires s.pc + 10 <= |lines| && lines[s.pc..s.pc + 10] == CommandBlock(c, s.pc)
    requires Mem(s.ram, 0) >= 3
    ensures var sp := Mem(s.ram, 0); var x := Mem(s.ram, sp - 2); var y := Mem(s.ram, sp - 1);
      Run(prog, s, 10) == State(0, y, s.pc + 10, s.ram[0 := sp - 1][sp - 2 := BinaryValue(c, x, y)])
  {
    BinaryBlockOf(c, s.pc);
    BinaryInstrs(lines, prog, s.pc, c);
    BinaryRun(prog, s, c);
  }

  // One operand: `neg`, `not`.

  predicate IsUnary(c: Command)
  {
    c.Neg? || c.Not?
  }

  /** The word such a command leaves in place of the top word `y`. */
  function UnaryValue(c: Command, y: Word): Word
    requires IsUnary(c)
  {
    if c.Neg? then Wrap(0 - y as int) else NotWord(y)
  }

  function UnaryOp(c: Command): string
    requires IsUnary(c)
  {
    if c.Neg? then "-" else "!"
  }

  function UnaryComp(c: Command): Comp
    requires IsUnary(c)
  {
    if c.Neg? then Negate(M) else BitNot(M)
  }

  lemma DecodeUnary(c: Command, line: string)
    requires IsUnary(c) && line == "M=" + UnaryOp(c) + "M"
    ensures Decode(line) == Some(Compute(ToM, UnaryComp(c), None))
  {
    var i := Compute(ToM, UnaryComp(c), None);
    assert Encode(i) == "M=" + UnaryOp(c) + "M";
    DecodeEncode(i);
  }

  lemma UnaryEval(c: Command, t: State)
    requires IsUnary(c)
    ensures Eval(UnaryComp(c), t) == UnaryValue(c, Mem(t.ram, t.a))
  {
    if c.Neg? {
      assert UnaryComp(c) == Negate(M);
    } else {
      assert UnaryComp(c) == BitNot(M);
    }
  }

  lemma UnaryBlockOf(c: Command, p: nat)
    requires IsUnary(c)
    ensures CommandBlock(c, p) == PrefixBlock(UnaryOp(c))
  {
  }

  lemma UnaryInstrs(lines: seq<string>, prog: seq<Instr>, p: nat, c: Command)
    requires IsUnary(c) && Assembles(lines, prog)
    requires p + 6 <= |lines| && lines[p..p + 6] == PrefixBlock(UnaryOp(c))
    ensures TopAt(prog, p, Compute(ToM, UnaryComp(c), None)) && BumpAt(prog, p + 4)
  {
    var op := "M=" + UnaryOp(c) + "M";
    var top := [At("SP"), "M=M-1", "A=M", op];
    var bump := [At("SP"), "M=M+1"];
    assert PrefixBlock(UnaryOp(c)) == top + bump;
    SliceAt(lines, p, top, bump);
    DecodeUnary(c, op);
    TopLines(lines, prog, p, op, Compute(ToM, UnaryComp(c), None));
    BumpLines(lines, prog, p + 4);
  }

  /** The first run of a unary command: the new value in the top word. */
  lemma UnaryTop(prog: seq<Instr>, s: State, c: Command, sp: Word)
    requires IsUnary(c) && TopAt(prog, s.pc, Compute(ToM, UnaryComp(c), None)) && Mem(s.ram, 0) == sp >= 2
    ensures Run(prog, s, 4)
         == State(sp - 1, s.d, s.pc + 4, s.ram[0 := sp - 1][sp - 1 := UnaryValue(c, Mem(s.ram, sp - 1))])
  {
    TopRun(prog, s, ToM, UnaryComp(c));
    TopAddressedOf(s, sp);
    UnaryEval(c, TopAddressed(s));
  }

  /** Bumping back a stack pointer that was decremented leaves only the new top word changed. */
  lemma BumpBack(prog: seq<Instr>, t: State, ram: map<Word, Word>, sp: Word, k: Word, r: Word)
    requires BumpAt(prog, t.pc) && 1 <= sp < 0xFFFF && k != 0
    requires Mem(ram, 0) == sp + 1 && t.ram == ram[0 := sp][k := r]
    ensures Run(prog, t, 2) == State(0, t.d, t.pc + 2, ram[k := r])
  {
    BumpFrom(prog, t, sp);
    assert t.ram[0 := sp + 1] == ram[k := r];
  }

  /** The two runs of a unary command replace the top word in place. */
  lemma UnaryRun(prog: seq<Instr>, s: State, c: Command)
    requires IsUnary(c)
    requires TopAt(prog, s.pc, Compute(ToM, UnaryComp(c), None)) && BumpAt(prog, s.pc + 4)
    requires Mem(s.ram, 0) >= 2
    ensures var sp := Mem(s.ram, 0);
      Run(prog, s, 6) == State(0, s.d, s.pc + 6, s.ram[sp - 1 := UnaryValue(c, Mem(s.ram, sp - 1))])
  {
    var sp := Mem(s.ram, 0);
    var r := UnaryValue(c, Mem(s.ram, sp - 1));
    var t1 := State(sp - 1, s.d, s.pc + 4, s.ram[0 := sp - 1][sp - 1 := r]);
    UnaryTop(prog, s, c, sp);
    var t2 := State(0, s.d, s.pc + 6, s.ram[sp - 1 := r]);
    BumpBack(prog, t1, s.ram, sp - 1, sp - 1, r);
    Then(prog, s, 4, t1, 2, t2);
  }

  /**
   * `neg` and `not`, wherever the writer put their block in an assembled
   * program: six cycles later the top word is replaced by the result and
   * the stack pointer is back where it was.
   */
  lemma UnaryEffect(lines: seq<string>, prog: seq<Instr>, s: State, c: Command)
    requires IsUnary(c) && Assembles(lines, prog)
    requires s.pc + 6 <= |lines| && lines[s.pc..s.pc + 6] == CommandBlock(c, s.pc)
    requires Mem(s.ram, 0) >= 2
    ensures var sp := Mem(s.ram, 0);
      Run(prog, s, 6) == State(0, s.d, s.pc + 6, s.ram[sp - 1 := UnaryValue(c, Mem(s.ram, sp - 1))])
  {
    UnaryBlockOf(c, s.pc);
    UnaryInstrs(lines, prog, s.pc, c);
    UnaryRun(prog, s, c);
  }

  // Push and pop.

  /** The number the first `@` line of a push or pop loads into A. */
  function SymbolAddress(seg: Segment, index: I64): int
  {
    match seg
    case Constant => index
    case Local => 1
    case Argument => 2
    case This => 3
    case That => 4
    case Temp => 5 + index
    case Pointer => 3 + index
    case Static => 16
  }

  /** The `@` line is one the assembler accepts. */
  predicate Loadable(seg: Segment, index: I64)
  {
    0 <= SymbolAddress(seg, index) <= MaxLoad
  }

  /**
   * How a push or pop reaches its word once the `@` line has put an address
   * in A: `constant` takes the address as the value itself, `temp` and
   * `pointer` use the word at the address, and the other segments use the
   * word at the base pointer stored at the address plus an offset.
   */
  datatype Access = Immediate | Fixed | Based(offset: nat)

  function AccessOf(seg: Segment, index: I64): Access
  {
    if seg.Constant? then Immediate
    else if seg.Temp? || seg.Pointer? then Fixed
    else Based(IncCount(index))
  }

  /** The address an access reads or writes when the `@` line loaded `addr`. */
  function Reach(acc: Access, addr: Word, ram: map<Word, Word>): Word
  {
    if acc.Based? then Wrap(Mem(ram, addr) + acc.offset) else addr
  }

  /** The word an access fetches when the `@` line loaded `addr`. */
  function Fetched(acc: Access, addr: Word, ram: map<Word, Word>): Word
  {
    if acc.Immediate? then addr else Mem(ram, Reach(acc, addr, ram))
  }

  /** The address a push reads or a pop writes; for `constant`, the index itself. */
  function Target(seg: Segment, index: I64, ram: map<Word, Word>): Word
    requires Loadable(seg, index)
  {
    Reach(AccessOf(seg, index), SymbolAddress(seg, index), ram)
  }

  /** The word a push puts on the stack: the index itself for `constant`. */
  function Pushed(seg: Segment, index: I64, ram: map<Word, Word>): Word
    requires Loadable(seg, index)
  {
    Fetched(AccessOf(seg, index), SymbolAddress(seg, index), ram)
  }

  /** The `@` line of a push or pop, wherever it sits in an assembled program. */
  lemma LineSymbol(lines: seq<string>, prog: seq<Instr>, k: nat, seg: Segment, index: I64)
    requires Loadable(seg, index) && Assembles(lines, prog) && k < |lines| && lines[k] == At(GetSymbol(seg, index))
    ensures prog[k] == Load(SymbolAddress(seg, index))
  {
    DecodeSymbolLine(seg, index, lines[k]);
    LineIs(lines, prog, k, Load(SymbolAddress(seg, index)));
  }

  lemma LineMFromD(lines: seq<string>, prog: seq<Instr>, k: nat)
    requires Assembles(lines, prog) && k < |lines| && lines[k] == "M=D"
    ensures prog[k] == MFromD
  {
    DecodeMFromD(lines[k]);
    LineIs(lines, prog, k, MFromD);
  }

  lemma DecodeSymbolLine(seg: Segment, index: I64, line: string)
    requires Loadable(seg, index) && line == At(GetSymbol(seg, index))
    ensures Decode(line) == Some(Load(SymbolAddress(seg, index)))
  {
    var n := SymbolAddress(seg, index);
    if seg.Local? || seg.Argument? || seg.This? || seg.That? {
      assert line[1..] == GetSymbol(seg, index);
    } else {
      assert GetSymbol(seg, index) == NatToDigits(n);
      LoadRoundTrip(n);
    }
  }

  lemma DecodeIncAddr(line: string)
    requires line == "A=A+1"
    ensures Decode(line) == Some(IncAddr)
  {
    assert Encode(IncAddr) == "A=A+1";
    DecodeEncode(IncAddr);
  }

  lemma DecodeDFromA(line: string)
    requires line == "D=A"
    ensures Decode(line) == Some(DFromA)
  {
    assert Encode(DFromA) == "D=A";
    DecodeEncode(DFromA);
  }

  lemma DecodeMFromD(line: string)
    requires line == "M=D"
    ensures Decode(line) == Some(MFromD)
  {
    assert Encode(MFromD) == "M=D";
    DecodeEncode(MFromD);
  }

  /** `n` lines of `A=A+1` at `p`. */
  predicate IncsAt(prog: seq<Instr>, p: nat, n: nat)
  {
    p + n <= |prog| && forall k :: p <= k < p + n ==> prog[k] == IncAddr
  }

  /** `n` cycles of `A=A+1` add `n` to A, wrapping around. */
  lemma {:induction false} IncsRun(prog: seq<Instr>, s: State, n: nat)
    requires IncsAt(prog, s.pc, n)
    ensures Run(prog, s, n) == State(Wrap(s.a + n), s.d, s.pc + n, s.ram)
    decreases n
  {
    if n == 0 {
      assert Wrap(s.a + 0) == s.a;
    } else {
      var t := State(Wrap(s.a + 1), s.d, s.pc + 1, s.ram);
      assert prog[s.pc] == IncAddr;
      RunStep(prog, s, n - 1);
      assert Exec(prog[s.pc], s) == t;
      IncsRun(prog, t, n - 1);
      WrapAdd(s.a + 1, n - 1);
    }
  }

  lemma IncsLines(lines: seq<string>, prog: seq<Instr>, p: nat, index: I64)
    requires Assembles(lines, prog)
    requires p + |IncALines(index)| <= |lines| && lines[p..p + |IncALines(index)|] == IncALines(index)
    ensures IncsAt(prog, p, IncCount(index))
  {
    var incs := IncALines(index);
    forall k | p <= k < p + IncCount(index) ensures prog[k] == IncAddr {
      LineOf(lines, p, incs, k - p);
      DecodeIncAddr(lines[k]);
      LineIs(lines, prog, k, IncAddr);
    }
  }

  /** Lines `A=M`, then `inc_a(index)`, at `q`. */
  lemma PointerHeadLines(lines: seq<string>, prog: seq<Instr>, q: nat, index: I64)
    requires Assembles(lines, prog)
    requires var l := ["A=M"] + IncALines(index); q + |l| <= |lines| && lines[q..q + |l|] == l
    ensures q + 1 + IncCount(index) <= |prog| && prog[q] == AFromM && IncsAt(prog, q + 1, IncCount(index))
  {
    SliceAt(lines, q, ["A=M"], IncALines(index));
    LineOf(lines, q, ["A=M"], 0);
    LineAFromM(lines, prog, q);
    IncsLines(lines, prog, q + 1, index);
  }

  /**
   * The instructions after the `@` line of a push that bring the value into
   * D: `D=A`, `D=M`, or `A=M`, `A=A+1` for each step of the offset, `D=M`.
   */
  predicate FetchAt(prog: seq<Instr>, p: nat, acc: Access)
  {
    match acc
    case Immediate => p < |prog| && prog[p] == DFromA
    case Fixed => p < |prog| && prog[p] == DFromM
    case Based(n) => p + n + 2 <= |prog| && prog[p] == AFromM && IncsAt(prog, p + 1, n) && prog[p + 1 + n] == DFromM
  }

  /** The instructions after the `@` line of a pop that bring the target address into A. */
  predicate AddressAt(prog: seq<Instr>, p: nat, acc: Access)
  {
    acc.Based? ==> p + acc.offset + 1 <= |prog| && prog[p] == AFromM && IncsAt(prog, p + 1, acc.offset)
  }

  function FetchLength(acc: Access): nat
  {
    if acc.Based? then acc.offset + 2 else 1
  }

  function AddressLength(acc: Access): nat
  {
    if acc.Based? then acc.offset + 1 else 0
  }

  /** Following a pointer: `A=M`, then the offset added by `A=A+1` lines. */
  lemma PointerRun(prog: seq<Instr>, s: State, n: nat)
    requires s.pc < |prog| && prog[s.pc] == AFromM && IncsAt(prog, s.pc + 1, n)
    ensures Run(prog, s, n + 1) == State(Wrap(Mem(s.ram, s.a) + n), s.d, s.pc + n + 1, s.ram)
  {
    var t := State(Mem(s.ram, s.a), s.d, s.pc + 1, s.ram);
    RunStep(prog, s, n);
    assert Exec(prog[s.pc], s) == t;
    IncsRun(prog, t, n);
  }

  /** The fetch leaves A at the address reached and D at the word fetched. */
  lemma FetchRun(prog: seq<Instr>, s: State, acc: Access)
    requires FetchAt(prog, s.pc, acc)
    ensures Run(prog, s, FetchLength(acc))
         == State(Reach(acc, s.a, s.ram), Fetched(acc, s.a, s.ram), s.pc + FetchLength(acc), s.ram)
  {
    if acc.Based? {
      var n := acc.offset;
      var t := State(Reach(acc, s.a, s.ram), s.d, s.pc + n + 1, s.ram);
      PointerRun(prog, s, n);
      RunStep(prog, t, 0);
      Then(prog, s, n + 1, t, 1, Exec(prog[t.pc], t));
    } else {
      RunStep(prog, s, 0);
    }
  }

  /** The address part of a pop leaves A at the address reached. */
  lemma AddressRun(prog: seq<Instr>, s: State, acc: Access)
    requires AddressAt(prog, s.pc, acc)
    ensures Run(prog, s, AddressLength(acc)) == State(Reach(acc, s.a, s.ram), s.d, s.pc + AddressLength(acc), s.ram)
  {
    if acc.Based? {
      PointerRun(prog, s, acc.offset);
    }
  }

  /** The computations a push stores: D, `0` and `-1`, none of which reads A or M. */
  predicate Storable(comp: Comp)
  {
    comp == Value(D) || comp == Zero || comp == MinusOne
  }

  /** `@SP`, `A=M`, `M=comp`, `@SP`, `M=M+1` at `p`. */
  predicate PushCompAt(prog: seq<Instr>, p: nat, comp: Comp)
  {
    p + 5 <= |prog| && prog[p] == AtSP && prog[p + 1] == AFromM && prog[p + 2] == Compute(ToM, comp, None)
    && BumpAt(prog, p + 3)
  }

  /** The memory after pushing `v`: `v` at the stack pointer, and the pointer one word up. */
  function PushRam(ram: map<Word, Word>, v: Word): map<Word, Word>
    requires 1 <= Mem(ram, 0) < 0xFFFF
  {
    ram[Mem(ram, 0) := v][0 := Mem(ram, 0) + 1]
  }

  /** Pushing D, 0 or -1: the word at the stack pointer becomes it, then the pointer moves up. */
  lemma PushCompRun(prog: seq<Instr>, s: State, comp: Comp, sp: Word)
    requires Storable(comp) && PushCompAt(prog, s.pc, comp) && Mem(s.ram, 0) == sp && 1 <= sp < 0xFFFF
    ensures Run(prog, s, 5) == State(0, s.d, s.pc + 5, PushRam(s.ram, Eval(comp, s)))
  {
    var s1 := State(0, s.d, s.pc + 1, s.ram);
    var s2 := State(sp, s.d, s.pc + 2, s.ram);
    var s3 := State(sp, s.d, s.pc + 3, s.ram[sp := Eval(comp, s)]);
    RunStep(prog, s, 4);
    assert Exec(prog[s.pc], s) == s1;
    RunStep(prog, s1, 3);
    assert Exec(prog[s1.pc], s1) == s2;
    RunStep(prog, s2, 2);
    assert Exec(prog[s2.pc], s2) == s3;
    assert Mem(s3.ram, 0) == sp;
    BumpFrom(prog, s3, sp);
  }

  /** The `@` line loading `addr`, then the fetch into D. */
  lemma LoadFetchRun(prog: seq<Instr>, s: State, acc: Access, addr: Word)
    requires s.pc < |prog| && prog[s.pc] == Load(addr) && FetchAt(prog, s.pc + 1, acc)
    ensures var n := FetchLength(acc) + 1;
      Run(prog, s, n) == State(Reach(acc, addr, s.ram), Fetched(acc, addr, s.ram), s.pc + n, s.ram)
  {
    var f := FetchLength(acc);
    var t0 := State(addr, s.d, s.pc + 1, s.ram);
    var u := State(Reach(acc, addr, s.ram), Fetched(acc, addr, s.ram), s.pc + (f + 1), s.ram);
    assert FetchAt(prog, t0.pc, acc) && Exec(prog[s.pc], s) == t0;
    StepTo(prog, s, t0);
    FetchRun(prog, t0, acc);
    Chain(prog, s, 1, t0, f, f + 1, u);
  }

  /** A run to `t`, then pushing D. */
  lemma ThenPushD(prog: seq<Instr>, s: State, m: nat, t: State)
    requires Run(prog, s, m) == t && PushCompAt(prog, t.pc, Value(D)) && 1 <= Mem(t.ram, 0) < 0xFFFF
    ensures Run(prog, s, m + 5) == State(0, t.d, t.pc + 5, PushRam(t.ram, t.d))
  {
    var u := State(0, t.d, t.pc + 5, PushRam(t.ram, t.d));
    assert Eval(Value(D), t) == t.d;
    PushCompRun(prog, t, Value(D), Mem(t.ram, 0));
    Then(prog, s, m, t, 5, u);
  }

  /** A push: the `@` line loading `addr`, the fetch into D, then pushing D. */
  lemma PushRun(prog: seq<Instr>, s: State, acc: Access, addr: Word)
    requires s.pc < |prog| && prog[s.pc] == Load(addr) && FetchAt(prog, s.pc + 1, acc)
    requires PushCompAt(prog, s.pc + (FetchLength(acc) + 1), Value(D))
    requires 1 <= Mem(s.ram, 0) < 0xFFFF
    ensures var v := Fetched(acc, addr, s.ram); var n := FetchLength(acc) + 6;
      Run(prog, s, n) == State(0, v, s.pc + n, PushRam(s.ram, v))
  {
    var f := FetchLength(acc) + 1;
    var t := State(Reach(acc, addr, s.ram), Fetched(acc, addr, s.ram), s.pc + f, s.ram);
    LoadFetchRun(prog, s, acc, addr);
    ThenPushD(prog, s, f, t);
  }

  /** A slice holding `x + y` holds `x`, then `y`. */
  lemma SliceAt(lines: seq<string>, p: nat, x: seq<string>, y: seq<string>)
    requires p + |x| + |y| <= |lines| && lines[p..p + |x| + |y|] == x + y
    ensures lines[p..p + |x|] == x && lines[p + |x|..p + |x| + |y|] == y
  {
    assert lines[p..p + |x|] == lines[p..p + |x| + |y|][..|x|];
    assert lines[p + |x|..p + |x| + |y|] == lines[p..p + |x| + |y|][|x|..];
  }

  /** Where the lines of a push's fetch sit, the instructions bring the value into D. */
  lemma PushLoadLines(lines: seq<string>, prog: seq<Instr>, q: nat, seg: Segment, index: I64)
    requires Assembles(lines, prog)
    requires q + |PushLoad(seg, index)| <= |lines| && lines[q..q + |PushLoad(seg, index)|] == PushLoad(seg, index)
    ensures FetchAt(prog, q, AccessOf(seg, index)) && |PushLoad(seg, index)| == FetchLength(AccessOf(seg, index))
  {
    var l := PushLoad(seg, index);
    if seg.Constant? {
      LineOf(lines, q, l, 0);
      DecodeDFromA(lines[q]);
      LineIs(lines, prog, q, DFromA);
    } else if seg.Temp? || seg.Pointer? {
      LineOf(lines, q, l, 0);
      DecodeDFromM(lines[q]);
      LineIs(lines, prog, q, DFromM);
    } else {
      PointerLines(lines, prog, q, index);
    }
  }

  /** Lines `A=M`, then `inc_a(index)`, then `D=M`, at `q`. */
  lemma PointerLines(lines: seq<string>, prog: seq<Instr>, q: nat, index: I64)
    requires Assembles(lines, prog)
    requires var l := ["A=M"] + IncALines(index) + ["D=M"]; q + |l| <= |lines| && lines[q..q + |l|] == l
    ensures FetchAt(prog, q, Based(IncCount(index)))
  {
    var n := IncCount(index);
    SliceAt(lines, q, ["A=M"] + IncALines(index), ["D=M"]);
    PointerHeadLines(lines, prog, q, index);
    LineOf(lines, q + 1 + n, ["D=M"], 0);
    LineDFromM(lines, prog, q + 1 + n);
  }

  /** The lines `@SP`, `A=M`, `store`, `@SP`, `M=M+1` at `q`, with `store` assembling to `M=comp`. */
  lemma PushValueLines(lines: seq<string>, prog: seq<Instr>, q: nat, store: string, comp: Comp)
    requires Assembles(lines, prog) && q + 5 <= |lines|
    requires lines[q..q + 5] == PushValue(store) && Decode(store) == Some(Compute(ToM, comp, None))
    ensures PushCompAt(prog, q, comp)
  {
    var b := [At("SP"), "A=M", store];
    SliceAt(lines, q, b, [At("SP"), "M=M+1"]);
    LineOf(lines, q, b, 0);
    LineOf(lines, q, b, 1);
    LineOf(lines, q, b, 2);
    LineAtSP(lines, prog, q);
    LineAFromM(lines, prog, q + 1);
    LineIs(lines, prog, q + 2, Compute(ToM, comp, None));
    BumpLines(lines, prog, q + 3);
  }

  /** Where the block of a push sits, its instructions are the `@` line, the fetch and the push of D. */
  lemma PushInstrs(lines: seq<string>, prog: seq<Instr>, p: nat, seg: Segment, index: I64)
    requires Loadable(seg, index) && Assembles(lines, prog)
    requires p + |PushBlock(seg, index)| <= |lines| && lines[p..p + |PushBlock(seg, index)|] == PushBlock(seg, index)
    ensures var acc := AccessOf(seg, index);
      prog[p] == Load(SymbolAddress(seg, index)) && FetchAt(prog, p + 1, acc)
      && PushCompAt(prog, p + 1 + FetchLength(acc), Value(D)) && |PushBlock(seg, index)| == FetchLength(acc) + 6
  {
    var head := [At(GetSymbol(seg, index))];
    var l := PushLoad(seg, index);
    var tail := PushValue("M=D");
    assert PushBlock(seg, index) == head + l + tail;
    SliceAt(lines, p, head + l, tail);
    SliceAt(lines, p, head, l);
    PushPartsLines(lines, prog, p, seg, index);
  }

  /** The three parts of a push's block: the `@` line, the fetch, and pushing D. */
  lemma PushPartsLines(lines: seq<string>, prog: seq<Instr>, p: nat, seg: Segment, index: I64)
    requires Loadable(seg, index) && Assembles(lines, prog)
    requires var q := p + 1 + |PushLoad(seg, index)|; q + 5 <= |lines|
    requires lines[p..p + 1] == [At(GetSymbol(seg, index))]
    requires lines[p + 1..p + 1 + |PushLoad(seg, index)|] == PushLoad(seg, index)
    requires var q := p + 1 + |PushLoad(seg, index)|; lines[q..q + 5] == PushValue("M=D")
    ensures var acc := AccessOf(seg, index);
      prog[p] == Load(SymbolAddress(seg, index)) && FetchAt(prog, p + 1, acc)
      && PushCompAt(prog, p + 1 + FetchLength(acc), Value(D)) && |PushLoad(seg, index)| == FetchLength(acc)
  {
    LineOf(lines, p, [At(GetSymbol(seg, index))], 0);
    LineSymbol(lines, prog, p, seg, index);
    PushLoadLines(lines, prog, p + 1, seg, index);
    DecodeMFromD("M=D");
    PushValueLines(lines, prog, p + 1 + |PushLoad(seg, index)|, "M=D", Value(D));
  }

  /** The writer's block for a push. */
  lemma PushBlockOf(seg: Segment, index: I64, p: nat)
    ensures CommandBlock(Stack(Push, seg, index), p) == PushBlock(seg, index)
  {
  }

  /**
   * `push seg index`, assembled: the pushed word (the index itself for
   * `constant`, else the word at the segment's address) lands at the old
   * stack pointer, the pointer moves up by one, and D holds the word.
   */
  lemma PushEffect(lines: seq<string>, prog: seq<Instr>, s: State, seg: Segment, index: I64)
    requires Loadable(seg, index) && Assembles(lines, prog)
    requires var b := CommandBlock(Stack(Push, seg, index), s.pc); s.pc + |b| <= |lines| && lines[s.pc..s.pc + |b|] == b
    requires 1 <= Mem(s.ram, 0) < 0xFFFF
    ensures var v := Pushed(seg, index, s.ram); var n := |PushBlock(seg, index)|;
      Run(prog, s, n) == State(0, v, s.pc + n, PushRam(s.ram, v))
  {
    var addr: Word := SymbolAddress(seg, index);
    var acc := AccessOf(seg, index);
    assert Pushed(seg, index, s.ram) == Fetched(acc, addr, s.ram);
    PushBlockOf(seg, index, s.pc);
    PushInstrs(lines, prog, s.pc, seg, index);
    assert |PushBlock(seg, index)| == FetchLength(acc) + 6;
    assert s.pc + 1 + FetchLength(acc) == s.pc + (FetchLength(acc) + 1);
    PushRun(prog, s, acc, addr);
  }

  // Pop.

  /** The segments reached through a base pointer have that pointer away from address 0. */
  lemma BasedAddress(seg: Segment, index: I64)
    ensures AccessOf(seg, index).Based? ==> 1 <= SymbolAddress(seg, index) <= 16
  {
  }

  /** Moving the stack pointer does not move what a based access reaches, as no base pointer sits at address 0. */
  lemma ReachAfterPop(acc: Access, addr: Word, ram: map<Word, Word>, sp: Word)
    requires acc.Based? ==> addr != 0
    ensures Reach(acc, addr, ram[0 := sp]) == Reach(acc, addr, ram)
  {
    if acc.Based? {
      assert Mem(ram[0 := sp], addr) == Mem(ram, addr);
    }
  }

  /** The `@` line loading `addr`, then the address part of a pop. */
  lemma LoadAddressRun(prog: seq<Instr>, s: State, acc: Access, addr: Word)
    requires s.pc < |prog| && prog[s.pc] == Load(addr) && AddressAt(prog, s.pc + 1, acc)
    ensures var n := AddressLength(acc) + 1; Run(prog, s, n) == State(Reach(acc, addr, s.ram), s.d, s.pc + n, s.ram)
  {
    var m := AddressLength(acc);
    var t0 := State(addr, s.d, s.pc + 1, s.ram);
    var u := State(Reach(acc, addr, s.ram), s.d, s.pc + (m + 1), s.ram);
    assert AddressAt(prog, t0.pc, acc) && Exec(prog[s.pc], s) == t0;
    StepTo(prog, s, t0);
    AddressRun(prog, t0, acc);
    Chain(prog, s, 1, t0, m, m + 1, u);
  }

  /** The `@` line loading `addr`, the address part of a pop, then `M=D`, at `p`. */
  predicate StoreAt(prog: seq<Instr>, p: nat, acc: Access, addr: Word)
  {
    p < |prog| && prog[p] == Load(addr) && AddressAt(prog, p + 1, acc)
    && p + 1 + AddressLength(acc) < |prog| && prog[p + 1 + AddressLength(acc)] == MFromD
  }

  /** From the `@` line of a pop: the address part, then `M=D`. */
  lemma StoreRun(prog: seq<Instr>, s: State, acc: Access, addr: Word)
    requires StoreAt(prog, s.pc, acc, addr)
    ensures var t := Reach(acc, addr, s.ram); var n := AddressLength(acc) + 2;
      Run(prog, s, n) == State(t, s.d, s.pc + n, s.ram[t := s.d])
  {
    var t := Reach(acc, addr, s.ram);
    var m := AddressLength(acc) + 1;
    var t1 := State(t, s.d, s.pc + m, s.ram);
    var u := State(t, s.d, s.pc + (m + 1), s.ram[t := s.d]);
    assert prog[t1.pc] == MFromD && Exec(prog[t1.pc], t1) == u;
    LoadAddressRun(prog, s, acc, addr);
    StepTo(prog, t1, u);
    Chain(prog, s, m, t1, 1, m + 1, u);
  }

  /** A pop with the address reached over the memory after the stack pointer moved. */
  lemma PopStoreRun(prog: seq<Instr>, s: State, acc: Access, addr: Word)
    requires TopAt(prog, s.pc, DFromM) && StoreAt(prog, s.pc + 4, acc, addr)
    requires Mem(s.ram, 0) >= 2
    ensures var sp := Mem(s.ram, 0); var y := Mem(s.ram, sp - 1); var ram1 := s.ram[0 := sp - 1];
      var t := Reach(acc, addr, ram1); var n := AddressLength(acc) + 6;
      Run(prog, s, n) == State(t, y, s.pc + n, ram1[t := y])
  {
    var sp := Mem(s.ram, 0);
    var y := Mem(s.ram, sp - 1);
    var m := AddressLength(acc);
    var n := m + 6;
    var ram1 := s.ram[0 := sp - 1];
    var t0 := State(sp - 1, y, s.pc + 4, ram1);
    var t := Reach(acc, addr, ram1);
    var u := State(t, y, s.pc + n, ram1[t := y]);
    PopToD(prog, s, sp);
    assert Run(prog, s, 4) == t0;
    StoreRun(prog, t0, acc, addr);
    assert Run(prog, t0, m + 2) == u;
    Chain(prog, s, 4, t0, m + 2, n, u);
  }

  /** A pop: the top word into D, then the store of D at the address reached. */
  lemma PopRun(prog: seq<Instr>, s: State, acc: Access, addr: Word)
    requires acc.Based? ==> addr != 0
    requires TopAt(prog, s.pc, DFromM) && StoreAt(prog, s.pc + 4, acc, addr)
    requires Mem(s.ram, 0) >= 2
    ensures var sp := Mem(s.ram, 0); var y := Mem(s.ram, sp - 1); var t := Reach(acc, addr, s.ram);
      var n := AddressLength(acc) + 6;
      Run(prog, s, n) == State(t, y, s.pc + n, s.ram[0 := sp - 1][t := y])
  {
    var sp := Mem(s.ram, 0);
    ReachAfterPop(acc, addr, s.ram, sp - 1);
    PopStoreRun(prog, s, acc, addr);
  }

  /** Where the lines of a pop's address part sit, the instructions bring the target into A. */
  lemma PopAddressLines(lines: seq<string>, prog: seq<Instr>, q: nat, seg: Segment, index: I64)
    requires Assembles(lines, prog)
    requires q + |PopAddress(seg, index)| <= |lines| && lines[q..q + |PopAddress(seg, index)|] == PopAddress(seg, index)
    ensures AddressAt(prog, q, AccessOf(seg, index)) && |PopAddress(seg, index)| == AddressLength(AccessOf(seg, index))
  {
    if AccessOf(seg, index).Based? {
      PointerHeadLines(lines, prog, q, index);
    }
  }

  /** Where the block of a pop sits, its instructions are the pop into D, the `@` line, the address part and `M=D`. */
  lemma PopInstrs(lines: seq<string>, prog: seq<Instr>, p: nat, seg: Segment, index: I64)
    requires Loadable(seg, index) && Assembles(lines, prog)
    requires p + |PopBlock(seg, index)| <= |lines| && lines[p..p + |PopBlock(seg, index)|] == PopBlock(seg, index)
    ensures var acc := AccessOf(seg, index);
      TopAt(prog, p, DFromM) && prog[p + 4] == Load(SymbolAddress(seg, index)) && AddressAt(prog, p + 5, acc)
      && prog[p + 5 + AddressLength(acc)] == MFromD && |PopBlock(seg, index)| == AddressLength(acc) + 6
  {
    var head := [At("SP"), "M=M-1", "A=M", "D=M", At(GetSymbol(seg, index))];
    var l := PopAddress(seg, index);
    assert PopBlock(seg, index) == head + l + ["M=D"];
    SliceAt(lines, p, head + l, ["M=D"]);
    SliceAt(lines, p, head, l);
    PopHeadLines(lines, prog, p, seg, index);
    PopAddressLines(lines, prog, p + 5, seg, index);
    LineOf(lines, p + 5 + |l|, ["M=D"], 0);
    LineMFromD(lines, prog, p + 5 + |l|);
  }

  /** Lines `@SP`, `M=M-1`, `A=M`, `D=M` and the `@` line of a pop at `p`. */
  lemma PopHeadLines(lines: seq<string>, prog: seq<Instr>, p: nat, seg: Segment, index: I64)
    requires Loadable(seg, index) && Assembles(lines, prog)
    requires var head := [At("SP"), "M=M-1", "A=M", "D=M", At(GetSymbol(seg, index))];
      p + 5 <= |lines| && lines[p..p + 5] == head
    ensures TopAt(prog, p, DFromM) && prog[p + 4] == Load(SymbolAddress(seg, index))
  {
    var top := [At("SP"), "M=M-1", "A=M", "D=M"];
    var load := [At(GetSymbol(seg, index))];
    SliceAt(lines, p, top, load);
    DecodeDFromM("D=M");
    TopLines(lines, prog, p, "D=M", DFromM);
    LineOf(lines, p + 4, load, 0);
    LineSymbol(lines, prog, p + 4, seg, index);
  }

  /** The writer's block for a pop. */
  lemma PopBlockOf(seg: Segment, index: I64, p: nat)
    ensures CommandBlock(Stack(Pop, seg, index), p) == PopBlock(seg, index)
  {
  }

  /**
   * `pop seg index`, assembled: the stack pointer moves down by one and the
   * word that was on top is stored at the target (for `constant`, at the
   * address `index` itself); D holds that word and A the target.
   */
  lemma PopEffect(lines: seq<string>, prog: seq<Instr>, s: State, seg: Segment, index: I64)
    requires Loadable(seg, index) && Assembles(lines, prog)
    requires var b := CommandBlock(Stack(Pop, seg, index), s.pc); s.pc + |b| <= |lines| && lines[s.pc..s.pc + |b|] == b
    requires Mem(s.ram, 0) >= 2
    ensures var sp := Mem(s.ram, 0); var y := Mem(s.ram, sp - 1); var t := Target(seg, index, s.ram);
      var n := |PopBlock(seg, index)|;
      Run(prog, s, n) == State(t, y, s.pc + n, s.ram[0 := sp - 1][t := y])
  {
    var addr: Word := SymbolAddress(seg, index);
    var acc := AccessOf(seg, index);
    BasedAddress(seg, index);
    assert Target(seg, index, s.ram) == Reach(acc, addr, s.ram);
    PopBlockOf(seg, index, s.pc);
    PopInstrs(lines, prog, s.pc, seg, index);
    assert StoreAt(prog, s.pc + 4, acc, addr);
    assert |PopBlock(seg, index)| == AddressLength(acc) + 6;
    PopRun(prog, s, acc, addr);
  }

  // Comparisons: `eq`, `lt`, `gt`.

  predicate IsCompare(c: Command)
  {
    c.Eq? || c.Lt? || c.Gt?
  }

  /** The jump a comparison's block takes when the comparison holds. */
  function CompareJump(c: Command): Jump
    requires IsCompare(c)
  {
    if c.Eq? then JEQ else if c.Lt? then JLT else JGT
  }

  const SubD := Compute(ToD, Minus(M, D), None)
  const JumpHome := Compute(NoDest, Zero, Some(JMP))

  function Branch(j: Jump): Instr
  {
    Compute(NoDest, Value(D), Some(j))
  }

  lemma DecodeSubD(line: string)
    requires line == "D=M-D"
    ensures Decode(line) == Some(SubD)
  {
    assert Encode(SubD) == "D=M-D";
    DecodeEncode(SubD);
  }

  lemma DecodeJumpHome(line: string)
    requires line == "0;JMP"
    ensures Decode(line) == Some(JumpHome)
  {
    assert Encode(JumpHome) == "0;JMP";
    DecodeEncode(JumpHome);
  }

  lemma DecodeBranch(j: Jump, line: string)
    requires line == "D;" + JumpText(j)
    ensures Decode(line) == Some(Branch(j))
  {
    assert Encode(Branch(j)) == "D" + (";" + JumpText(j));
    assert line == Encode(Branch(j));
    DecodeEncode(Branch(j));
  }

  lemma DecodeStore(line: string, minusOne: bool)
    requires line == if minusOne then "M=-1" else "M=0"
    ensures Decode(line) == Some(Compute(ToM, if minusOne then MinusOne else Zero, None))
  {
    var i := Compute(ToM, if minusOne then MinusOne else Zero, None);
    assert Encode(i) == line;
    DecodeEncode(i);
  }

  /** An `@` line of a jump target the assembler accepts. */
  lemma DecodeTarget(n: nat, line: string)
    requires n <= MaxLoad && line == At(IntToString(n))
    ensures Decode(line) == Some(Load(n))
  {
    assert IntToString(n) == NatToDigits(n);
    LoadRoundTrip(n);
  }

  /** The writer's block for a comparison. */
  lemma CompareBlockOf(c: Command, p: nat)
    requires IsCompare(c)
    ensures CommandBlock(c, p) == CompareLines(JumpText(CompareJump(c)), IntToString(p + 17), IntToString(p + 22))
  {
    CompareBlockIs(JumpText(CompareJump(c)), p, p + 17, p + 22);
  }

  /** The instructions of a comparison's block at `p`. */
  predicate CompareAt(prog: seq<Instr>, p: nat, j: Jump)
  {
    p + 22 <= |prog| && p + 22 <= MaxLoad && TopAt(prog, p, DFromM) && TopAt(prog, p + 4, SubD)
    && prog[p + 8] == Load(p + 17) && prog[p + 9] == Branch(j)
    && PushCompAt(prog, p + 10, Zero) && prog[p + 15] == Load(p + 22) && prog[p + 16] == JumpHome
    && PushCompAt(prog, p + 17, MinusOne)
  }

  /** Lines `@SP`, `M=M-1`, `A=M`, `D=M`, `@SP`, `M=M-1`, `A=M`, `D=M-D` at `p`. */
  lemma CompareHeadLines(lines: seq<string>, prog: seq<Instr>, p: nat)
    requires Assembles(lines, prog) && p + 8 <= |lines| && lines[p..p + 8] == CompareHead
    ensures TopAt(prog, p, DFromM) && TopAt(prog, p + 4, SubD)
  {
    var top1 := [At("SP"), "M=M-1", "A=M", "D=M"];
    var top2 := [At("SP"), "M=M-1", "A=M", "D=M-D"];
    assert CompareHead == top1 + top2;
    SliceAt(lines, p, top1, top2);
    DecodeDFromM("D=M");
    TopLines(lines, prog, p, "D=M", DFromM);
    DecodeSubD("D=M-D");
    TopLines(lines, prog, p + 4, "D=M-D", SubD);
  }

  /** An `@` line of a target followed by a line that assembles to `i`. */
  lemma JumpLines(lines: seq<string>, prog: seq<Instr>, p: nat, n: nat, second: string, i: Instr)
    requires Assembles(lines, prog) && p + 2 <= |lines| && n <= MaxLoad
    requires lines[p..p + 2] == [At(IntToString(n)), second] && Decode(second) == Some(i)
    ensures prog[p] == Load(n) && prog[p + 1] == i
  {
    var b := [At(IntToString(n)), second];
    LineOf(lines, p, b, 0);
    LineOf(lines, p, b, 1);
    DecodeTarget(n, lines[p]);
    LineIs(lines, prog, p, Load(n));
    LineIs(lines, prog, p + 1, i);
  }

  /** Where the block of a comparison sits, its instructions are the head, the branch and the two pushes. */
  lemma CompareInstrs(lines: seq<string>, prog: seq<Instr>, p: nat, j: Jump)
    requires Assembles(lines, prog) && p + 22 <= MaxLoad && p + 22 <= |lines|
    requires lines[p..p + 22] == CompareLines(JumpText(j), IntToString(p + 17), IntToString(p + 22))
    ensures CompareAt(prog, p, j)
  {
    var branch := [At(IntToString(p + 17)), "D;" + JumpText(j)];
    var home := [At(IntToString(p + 22)), "0;JMP"];
    var l3 := CompareHead + branch + PushValue("M=0") + home;
    SliceAt(lines, p, l3, PushValue("M=-1"));
    SliceAt(lines, p, CompareHead + branch + PushValue("M=0"), home);
    SliceAt(lines, p, CompareHead + branch, PushValue("M=0"));
    SliceAt(lines, p, CompareHead, branch);
    CompareHeadLines(lines, prog, p);
    DecodeBranch(j, "D;" + JumpText(j));
    JumpLines(lines, prog, p + 8, p + 17, "D;" + JumpText(j), Branch(j));
    DecodeStore("M=0", false);
    PushValueLines(lines, prog, p + 10, "M=0", Zero);
    DecodeJumpHome("0;JMP");
    JumpLines(lines, prog, p + 15, p + 22, "0;JMP", JumpHome);
    DecodeStore("M=-1", true);
    PushValueLines(lines, prog, p + 17, "M=-1", MinusOne);
  }

  /** The two pops of a comparison leave `x - y` in D and the stack pointer two lower. */
  lemma CompareTopRun(prog: seq<Instr>, s: State, sp: Word)
    requires TopAt(prog, s.pc, DFromM) && TopAt(prog, s.pc + 4, SubD) && Mem(s.ram, 0) == sp >= 3
    ensures var x := Mem(s.ram, sp - 2); var y := Mem(s.ram, sp - 1);
      Run(prog, s, 8) == State(sp - 2, Wrap(x - y), s.pc + 8, s.ram[0 := sp - 1][0 := sp - 2])
  {
    var x := Mem(s.ram, sp - 2);
    var y := Mem(s.ram, sp - 1);
    var ram1 := s.ram[0 := sp - 1];
    var t1 := State(sp - 1, y, s.pc + 4, ram1);
    var t := State(sp - 2, y, t1.pc + 3, ram1[0 := sp - 2]);
    var u := State(sp - 2, Wrap(x as int - y), s.pc + 8, ram1[0 := sp - 2]);
    assert TopAt(prog, t1.pc, SubD) && Mem(t1.ram, 0) == sp - 1;
    assert Mem(t.ram, t.a) == x && t.d == y;
    assert Eval(Minus(M, D), t) == Wrap(x as int - y);
    PopToD(prog, s, sp);
    TopAddressedOf(t1, sp - 1);
    TopRun(prog, t1, ToD, Minus(M, D));
    Chain(prog, s, 4, t1, 4, 8, u);
  }

  /** An `@target` line, then a computation that jumps to the target when `j` holds of its value. */
  lemma JumpRun(prog: seq<Instr>, s: State, target: Word, comp: Comp, j: Jump)
    requires s.pc + 1 < |prog| && prog[s.pc] == Load(target) && prog[s.pc + 1] == Compute(NoDest, comp, Some(j))
    ensures var v := Eval(comp, State(target, s.d, s.pc + 1, s.ram));
      Run(prog, s, 2) == State(target, s.d, if Holds(j, v) then target else s.pc + 2, s.ram)
  {
    var t0 := State(target, s.d, s.pc + 1, s.ram);
    var v := Eval(comp, t0);
    var u := State(target, s.d, if Holds(j, v) then target else s.pc + 2, s.ram);
    assert Exec(prog[s.pc], s) == t0;
    StepTo(prog, s, t0);
    assert Exec(prog[t0.pc], t0) == u;
    StepTo(prog, t0, u);
    Chain(prog, s, 1, t0, 1, 2, u);
  }

  /** The word a comparison pushes: `-1` (all ones) for true, `0` for false. */
  function Truth(b: bool): Word
  {
    if b then 0xFFFF else 0
  }

  /** From the branch of a comparison's block placed at `p`, when the comparison holds. */
  lemma CompareTrueRun(prog: seq<Instr>, t: State, p: nat, j: Jump)
    requires CompareAt(prog, p, j) && t.pc == p + 8 && 1 <= Mem(t.ram, 0) < 0xFFFF && Holds(j, t.d)
    ensures Run(prog, t, 7) == State(0, t.d, p + 22, PushRam(t.ram, Truth(true)))
  {
    var t2 := State(p + 17, t.d, p + 17, t.ram);
    var u := State(0, t.d, p + 22, PushRam(t.ram, Truth(true)));
    assert Eval(Value(D), State(p + 17, t.d, t.pc + 1, t.ram)) == t.d;
    assert PushCompAt(prog, t2.pc, MinusOne) && Mem(t2.ram, 0) == Mem(t.ram, 0);
    JumpRun(prog, t, p + 17, Value(D), j);
    PushCompRun(prog, t2, MinusOne, Mem(t.ram, 0));
    Chain(prog, t, 2, t2, 5, 7, u);
  }

  /** From the branch of a comparison's block placed at `p`, when the comparison fails. */
  lemma CompareFalseRun(prog: seq<Instr>, t: State, p: nat, j: Jump)
    requires CompareAt(prog, p, j) && t.pc == p + 8 && 1 <= Mem(t.ram, 0) < 0xFFFF && !Holds(j, t.d)
    ensures Run(prog, t, 9) == State(p + 22, t.d, p + 22, PushRam(t.ram, Truth(false)))
  {
    var ram := PushRam(t.ram, Truth(false));
    var t2 := State(p + 17, t.d, p + 10, t.ram);
    var t3 := State(0, t.d, p + 15, ram);
    var u := State(p + 22, t.d, p + 22, ram);
    assert Eval(Value(D), State(p + 17, t.d, t.pc + 1, t.ram)) == t.d;
    assert PushCompAt(prog, t2.pc, Zero) && Mem(t2.ram, 0) == Mem(t.ram, 0);
    assert prog[t3.pc] == Load(p + 22) && prog[t3.pc + 1] == JumpHome && t3.pc + 2 == p + 17;
    JumpRun(prog, t, p + 17, Value(D), j);
    PushCompRun(prog, t2, Zero, Mem(t.ram, 0));
    JumpRun(prog, t3, p + 22, Zero, JMP);
    Chain(prog, t2, 5, t3, 2, 7, u);
    Chain(prog, t, 2, t2, 7, 9, u);
  }

  /** Pushing onto a stack just moved down by two is replacing the lower word and moving down by one. */
  lemma CompareRam(ram: map<Word, Word>, sp: Word, b: Word)
    requires sp >= 3
    ensures var r := ram[0 := sp - 1][0 := sp - 2]; Mem(r, 0) == sp - 2 && PushRam(r, b) == ram[0 := sp - 1][sp - 2 := b]
  {
  }

  /**
   * The runs of a comparison's block placed at `s.pc`: the two top words `x`
   * and `y` are replaced by whether `j` holds of `x - y` (`-1` for true, `0`
   * for false), the stack pointer is one lower, and control reaches the end
   * of the block, in 15 cycles when `j` holds and in 17 when it does not.
   */
  lemma CompareRun(prog: seq<Instr>, s: State, j: Jump)
    requires CompareAt(prog, s.pc, j) && Mem(s.ram, 0) >= 3
    ensures var sp := Mem(s.ram, 0); var x := Mem(s.ram, sp - 2); var y := Mem(s.ram, sp - 1);
      var w := Wrap(x - y); var holds := Holds(j, w);
      Run(prog, s, if holds then 15 else 17)
      == State(if holds then 0 else s.pc + 22, w, s.pc + 22, s.ram[0 := sp - 1][sp - 2 := Truth(holds)])
  {
    var p := s.pc;
    var sp := Mem(s.ram, 0);
    var w := Wrap(Mem(s.ram, sp - 2) - Mem(s.ram, sp - 1));
    var holds := Holds(j, w);
    var ram := s.ram[0 := sp - 1][0 := sp - 2];
    var t := State(sp - 2, w, p + 8, ram);
    var u := State(if holds then 0 else p + 22, w, p + 22, PushRam(ram, Truth(holds)));
    CompareRam(s.ram, sp, Truth(holds));
    assert TopAt(prog, p + 4, SubD);
    CompareTopRun(prog, s, sp);
    if holds {
      CompareTrueRun(prog, t, p, j);
      Chain(prog, s, 8, t, 7, 15, u);
    } else {
      CompareFalseRun(prog, t, p, j);
      Chain(prog, s, 8, t, 9, 17, u);
    }
  }

  /**
   * `eq`, `lt` and `gt`, wherever the writer put their block in an assembled
   * program: the two top words are replaced by the truth of the comparison
   * of their wrapped difference, and control falls through to the next block.
   */
  lemma CompareEffect(lines: seq<string>, prog: seq<Instr>, s: State, c: Command)
    requires IsCompare(c) && Assembles(lines, prog) && s.pc + 22 <= MaxLoad
    requires s.pc + 22 <= |lines| && lines[s.pc..s.pc + 22] == CommandBlock(c, s.pc)
    requires Mem(s.ram, 0) >= 3
    ensures var sp := Mem(s.ram, 0); var x := Mem(s.ram, sp - 2); var y := Mem(s.ram, sp - 1);
      var w := Wrap(x - y); var holds := Holds(CompareJump(c), w);
      Run(prog, s, if holds then 15 else 17)
      == State(if holds then 0 else s.pc + 22, w, s.pc + 22, s.ram[0 := sp - 1][sp - 2 := Truth(holds)])
  {
    CompareBlockOf(c, s.pc);
    CompareInstrs(lines, prog, s.pc, CompareJump(c));
    CompareRun(prog, s, CompareJump(c));
  }

  /** A word read as a 16-bit two's complement number. */
  function Signed(v: Word): int
  {
    if Negative(v) then v - 0x10000 else v
  }

  /** What `eq`, `lt` and `gt` ask of the word `x` below and the word `y` on top. */
  predicate Compares(c: Command, x: Word, y: Word)
    requires IsCompare(c)
  {
    if c.Eq? then x == y else if c.Lt? then Signed(x) < Signed(y) else Signed(x) > Signed(y)
  }

  /** Wrapping a difference of two words. */
  lemma WrapDifference(z: int)
    requires -0x10000 < z < 0x10000
    ensures Wrap(z) == if z < 0 then z + 0x10000 else z
  {
  }

  /**
   * The jump of a comparison's block decides the comparison: always for
   * `eq`; for `lt` and `gt` as long as the signed difference of the two
   * words fits in a word.
   */
  lemma CompareMeaning(c: Command, x: Word, y: Word)
    requires IsCompare(c)
    requires !c.Eq? ==> -0x8000 <= Signed(x) - Signed(y) < 0x8000
    ensures Holds(CompareJump(c), Wrap(x - y)) <==> Compares(c, x, y)
  {
    WrapDifference(x - y);
  }

  /** Outside that bound `lt` and `gt` always answer wrongly. */
  lemma CompareMeaningConverse(c: Command, x: Word, y: Word)
    requires IsCompare(c) && !c.Eq?
    requires !(-0x8000 <= Signed(x) - Signed(y) < 0x8000)
    ensures Holds(CompareJump(c), Wrap(x - y)) != Compares(c, x, y)
  {
    WrapDifference(x - y);
  }

  /** Without that bound the block can answer wrongly: `32767 < -1` comes out true. */
  lemma CompareOverflow()
    ensures Holds(CompareJump(Lt), Wrap(0x7FFF - 0xFFFF)) && !Compares(Lt, 0x7FFF, 0xFFFF)
  {
    WrapDifference(0x7FFF - 0xFFFF);
  }
}
