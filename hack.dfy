/**
 * A Hack computer, as in chapters 4 to 6 of "The Elements of Computing
 * Systems": 16-bit registers A and D, a program counter, and a RAM of
 * 16-bit words. An assembly line decodes into an A-instruction (`@value`)
 * or a C-instruction (`dest=comp;jump`); executing it updates the state the
 * way the Hack CPU does in one clock cycle.
 */
module Hack {
  import opened Wrappers
  import opened Decimal
  import opened Str

  /** A 16-bit word, as the unsigned number its bits spell. */
  type Word = x: int | 0 <= x < 0x10000

  /**
   * The low 16 bits of a number: two's complement wrap-around, adding or
   * taking away 2^16 until the number is a word.
   */
  function Wrap(x: int): Word
    decreases if x < 0 then 0x10000 - x else x
  {
    if x < 0 then Wrap(x + 0x10000) else if x < 0x10000 then x else Wrap(x - 0x10000)
  }

  /** Wrapping is the remainder modulo 2^16. */
  lemma {:induction false} WrapMod(x: int)
    ensures Wrap(x) == x % 0x10000
    decreases if x < 0 then 0x10000 - x else x
  {
    if x < 0 {
      WrapMod(x + 0x10000);
      ModShift(x, 1);
    } else if x >= 0x10000 {
      WrapMod(x - 0x10000);
      ModShift(x - 0x10000, 1);
    }
  }

  lemma ModShift(y: int, q: int)
    ensures (y + q * 0x10000) % 0x10000 == y % 0x10000
  {
  }

  /** Adding to a wrapped number wraps like adding to the number. */
  lemma WrapAdd(x: int, n: int)
    ensures Wrap(Wrap(x) + n) == Wrap(x + n)
  {
    var m := 0x10000;
    var w := x % m;
    WrapMod(x);
    WrapMod(w + n);
    WrapMod(x + n);
    assert x == (x / m) * m + w;
    assert (w + n) % m == (x + n) % m by {
      assert x + n == (w + n) + (x / m) * m;
      ModShift(w + n, x / m);
    }
  }

  /** Bitwise and, or and not of two words. */
  function AndWord(x: Word, y: Word): Word
  {
    ((x as bv16) & (y as bv16)) as int
  }

  function OrWord(x: Word, y: Word): Word
  {
    ((x as bv16) | (y as bv16)) as int
  }

  function NotWord(x: Word): Word
  {
    0xFFFF - x
  }

  /** The largest value an A-instruction can load: A-instructions carry 15 bits. */
  const MaxLoad: nat := 0x7FFF

  datatype Reg = A | D | M

  /**
   * What the ALU computes. A two-operand computation combines D with A or
   * with M.
   */
  datatype Comp =
    | Zero | One | MinusOne
    | Value(r: Reg)
    | BitNot(r: Reg) | Negate(r: Reg)
    | Incr(r: Reg) | Decr(r: Reg)
    | Plus(x: Reg, y: Reg) | Minus(x: Reg, y: Reg) | BitAnd(x: Reg, y: Reg) | BitOr(x: Reg, y: Reg)

  datatype Jump = JGT | JEQ | JGE | JLT | JNE | JLE | JMP

  /** The registers a C-instruction stores its result in. */
  datatype Dest = Dest(toA: bool, toD: bool, toM: bool)

  const NoDest := Dest(false, false, false)

  datatype Instr =
    | Load(value: Word)
    | Compute(dest: Dest, comp: Comp, jump: Option<Jump>)

  function RegOf(c: char): Option<Reg>
  {
    if c == 'A' then Some(A) else if c == 'D' then Some(D) else if c == 'M' then Some(M) else None
  }

  /** The ALU combines D with one of A and M. */
  predicate AluPair(x: Reg, y: Reg)
  {
    (x == D && y != D) || (y == D && x != D)
  }

  /** The `comp` field; `x+y`, `x&y` and `x|y` are accepted in either operand order. */
  function CompOf(s: string): Option<Comp>
  {
    if s == "0" then Some(Zero)
    else if s == "1" then Some(One)
    else if s == "-1" then Some(MinusOne)
    else if |s| == 1 then
      match RegOf(s[0])
      case None => None
      case Some(r) => Some(Value(r))
    else if |s| == 2 && (s[0] == '!' || s[0] == '-') then
      match RegOf(s[1])
      case None => None
      case Some(r) => Some(if s[0] == '!' then BitNot(r) else Negate(r))
    else if |s| == 3 then
      match RegOf(s[0])
      case None => None
      case Some(x) =>
        if s[2] == '1' then
          if s[1] == '+' then Some(Incr(x)) else if s[1] == '-' then Some(Decr(x)) else None
        else
          match RegOf(s[2])
          case None => None
          case Some(y) =>
            if !AluPair(x, y) then None
            else if s[1] == '+' then Some(Plus(x, y))
            else if s[1] == '-' then Some(Minus(x, y))
            else if s[1] == '&' then Some(BitAnd(x, y))
            else if s[1] == '|' then Some(BitOr(x, y))
            else None
    else None
  }

  /** The `dest` field: a non-empty combination of A, M and D, in the book's spelling. */
  function DestOf(s: string): Option<Dest>
  {
    if s == "M" then Some(Dest(false, false, true))
    else if s == "D" then Some(Dest(false, true, false))
    else if s == "MD" then Some(Dest(false, true, true))
    else if s == "A" then Some(Dest(true, false, false))
    else if s == "AM" then Some(Dest(true, false, true))
    else if s == "AD" then Some(Dest(true, true, false))
    else if s == "AMD" then Some(Dest(true, true, true))
    else None
  }

  function JumpOf(s: string): Option<Jump>
  {
    if s == "JGT" then Some(JGT)
    else if s == "JEQ" then Some(JEQ)
    else if s == "JGE" then Some(JGE)
    else if s == "JLT" then Some(JLT)
    else if s == "JNE" then Some(JNE)
    else if s == "JLE" then Some(JLE)
    else if s == "JMP" then Some(JMP)
    else None
  }

  /** The predefined symbols for the VM's pointers. */
  function SymbolValue(s: string): Option<Word>
  {
    if s == "SP" then Some(0)
    else if s == "LCL" then Some(1)
    else if s == "ARG" then Some(2)
    else if s == "THIS" then Some(3)
    else if s == "THAT" then Some(4)
    else None
  }

  /** One assembly line as an instruction; `None` for a line the assembler refuses. */
  function Decode(line: string): Option<Instr>
  {
    if |line| > 0 && line[0] == '@' then
      var sym := line[1..];
      if |sym| > 0 && IsDigit(sym[0]) then
        if AllDigits(sym) && DigitsValue(sym) <= MaxLoad then Some(Load(DigitsValue(sym))) else None
      else
        match SymbolValue(sym)
        case None => None
        case Some(v) => Some(Load(v))
    else
      var eq := IndexOf(line, '=');
      if eq < |line| then DecodeFields(DestOf(line[..eq]), line[eq + 1..])
      else DecodeFields(Some(NoDest), line)
  }

  function RegChar(r: Reg): char
  {
    match r
    case A => 'A'
    case D => 'D'
    case M => 'M'
  }

  /** The mnemonic of a computation. */
  function CompText(c: Comp): string
  {
    match c
    case Zero => "0"
    case One => "1"
    case MinusOne => "-1"
    case Value(r) => [RegChar(r)]
    case BitNot(r) => ['!', RegChar(r)]
    case Negate(r) => ['-', RegChar(r)]
    case Incr(r) => [RegChar(r), '+', '1']
    case Decr(r) => [RegChar(r), '-', '1']
    case Plus(x, y) => [RegChar(x), '+', RegChar(y)]
    case Minus(x, y) => [RegChar(x), '-', RegChar(y)]
    case BitAnd(x, y) => [RegChar(x), '&', RegChar(y)]
    case BitOr(x, y) => [RegChar(x), '|', RegChar(y)]
  }

  /** The mnemonic of a destination: the registers in the order A, M, D. */
  function DestText(d: Dest): string
  {
    (if d.toA then "A" else "") + (if d.toM then "M" else "") + (if d.toD then "D" else "")
  }

  function JumpText(j: Jump): string
  {
    match j
    case JGT => "JGT"
    case JEQ => "JEQ"
    case JGE => "JGE"
    case JLT => "JLT"
    case JNE => "JNE"
    case JLE => "JLE"
    case JMP => "JMP"
  }

  /** A computation the ALU can do: two operands are D and one of A and M. */
  predicate ValidComp(c: Comp)
  {
    (c.Plus? || c.Minus? || c.BitAnd? || c.BitOr?) ==> AluPair(c.x, c.y)
  }

  /** An instruction the assembler can write: a load within 15 bits, a computation the ALU can do. */
  predicate Valid(i: Instr)
  {
    match i
    case Load(v) => v <= MaxLoad
    case Compute(_, comp, _) => ValidComp(comp)
  }

  /** The assembly line of an instruction: `@value`, or `dest=comp;jump` without the empty fields. */
  function Encode(i: Instr): string
  {
    match i
    case Load(v) => "@" + NatToDigits(v)
    case Compute(dest, comp, jump) =>
      if dest == NoDest then FieldsText(comp, jump) else DestText(dest) + "=" + FieldsText(comp, jump)
  }

  lemma RegRoundTrip(r: Reg)
    ensures RegOf(RegChar(r)) == Some(r)
    ensures RegChar(r) != '0' && RegChar(r) != '1' && RegChar(r) != '!' && RegChar(r) != '-'
  {
  }

  /** Computation mnemonics read back, and hold none of `=`, `;` and `@`. */
  lemma CompRoundTrip(c: Comp)
    requires ValidComp(c)
    ensures CompOf(CompText(c)) == Some(c)
    ensures var t := CompText(c); 1 <= |t| <= 3 && t[0] != '@' && '=' !in t && ';' !in t
  {
    match c
    case Zero =>
    case One =>
    case MinusOne =>
    case Value(r) => RegRoundTrip(r);
    case BitNot(r) => RegRoundTrip(r);
    case Negate(r) => RegRoundTrip(r);
    case Incr(r) => RegRoundTrip(r);
    case Decr(r) => RegRoundTrip(r);
    case Plus(x, y) => RegRoundTrip(x); RegRoundTrip(y);
    case Minus(x, y) => RegRoundTrip(x); RegRoundTrip(y);
    case BitAnd(x, y) => RegRoundTrip(x); RegRoundTrip(y);
    case BitOr(x, y) => RegRoundTrip(x); RegRoundTrip(y);
  }

  lemma DestRoundTrip(d: Dest)
    requires d != NoDest
    ensures DestOf(DestText(d)) == Some(d)
    ensures var t := DestText(d); |t| > 0 && t[0] != '@' && '=' !in t
  {
    var t := DestText(d);
    match (d.toA, d.toM, d.toD)
    case (true, true, true) => assert t == "AMD";
    case (true, true, false) => assert t == "AM";
    case (true, false, true) => assert t == "AD";
    case (true, false, false) => assert t == "A";
    case (false, true, true) => assert t == "MD";
    case (false, true, false) => assert t == "M";
    case (false, false, _) => assert t == "D";
  }

  lemma JumpRoundTrip(j: Jump)
    ensures JumpOf(JumpText(j)) == Some(j) && '=' !in JumpText(j)
  {
  }

  /** The computation and jump fields that follow the destination. */
  function DecodeFields(dest: Option<Dest>, rest: string): Option<Instr>
  {
    var semi := IndexOf(rest, ';');
    var comp := CompOf(rest[..semi]);
    var jump := if semi < |rest| then
                  (match JumpOf(rest[semi + 1..]) case None => None case Some(j) => Some(Some(j)))
                else Some(None);
    if dest.Some? && comp.Some? && jump.Some? then Some(Compute(dest.value, comp.value, jump.value)) else None
  }

  /** A line `dest=rest`: the destination is what precedes the first `=`. */
  lemma DecodeAssign(dest: string, rest: string)
    requires |dest| > 0 && dest[0] != '@' && '=' !in dest
    ensures Decode(dest + "=" + rest) == DecodeFields(DestOf(dest), rest)
  {
    var line := dest + "=" + rest;
    forall j | 0 <= j < |dest| ensures line[j] != '=' {
      assert line[j] == dest[j];
    }
    IndexOfIs(line, '=', |dest|);
    assert line[..|dest|] == dest;
    assert line[|dest| + 1..] == rest;
  }

  /** A line without `=` has no destination. */
  lemma DecodeNoAssign(rest: string)
    requires |rest| > 0 && rest[0] != '@' && '=' !in rest
    ensures Decode(rest) == DecodeFields(Some(NoDest), rest)
  {
  }

  /** The computation without a jump reads back. */
  lemma FieldsNoJump(dest: Dest, comp: Comp)
    requires ValidComp(comp)
    ensures DecodeFields(Some(dest), CompText(comp)) == Some(Compute(dest, comp, None))
  {
    var c := CompText(comp);
    CompRoundTrip(comp);
    assert IndexOf(c, ';') == |c|;
    assert c[..|c|] == c;
  }

  /** The computation and the jump after the first `;` read back. */
  lemma FieldsJump(dest: Dest, comp: Comp, jump: Jump)
    requires ValidComp(comp)
    ensures DecodeFields(Some(dest), CompText(comp) + (";" + JumpText(jump))) == Some(Compute(dest, comp, Some(jump)))
  {
    var c := CompText(comp);
    var rest := c + (";" + JumpText(jump));
    CompRoundTrip(comp);
    JumpRoundTrip(jump);
    forall j | 0 <= j < |c| ensures rest[j] != ';' {
      assert rest[j] == c[j];
    }
    IndexOfIs(rest, ';', |c|);
    assert rest[..|c|] == c;
    assert rest[|c| + 1..] == JumpText(jump);
  }

  /** The fields after the destination: a computation, then `;jump` when there is a jump. */
  function FieldsText(comp: Comp, jump: Option<Jump>): string
  {
    CompText(comp) + (if jump.Some? then ";" + JumpText(jump.value) else "")
  }

  lemma FieldsRoundTrip(dest: Dest, comp: Comp, jump: Option<Jump>)
    requires ValidComp(comp)
    ensures DecodeFields(Some(dest), FieldsText(comp, jump)) == Some(Compute(dest, comp, jump))
    ensures var t := FieldsText(comp, jump); |t| > 0 && t[0] != '@' && '=' !in t
  {
    CompRoundTrip(comp);
    if jump.Some? {
      JumpRoundTrip(jump.value);
      FieldsJump(dest, comp, jump.value);
    } else {
      assert FieldsText(comp, jump) == CompText(comp);
      FieldsNoJump(dest, comp);
    }
  }

  /** A load within 15 bits reads back from its decimal digits. */
  lemma LoadRoundTrip(v: Word)
    requires v <= MaxLoad
    ensures Decode("@" + NatToDigits(v)) == Some(Load(v))
  {
    var digits := NatToDigits(v);
    NatToDigitsShape(v);
    DigitsValueOfNat(v);
    assert ("@" + digits)[1..] == digits;
  }

  /** Every instruction the assembler can write reads back from its line. */
  lemma DecodeEncode(i: Instr)
    requires Valid(i)
    ensures Decode(Encode(i)) == Some(i)
  {
    match i
    case Load(v) =>
      LoadRoundTrip(v);
    case Compute(dest, comp, jump) =>
      var tail := FieldsText(comp, jump);
      FieldsRoundTrip(dest, comp, jump);
      if dest == NoDest {
        DecodeNoAssign(tail);
      } else {
        DestRoundTrip(dest);
        DecodeAssign(DestText(dest), tail);
      }
  }

  /** Registers, program counter and RAM; an address never written holds 0. */
  datatype State = State(a: Word, d: Word, pc: nat, ram: map<Word, Word>)

  function Mem(ram: map<Word, Word>, addr: Word): Word
  {
    if addr in ram then ram[addr] else 0
  }

  function RegValue(r: Reg, s: State): Word
  {
    match r
    case A => s.a
    case D => s.d
    case M => Mem(s.ram, s.a)
  }

  /** The ALU output, in 16-bit two's complement arithmetic. */
  function Eval(c: Comp, s: State): Word
  {
    match c
    case Zero => 0
    case One => 1
    case MinusOne => 0xFFFF
    case Value(r) => RegValue(r, s)
    case BitNot(r) => NotWord(RegValue(r, s))
    case Negate(r) => Wrap(0 - RegValue(r, s) as int)
    case Incr(r) => Wrap(RegValue(r, s) + 1)
    case Decr(r) => Wrap(RegValue(r, s) - 1)
    case Plus(x, y) => Wrap(RegValue(x, s) + RegValue(y, s))
    case Minus(x, y) => Wrap(RegValue(x, s) - RegValue(y, s))
    case BitAnd(x, y) => AndWord(RegValue(x, s), RegValue(y, s))
    case BitOr(x, y) => OrWord(RegValue(x, s), RegValue(y, s))
  }


  /** The sign bit of a word. */
  predicate Negative(v: Word)
  {
    v >= 0x8000
  }

  /** Whether a jump is taken on ALU output `v`, read as a signed number. */
  predicate Holds(j: Jump, v: Word)
  {
    match j
    case JGT => !Negative(v) && v != 0
    case JEQ => v == 0
    case JGE => !Negative(v)
    case JLT => Negative(v)
    case JNE => v != 0
    case JLE => Negative(v) || v == 0
    case JMP => true
  }

  /**
   * One clock cycle. M is the RAM word at the old A, and a taken jump goes
   * to the old A.
   */
  function Exec(i: Instr, s: State): State
  {
    match i
    case Load(v) => State(v, s.d, s.pc + 1, s.ram)
    case Compute(dest, comp, jump) =>
      var v := Eval(comp, s);
      State(if dest.toA then v else s.a,
            if dest.toD then v else s.d,
            if jump.Some? && Holds(jump.value, v) then s.a else s.pc + 1,
            if dest.toM then s.ram[s.a := v] else s.ram)
  }

  /** `n` clock cycles of `prog`; the machine stops when the counter leaves the program. */
  function Run(prog: seq<Instr>, s: State, n: nat): State
    decreases n
  {
    if n == 0 || s.pc >= |prog| then s else Run(prog, Exec(prog[s.pc], s), n - 1)
  }

  /** Running is running the first `m` cycles, then the next `n`. */
  lemma {:induction false} RunAppend(prog: seq<Instr>, s: State, m: nat, n: nat)
    ensures Run(prog, s, m + n) == Run(prog, Run(prog, s, m), n)
    decreases m
  {
    if m > 0 && s.pc < |prog| {
      RunAppend(prog, Exec(prog[s.pc], s), m - 1, n);
      assert m + n - 1 == (m - 1) + n;
    }
  }

  /** Line `k` decodes to instruction `k`. */
  predicate LineDecodes(lines: seq<string>, prog: seq<Instr>, k: nat)
    requires k < |lines| && k < |prog|
  {
    Decode(lines[k]) == Some(prog[k])
  }

  /** Each line decodes to the instruction at the same position. */
  predicate Assembles(lines: seq<string>, prog: seq<Instr>)
  {
    |lines| == |prog| && forall k :: 0 <= k < |lines| ==> LineDecodes(lines, prog, k)
  }

  /** Decoding is a function: lines assemble to at most one program. */
  lemma AssemblesUnique(lines: seq<string>, p: seq<Instr>, q: seq<Instr>)
    requires Assembles(lines, p) && Assembles(lines, q)
    ensures p == q
  {
    forall k | 0 <= k < |p| ensures p[k] == q[k] {
      assert LineDecodes(lines, p, k) && LineDecodes(lines, q, k);
    }
  }

  lemma AssemblesAppend(a: seq<string>, pa: seq<Instr>, b: seq<string>, pb: seq<Instr>)
    requires Assembles(a, pa) && Assembles(b, pb)
    ensures Assembles(a + b, pa + pb)
  {
    forall k | 0 <= k < |a + b| ensures LineDecodes(a + b, pa + pb, k) {
      if k < |a| {
        assert LineDecodes(a, pa, k);
        assert (a + b)[k] == a[k] && (pa + pb)[k] == pa[k];
      } else {
        assert LineDecodes(b, pb, k - |a|);
        assert (a + b)[k] == b[k - |a|] && (pa + pb)[k] == pb[k - |a|];
      }
    }
  }
}
