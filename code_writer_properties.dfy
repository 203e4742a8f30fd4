/**
 * Properties of what the code writer emits: the size of every block, how
 * the output of a command list splits at any point, that no emitted line
 * holds a line break, and that the `Display` text reads back, line by
 * line, as the list it was made from.
 */
module CodeWriterProperties {
  import opened Decimal
  import opened Str
  import opened Syntax
  import opened CodeWriter

  /**
   * The length of each command's block, counted from the emit helpers
   * each `write_*` method calls.
   */
  function BlockSize(c: Command): nat
  {
    match c
    case Stack(Push, seg, index) =>
      if seg.Constant? || seg.Temp? || seg.Pointer? then 7 else 8 + IncCount(index)
    case Stack(Pop, seg, index) =>
      if seg.Constant? || seg.Temp? || seg.Pointer? then 6 else 7 + IncCount(index)
    case Add => 10
    case Sub => 10
    case And => 10
    case Or => 10
    case Eq => 22
    case Lt => 22
    case Gt => 22
    case Neg => 6
    case Not => 6
  }

  /** The sum of the block sizes of `cs`. */
  function TotalSize(cs: seq<Command>): nat
  {
    if cs == [] then 0 else BlockSize(cs[0]) + TotalSize(cs[1..])
  }

  /** Every block has the length BlockSize gives, wherever it is placed. */
  lemma CommandBlockSize(c: Command, start: nat)
    ensures |CommandBlock(c, start)| == BlockSize(c)
  {
    match c
    case Eq => CompareJumpTargets("JEQ", start);
    case Lt => CompareJumpTargets("JLT", start);
    case Gt => CompareJumpTargets("JGT", start);
    case _ =>
  }

  /** `write_code` emits exactly the sum of the block sizes. */
  lemma EmitSize(start: nat, cs: seq<Command>)
    ensures |Emit(start, cs)| == TotalSize(cs)
  {
    forall c, s ensures |CommandBlock(c, s)| == BlockSize(c) {
      CommandBlockSize(c, s);
    }
    EmitBySize(CommandBlock, start, cs);
  }

  lemma {:induction false} EmitBySize(block: (Command, nat) -> seq<string>, start: nat, cs: seq<Command>)
    requires forall c, s :: |block(c, s)| == BlockSize(c)
    ensures |EmitBy(block, start, cs)| == TotalSize(cs)
    decreases |cs|
  {
    if cs != [] {
      var next := start + |block(cs[0], start)|;
      EmitFrom(block, start, cs, 0, next);
      assert cs[0..] == cs;
      EmitBySize(block, next, cs[1..]);
    }
  }

  /**
   * Writing `xs` and then `ys` emits what writing `xs + ys` emits: the
   * second part is placed after the lines of the first.
   */
  lemma EmitAppend(start: nat, xs: seq<Command>, ys: seq<Command>)
    ensures Emit(start, xs + ys) == Emit(start, xs) + Emit(start + |Emit(start, xs)|, ys)
  {
    EmitByAppend(CommandBlock, start, xs, ys);
  }

  lemma {:induction false} EmitByAppend(block: (Command, nat) -> seq<string>, start: nat, xs: seq<Command>, ys: seq<Command>)
    ensures EmitBy(block, start, xs + ys) == EmitBy(block, start, xs) + EmitBy(block, start + |EmitBy(block, start, xs)|, ys)
    decreases |xs|
  {
    if xs == [] {
      assert xs + ys == ys;
      assert EmitBy(block, start, xs) == [];
      assert start + |EmitBy(block, start, xs)| == start;
    } else {
      var b := block(xs[0], start);
      var next := start + |b|;
      assert (xs + ys)[0] == xs[0] && (xs + ys)[1..] == xs[1..] + ys;
      assert (xs + ys)[0..] == xs + ys && xs[0..] == xs;
      EmitFrom(block, start, xs + ys, 0, next);
      EmitFrom(block, start, xs, 0, next);
      EmitByAppend(block, next, xs[1..], ys);
      var e := EmitBy(block, next, xs[1..]);
      var last := start + |EmitBy(block, start, xs)|;
      assert last == next + |e|;
      Chain(b, e, EmitBy(block, last, ys), EmitBy(block, start, xs), EmitBy(block, next, xs[1..] + ys), EmitBy(block, start, xs + ys));
    }
  }

  /** A line with neither `\n` nor `\r` in it. */
  predicate Clean(l: string)
  {
    forall i :: 0 <= i < |l| ==> l[i] != '\n' && l[i] != '\r'
  }

  predicate AllClean(ls: seq<string>)
  {
    forall k :: 0 <= k < |ls| ==> Clean(ls[k])
  }

  lemma AllCleanAppend(a: seq<string>, b: seq<string>)
    requires AllClean(a) && AllClean(b)
    ensures AllClean(a + b)
  {
    forall k | 0 <= k < |a + b| ensures Clean((a + b)[k]) {
      if k < |a| {
        assert (a + b)[k] == a[k];
      } else {
        assert (a + b)[k] == b[k - |a|];
      }
    }
  }

  lemma AtClean(n: int)
    ensures Clean(At(IntToString(n)))
  {
    IntToStringChars(n);
    var s := IntToString(n);
    forall i | 0 <= i < |At(s)| ensures At(s)[i] != '\n' && At(s)[i] != '\r' {
      if i > 0 {
        assert At(s)[i] == s[i - 1];
      }
    }
  }

  lemma GetSymbolClean(seg: Segment, index: I64)
    ensures Clean(At(GetSymbol(seg, index)))
  {
    match seg
    case Constant => AtClean(index);
    case Temp => AtClean(5 + index);
    case Pointer => AtClean(3 + index);
    case Static => AtClean(16);
    case _ =>
  }

  lemma BinaryBlockClean(op: string)
    requires op in ["+", "-", "&", "|"]
    ensures AllClean(BinaryBlock(op))
  {
  }

  lemma PrefixBlockClean(op: string)
    requires op in ["-", "!"]
    ensures AllClean(PrefixBlock(op))
  {
  }

  lemma CompareBlockClean(cmp: string, start: nat)
    requires cmp in ["JEQ", "JLT", "JGT"]
    ensures AllClean(CompareBlock(cmp, start))
  {
    AtClean(start + 8 + 9);
    AtClean(start + 15 + 7);
    CompareBlockIs(cmp, start, start + 8 + 9, start + 15 + 7);
  }

  lemma IncALinesClean(index: int)
    ensures AllClean(IncALines(index))
  {
  }

  lemma PushLoadClean(seg: Segment, index: I64)
    ensures AllClean(PushLoad(seg, index))
  {
    IncALinesClean(index);
    AllCleanAppend(["A=M"], IncALines(index));
    AllCleanAppend(["A=M"] + IncALines(index), ["D=M"]);
  }

  lemma PushBlockClean(seg: Segment, index: I64)
    ensures AllClean(PushBlock(seg, index))
  {
    var head := [At(GetSymbol(seg, index))];
    GetSymbolClean(seg, index);
    PushLoadClean(seg, index);
    AllCleanAppend(head, PushLoad(seg, index));
    var tail := [At("SP"), "A=M", "M=D", At("SP"), "M=M+1"];
    assert AllClean(tail);
    AllCleanAppend(head + PushLoad(seg, index), tail);
  }

  lemma PopBlockClean(seg: Segment, index: I64)
    ensures AllClean(PopBlock(seg, index))
  {
    GetSymbolClean(seg, index);
    IncALinesClean(index);
    AllCleanAppend(["A=M"], IncALines(index));
    var head := [At("SP"), "M=M-1", "A=M", "D=M", At(GetSymbol(seg, index))];
    AllCleanAppend(head, PopAddress(seg, index));
    AllCleanAppend(head + PopAddress(seg, index), ["M=D"]);
  }

  lemma CommandBlockClean(c: Command, start: nat)
    ensures AllClean(CommandBlock(c, start))
  {
    match c
    case Stack(Push, seg, index) => PushBlockClean(seg, index);
    case Stack(Pop, seg, index) => PopBlockClean(seg, index);
    case Add => BinaryBlockClean("+");
    case Sub => BinaryBlockClean("-");
    case And => BinaryBlockClean("&");
    case Or => BinaryBlockClean("|");
    case Eq => CompareBlockClean("JEQ", start);
    case Lt => CompareBlockClean("JLT", start);
    case Gt => CompareBlockClean("JGT", start);
    case Neg => PrefixBlockClean("-");
    case Not => PrefixBlockClean("!");
  }

  /** No line `write_code` emits holds a line break. */
  lemma EmitClean(start: nat, cs: seq<Command>)
    ensures AllClean(Emit(start, cs))
  {
    forall c, s ensures AllClean(CommandBlock(c, s)) {
      CommandBlockClean(c, s);
    }
    EmitByClean(CommandBlock, start, cs);
  }

  lemma {:induction false} EmitByClean(block: (Command, nat) -> seq<string>, start: nat, cs: seq<Command>)
    requires forall c, s :: AllClean(block(c, s))
    ensures AllClean(EmitBy(block, start, cs))
    decreases |cs|
  {
    if cs != [] {
      var b := block(cs[0], start);
      var next := start + |b|;
      EmitFrom(block, start, cs, 0, next);
      assert cs[0..] == cs;
      EmitByClean(block, next, cs[1..]);
      AllCleanAppend(b, EmitBy(block, next, cs[1..]));
    }
  }

  /** The `Display` text of a single line. */
  lemma RenderOne(l: string)
    ensures Render([l]) == l + "\n"
  {
    assert [l][..0] == [];
  }

  /** The `Display` text of a concatenation is the concatenation of the texts. */
  lemma {:induction false} RenderAppend(a: seq<string>, b: seq<string>)
    ensures Render(a + b) == Render(a) + Render(b)
  {
    if b == [] {
      assert a + b == a;
    } else {
      var init := b[..|b| - 1];
      assert (a + b)[..|a + b| - 1] == a + init;
      assert (a + b)[|a + b| - 1] == b[|b| - 1];
      RenderAppend(a, init);
    }
  }

  /** Its length: every line and one newline per line. */
  function TextLength(ls: seq<string>): nat
  {
    if ls == [] then 0 else |ls[0]| + 1 + TextLength(ls[1..])
  }

  lemma {:induction false} RenderLength(ls: seq<string>)
    ensures |Render(ls)| == TextLength(ls)
  {
    if ls != [] {
      RenderLength(ls[1..]);
      assert ls == [ls[0]] + ls[1..];
      RenderAppend([ls[0]], ls[1..]);
      RenderOne(ls[0]);
    }
  }

  /** Splitting the `Display` text into lines gives the list back. */
  lemma {:induction false} LinesOfRender(ls: seq<string>)
    requires AllClean(ls)
    ensures Lines(Render(ls)) == ls
  {
    if ls != [] {
      var l := ls[0];
      assert ls == [l] + ls[1..];
      RenderAppend([l], ls[1..]);
      RenderOne(l);
      assert Clean(l);
      assert '\n' !in l by {
        forall i | 0 <= i < |l| ensures l[i] != '\n' { }
      }
      LinesCons(l, Render(ls[1..]));
      assert AllClean(ls[1..]) by {
        forall k | 0 <= k < |ls[1..]| ensures Clean(ls[1..][k]) {
          assert ls[1..][k] == ls[k + 1];
        }
      }
      LinesOfRender(ls[1..]);
    }
  }

  /**
   * The `Display` text of a writer whose lines hold no line break splits
   * back into those lines; its length is the lines' plus one newline each.
   */
  lemma WriterDisplay(w: CodeWriter)
    requires AllClean(w.code)
    ensures Lines(w.Display()) == w.code
    ensures |w.Display()| == TextLength(w.code)
  {
    LinesOfRender(w.code);
    RenderLength(w.code);
  }

  /**
   * A fresh writer that writes `cs` displays a text whose lines are the
   * blocks of the commands and whose length is fixed by the block sizes.
   */
  lemma DisplayOfProgram(cs: seq<Command>)
    ensures Lines(Render(Emit(0, cs))) == Emit(0, cs)
    ensures |Emit(0, cs)| == TotalSize(cs)
  {
    EmitClean(0, cs);
    LinesOfRender(Emit(0, cs));
    EmitSize(0, cs);
  }
}
