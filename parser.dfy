/**
 * The parser: VM text to commands. Each line loses everything from its
 * first `//`, lines left empty are dropped, the rest are trimmed and
 * classified by their leading keyword. Every failure of the original
 * (a panic) is an `Err`, and the first failing line decides the result.
 */
module Parser {
  import opened Wrappers
  import opened Decimal
  import opened Str
  import opened Syntax

  datatype ParseError =
    | UnknownCommand(line: string)   // no keyword matched
    | MissingOperand(line: string)   // fewer than three space-separated tokens
    | InvalidIndex(line: string)     // third token is not an i64
    | UnknownSegment(line: string)   // second token is not `constant`

  /** The keywords in the order they are tried. */
  const Keywords: seq<string> := ["add", "sub", "eq", "lt", "gt", "and", "or", "neg", "not", "push", "pop"]

  predicate HasKeyword(line: string) {
    exists k :: 0 <= k < |Keywords| && StartsWith(line, Keywords[k])
  }

  /**
   * `parse_push_pop_command`: split on single spaces; the third token must
   * parse as an i64 and the second must be `constant`.
   */
  function ParsePushPopCommand(line: string, action: StackAction): (r: Result<Command, ParseError>)
    ensures r.Ok? <==> var t := Split(line, ' ');
                       |t| >= 3 && ParseI64(t[2]).Some? && t[1] == "constant"
    ensures r.Ok? ==> var t := Split(line, ' ');
                      r.value == Stack(action, Constant, ParseI64(t[2]).value)
    ensures r.Err? ==> r.error.line == line && !r.error.UnknownCommand?
  {
    var split := Split(line, ' ');
    if |split| < 3 then Err(MissingOperand(line))
    else
      match ParseI64(split[2])
      case None => Err(InvalidIndex(line))
      case Some(num) =>
        if split[1] == "constant" then Ok(Stack(action, Constant, num)) else Err(UnknownSegment(line))
  }

  lemma HasKeywordCases(line: string)
    ensures HasKeyword(line) <==>
      StartsWith(line, "add") || StartsWith(line, "sub") || StartsWith(line, "eq") ||
      StartsWith(line, "lt") || StartsWith(line, "gt") || StartsWith(line, "and") ||
      StartsWith(line, "or") || StartsWith(line, "neg") || StartsWith(line, "not") ||
      StartsWith(line, "push") || StartsWith(line, "pop")
  {
    if StartsWith(line, "add") { assert StartsWith(line, Keywords[0]); }
    if StartsWith(line, "sub") { assert StartsWith(line, Keywords[1]); }
    if StartsWith(line, "eq") { assert StartsWith(line, Keywords[2]); }
    if StartsWith(line, "lt") { assert StartsWith(line, Keywords[3]); }
    if StartsWith(line, "gt") { assert StartsWith(line, Keywords[4]); }
    if StartsWith(line, "and") { assert StartsWith(line, Keywords[5]); }
    if StartsWith(line, "or") { assert StartsWith(line, Keywords[6]); }
    if StartsWith(line, "neg") { assert StartsWith(line, Keywords[7]); }
    if StartsWith(line, "not") { assert StartsWith(line, Keywords[8]); }
    if StartsWith(line, "push") { assert StartsWith(line, Keywords[9]); }
    if StartsWith(line, "pop") { assert StartsWith(line, Keywords[10]); }
  }

  /** `parse_command`: the first keyword that prefixes the line decides. */
  function ParseCommand(line: string): (r: Result<Command, ParseError>)
    ensures r.Ok? ==> StartsWith(line, Keyword(r.value))
    ensures r.Ok? && r.value.Stack? ==> r.value.segment == Constant
    ensures r == Err(UnknownCommand(line)) <==> !HasKeyword(line)
    ensures r.Err? ==> r.error.line == line
  {
    HasKeywordCases(line);
    if StartsWith(line, "add") then Ok(Add)
    else if StartsWith(line, "sub") then Ok(Sub)
    else if StartsWith(line, "eq") then Ok(Eq)
    else if StartsWith(line, "lt") then Ok(Lt)
    else if StartsWith(line, "gt") then Ok(Gt)
    else if StartsWith(line, "and") then Ok(And)
    else if StartsWith(line, "or") then Ok(Or)
    else if StartsWith(line, "neg") then Ok(Neg)
    else if StartsWith(line, "not") then Ok(Not)
    else if StartsWith(line, "push") then ParsePushPopCommand(line, Push)
    else if StartsWith(line, "pop") then ParsePushPopCommand(line, Pop)
    else Err(UnknownCommand(line))
  }

  /**
   * The lines that reach classification: each line with its comment
   * stripped, kept when that is not empty (the test comes before the trim).
   */
  function CodeLines(ls: seq<string>): (code: seq<string>)
    ensures |code| <= |ls|
    ensures forall k :: 0 <= k < |code| ==> code[k] != ""
  {
    if ls == [] then []
    else
      var c := StripComment(ls[0]);
      (if c != "" then [c] else []) + CodeLines(ls[1..])
  }

  /**
   * One line that reached classification: trimmed, then classified. It is
   * refused as the empty unknown command exactly when it is all whitespace.
   */
  function ParseLine(l: string): (r: Result<Command, ParseError>)
    ensures r == Err(UnknownCommand("")) <==> AllWhitespace(l)
  {
    ParseCommand(Trim(l))
  }

  /** Each line's own outcome, in order. */
  function ParseEach(ls: seq<string>): (rs: seq<Result<Command, ParseError>>)
    ensures |rs| == |ls| && forall k :: 0 <= k < |ls| ==> rs[k] == ParseLine(ls[k])
  {
    seq(|ls|, k requires 0 <= k < |ls| => ParseLine(ls[k]))
  }

  /**
   * Collecting the outcomes in order: the first failure ends the whole
   * parse (the original panics there), otherwise all the commands.
   */
  function Collect(rs: seq<Result<Command, ParseError>>): (r: Result<seq<Command>, ParseError>)
    ensures r.Ok? ==> |r.value| == |rs| && forall k :: 0 <= k < |rs| ==> rs[k] == Ok(r.value[k])
  {
    if rs == [] then Ok([])
    else
      match rs[0]
      case Err(e) => Err(e)
      case Ok(c) =>
        match Collect(rs[1..])
        case Err(e) => Err(e)
        case Ok(cs) =>
          assert forall k :: 1 <= k < |rs| ==> rs[k] == rs[1..][k - 1];
          Ok([c] + cs)
  }

  /** Position of the first failure, or `|rs|` when there is none. */
  function FirstFailure(rs: seq<Result<Command, ParseError>>): (i: nat)
    ensures i <= |rs|
    ensures forall j :: 0 <= j < i ==> rs[j].Ok?
    ensures i < |rs| ==> rs[i].Err?
  {
    if rs == [] || rs[0].Err? then 0
    else
      var i := FirstFailure(rs[1..]);
      assert forall j :: 1 <= j < i + 1 ==> rs[j] == rs[1..][j - 1];
      1 + i
  }

  /**
   * Collecting stops at the first failure, with that failure's error, and
   * succeeds exactly when nothing failed.
   */
  lemma {:induction false} CollectFirstFailure(rs: seq<Result<Command, ParseError>>)
    ensures Collect(rs).Ok? <==> FirstFailure(rs) == |rs|
    ensures Collect(rs).Err? ==> Collect(rs).error == rs[FirstFailure(rs)].error
  {
    if rs != [] && rs[0].Ok? {
      CollectFirstFailure(rs[1..]);
    }
  }

  /** Some code line is refused on its own. */
  predicate SomeLineFails(ls: seq<string>)
  {
    exists k :: 0 <= k < |ls| && ParseLine(ls[k]).Err?
  }

  /** `parse`: the whole pipeline over the lines of the input. */
  function Parse(input: string): (r: Result<seq<Command>, ParseError>)
    ensures var ls := CodeLines(Lines(input));
      r.Ok? ==> |r.value| == |ls| && forall k :: 0 <= k < |ls| ==> ParseLine(ls[k]) == Ok(r.value[k])
    ensures r.Err? <==> SomeLineFails(CodeLines(Lines(input)))
    ensures var rs := ParseEach(CodeLines(Lines(input)));
      r.Err? ==> r.error == rs[FirstFailure(rs)].error
  {
    var ls := CodeLines(Lines(input));
    CollectLines(ls);
    Collect(ParseEach(ls))
  }

  /** Collecting the outcomes of `ls`: the facts of Parse, for any list of code lines. */
  lemma CollectLines(ls: seq<string>)
    ensures var r := Collect(ParseEach(ls));
      r.Ok? ==> |r.value| == |ls| && forall k :: 0 <= k < |ls| ==> ParseLine(ls[k]) == Ok(r.value[k])
    ensures Collect(ParseEach(ls)).Err? <==> SomeLineFails(ls)
    ensures var rs := ParseEach(ls);
      Collect(rs).Err? ==> Collect(rs).error == rs[FirstFailure(rs)].error
  {
    var rs := ParseEach(ls);
    CollectFirstFailure(rs);
    var i := FirstFailure(rs);
    if i < |rs| {
      assert ParseLine(ls[i]).Err?;
    }
  }
}

/** What the parser promises, stated over the functions above. */
module ParserProperties {
  import opened Wrappers
  import opened Decimal
  import opened Str
  import opened Syntax
  import opened Parser

  /** Commands the parser can produce: every segment but `constant` is refused. */
  predicate Parsable(c: Command) {
    c.Stack? ==> c.segment == Constant
  }

  /**
   * Classification looks at the prefix only: a keyword followed by anything
   * at all is that command (`address` is `add`).
   */
  lemma KeywordPrefixDecides(c: Command, rest: string)
    requires !c.Stack?
    ensures ParseCommand(Keyword(c) + rest) == Ok(c)
  {
    var line := Keyword(c) + rest;
    assert StartsWith(line, Keyword(c));
    assert line[0] == Keyword(c)[0] && line[1] == Keyword(c)[1];
    match c
    case Add =>
    case Sub =>
    case Eq =>
    case Lt =>
    case Gt =>
    case And => assert line[2] == 'd';
    case Or =>
    case Neg =>
    case Not => assert line[2] == 't';
  }

  /** A line whose trim is empty matches no keyword. */
  lemma EmptyLineUnknown()
    ensures ParseCommand("") == Err(UnknownCommand(""))
  {
  }

  /** Text ending in a rendered integer ends in a digit and holds no new character. */
  lemma AppendDigits(p: string, n: int, ch: char)
    requires |p| > 0 && ch != '-' && !IsDigit(ch) && ch !in p
    ensures var t := p + IntToString(n);
      |t| > 0 && t[0] == p[0] && IsDigit(t[|t| - 1]) && ch !in t
  {
    var digits := IntToString(n);
    IntToStringChars(n);
    var t := p + digits;
    assert t[|t| - 1] == digits[|digits| - 1];
    forall i | 0 <= i < |t| ensures t[i] != ch {
      if i >= |p| {
        assert t[i] == digits[i - |p|];
      }
    }
  }

  lemma KeywordShape(c: Command)
    ensures |Keyword(c)| >= 2 && 'a' <= Keyword(c)[0] <= 'z' && 'a' <= Keyword(c)[|Keyword(c)| - 1] <= 'z'
    ensures '\n' !in Keyword(c) && '/' !in Keyword(c)
  {
  }

  /** Lower-case letters and spaces only. */
  predicate Lower(s: string)
  {
    forall i :: 0 <= i < |s| ==> 'a' <= s[i] <= 'z' || s[i] == ' '
  }

  lemma LowerAppend(a: string, b: string)
    requires Lower(a) && Lower(b)
    ensures Lower(a + b)
  {
    forall i | 0 <= i < |a + b| ensures 'a' <= (a + b)[i] <= 'z' || (a + b)[i] == ' ' {
      if i < |a| {
        assert (a + b)[i] == a[i];
      } else {
        assert (a + b)[i] == b[i - |a|];
      }
    }
  }

  lemma SegmentKeywordLower(seg: Segment)
    ensures Lower(SegmentKeyword(seg))
  {
  }

  lemma StackPrefixShape(c: Command)
    requires c.Stack?
    ensures |StackPrefix(c)| > 0 && '\n' !in StackPrefix(c) && '/' !in StackPrefix(c)
  {
    var k := Keyword(c);
    assert Lower(k);
    SegmentKeywordLower(c.segment);
    LowerAppend(k, " ");
    LowerAppend(k + " ", SegmentKeyword(c.segment));
    LowerAppend(k + " " + SegmentKeyword(c.segment), " ");
    var p := StackPrefix(c);
    assert Lower(p);
    assert '\n' !in p && '/' !in p by {
      forall i | 0 <= i < |p| ensures p[i] != '\n' && p[i] != '/' {
        assert 'a' <= p[i] <= 'z' || p[i] == ' ';
      }
    }
  }

  lemma CommandTextShape(c: Command)
    ensures |CommandText(c)| > 0
    ensures !IsWhitespace(CommandText(c)[0]) && !IsWhitespace(CommandText(c)[|CommandText(c)| - 1])
    ensures '\n' !in CommandText(c) && '/' !in CommandText(c)
  {
    KeywordShape(c);
    if c.Stack? {
      StackPrefixShape(c);
      AppendDigits(StackPrefix(c), c.index, '\n');
      AppendDigits(StackPrefix(c), c.index, '/');
    }
  }

  /** The VM text of a stack command splits into its three tokens. */
  lemma SplitStackText(c: Command)
    requires c.Stack?
    ensures Split(CommandText(c), ' ') == [Keyword(c), SegmentKeyword(c.segment), IntToString(c.index)]
  {
    var digits := IntToString(c.index);
    IntToStringChars(c.index);
    assert ' ' !in digits;
    SplitCons(SegmentKeyword(c.segment), ' ', digits);
    assert CommandText(c) == Keyword(c) + [' '] + (SegmentKeyword(c.segment) + [' '] + digits);
    SplitCons(Keyword(c), ' ', SegmentKeyword(c.segment) + [' '] + digits);
  }

  /** A line that differs from a keyword at position `i` does not start with it. */
  lemma Differs(line: string, kw: string, i: nat)
    requires i < |kw| && i < |line| && line[i] != kw[i]
    ensures !StartsWith(line, kw)
  {
  }

  /** No keyword before `push` starts with `p`. */
  lemma NotArithmetic(line: string)
    requires |line| > 0 && line[0] == 'p'
    ensures !StartsWith(line, "add") && !StartsWith(line, "sub") && !StartsWith(line, "eq")
    ensures !StartsWith(line, "lt") && !StartsWith(line, "gt") && !StartsWith(line, "and")
    ensures !StartsWith(line, "or") && !StartsWith(line, "neg") && !StartsWith(line, "not")
  {
    Differs(line, "add", 0);
    Differs(line, "sub", 0);
    Differs(line, "eq", 0);
    Differs(line, "lt", 0);
    Differs(line, "gt", 0);
    Differs(line, "and", 0);
    Differs(line, "or", 0);
    Differs(line, "neg", 0);
    Differs(line, "not", 0);
  }

  /** A line starting with `push` is read as a push, whatever follows. */
  lemma ParseCommandPush(line: string)
    requires StartsWith(line, "push")
    ensures ParseCommand(line) == ParsePushPopCommand(line, Push)
  {
    assert line[0] == "push"[0];
    NotArithmetic(line);
  }

  /** A line starting with `pop` is read as a pop, whatever follows. */
  lemma ParseCommandPop(line: string)
    requires StartsWith(line, "pop")
    ensures ParseCommand(line) == ParsePushPopCommand(line, Pop)
  {
    assert line[0] == "pop"[0] && line[1] == "pop"[1];
    NotArithmetic(line);
    Differs(line, "push", 1);
  }

  /** Only the `constant` segment is spelled `constant`. */
  lemma SegmentKeywordConstant(seg: Segment)
    ensures SegmentKeyword(seg) == "constant" <==> seg == Constant
  {
    match seg
    case Constant =>
    case Local => Differs("local", "constant", 0);
    case Argument => Differs("argument", "constant", 0);
    case This => Differs("this", "constant", 0);
    case That => Differs("that", "constant", 0);
    case Temp => Differs("temp", "constant", 0);
    case Pointer => Differs("pointer", "constant", 0);
    case Static => Differs("static", "constant", 0);
  }

  /** The text of any stack command reaches the segment check with its own index. */
  lemma ParsePushPopText(c: Command)
    requires c.Stack?
    ensures ParsePushPopCommand(CommandText(c), c.action)
         == if c.segment == Constant then Ok(c) else Err(UnknownSegment(CommandText(c)))
  {
    var t := Split(CommandText(c), ' ');
    SplitStackText(c);
    assert |t| == 3 && t[1] == SegmentKeyword(c.segment) && t[2] == IntToString(c.index);
    ParseIntToString(c.index);
    SegmentKeywordConstant(c.segment);
  }

  /**
   * Round trip: the VM text of every command the parser can produce parses
   * back to that command; for a stack command over any other segment the
   * parser reports the segment.
   */
  lemma ParseCommandText(c: Command)
    ensures Parsable(c) ==> ParseCommand(CommandText(c)) == Ok(c)
    ensures !Parsable(c) ==> ParseCommand(CommandText(c)) == Err(UnknownSegment(CommandText(c)))
  {
    if c.Stack? {
      ParsePushPopText(c);
      assert StartsWith(CommandText(c), Keyword(c));
      if c.action == Push {
        ParseCommandPush(CommandText(c));
      } else {
        ParseCommandPop(CommandText(c));
      }
    } else {
      KeywordPrefixDecides(c, "");
      assert Keyword(c) + "" == CommandText(c);
    }
  }

  /** The unit test: `push constant 7` read as a push is `Stack(Push, Constant, 7)`. */
  lemma PushConstantSeven()
    ensures ParsePushPopCommand("push constant 7", Push) == Ok(Stack(Push, Constant, 7))
  {
    var c := Stack(Push, Constant, 7);
    assert IntToString(7) == "7";
    assert CommandText(c) == "push constant 7";
    ParsePushPopText(c);
  }

  /**
   * A line of whitespace only is not empty, so it survives the filter, trims
   * to nothing and fails the whole parse.
   */
  lemma WhitespaceLineFails(l: string)
    requires l != [] && AllWhitespace(l) && '\n' !in l
    ensures Parse(l) == Err(UnknownCommand(""))
  {
    assert Lines(l) == [l];
    assert '/' !in l by {
      forall i | 0 <= i < |l| ensures l[i] != '/' { assert IsWhitespace(l[i]); }
    }
    StripCommentNoSlash(l);
    assert CodeLines([l]) == [l];
    assert Trim(l) == [];
    EmptyLineUnknown();
    CollectFirstFailure(ParseEach([l]));
  }

  /**
   * A whitespace-only line anywhere among the code lines makes the whole
   * parse fail.
   */
  lemma WhitespaceCodeLineFails(input: string, k: nat)
    requires k < |CodeLines(Lines(input))| && AllWhitespace(CodeLines(Lines(input))[k])
    ensures Parse(input).Err?
  {
  }

  /**
   * One line passes the filter as its code part, unless that is empty. With
   * CodeLinesAppend this gives the filter on any list of lines.
   */
  lemma CodeLinesOne(l: string)
    ensures CodeLines([l]) == if StripComment(l) == "" then [] else [StripComment(l)]
  {
  }

  /** Code lines of a concatenation are the code lines of each part, in order. */
  lemma {:induction false} CodeLinesAppend(a: seq<string>, b: seq<string>)
    ensures CodeLines(a + b) == CodeLines(a) + CodeLines(b)
  {
    if a == [] {
      assert a + b == b;
    } else {
      assert (a + b)[1..] == a[1..] + b;
      CodeLinesAppend(a[1..], b);
    }
  }

  /** The lines of a program's VM text are the commands' texts. */
  lemma {:induction false} LinesOfProgramText(cs: seq<Command>)
    ensures Lines(ProgramText(cs)) == seq(|cs|, k requires 0 <= k < |cs| => CommandText(cs[k]))
  {
    if cs != [] {
      CommandTextShape(cs[0]);
      LinesCons(CommandText(cs[0]), ProgramText(cs[1..]));
      LinesOfProgramText(cs[1..]);
    }
  }

  /** Code lines of lines that are neither empty nor commented are those lines. */
  lemma {:induction false} CodeLinesOfTexts(cs: seq<Command>)
    ensures CodeLines(seq(|cs|, k requires 0 <= k < |cs| => CommandText(cs[k])))
         == seq(|cs|, k requires 0 <= k < |cs| => CommandText(cs[k]))
  {
    var ts := seq(|cs|, k requires 0 <= k < |cs| => CommandText(cs[k]));
    if cs != [] {
      CommandTextShape(cs[0]);
      StripCommentNoSlash(ts[0]);
      CodeLinesOfTexts(cs[1..]);
      assert ts[1..] == seq(|cs[1..]|, k requires 0 <= k < |cs[1..]| => CommandText(cs[1..][k]));
    }
  }

  /** Outcomes that all succeeded collect to their commands. */
  lemma {:induction false} CollectAllOk(rs: seq<Result<Command, ParseError>>, cs: seq<Command>)
    requires |rs| == |cs| && forall k :: 0 <= k < |rs| ==> rs[k] == Ok(cs[k])
    ensures Collect(rs) == Ok(cs)
  {
    if rs != [] {
      CollectAllOk(rs[1..], cs[1..]);
      assert cs == [cs[0]] + cs[1..];
    }
  }

  /** One command's text, as a line of a program, parses to that command. */
  lemma ParseLineOfText(c: Command)
    requires Parsable(c)
    ensures ParseLine(CommandText(c)) == Ok(c)
  {
    CommandTextShape(c);
    TrimNoEdges(CommandText(c));
    ParseCommandText(c);
  }

  /**
   * Round trip over whole programs: the VM text of a sequence of parsable
   * commands parses back to that sequence.
   */
  lemma ParseProgramText(cs: seq<Command>)
    requires forall k :: 0 <= k < |cs| ==> Parsable(cs[k])
    ensures Parse(ProgramText(cs)) == Ok(cs)
  {
    var ts := seq(|cs|, k requires 0 <= k < |cs| => CommandText(cs[k]));
    LinesOfProgramText(cs);
    CodeLinesOfTexts(cs);
    var rs := ParseEach(ts);
    forall k | 0 <= k < |cs| ensures rs[k] == Ok(cs[k]) {
      ParseLineOfText(cs[k]);
    }
    CollectAllOk(rs, cs);
  }
}
