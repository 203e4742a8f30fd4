# hack-vm in Dafny

A model of the core of `hack-vm`, a translator from the stack-based VM
language of the Nand2Tetris course to Hack assembly. It has two parts:

- **The parser** (`parser.dfy`, module `Parser`). It turns VM text into
  commands. It splits the text into lines as Rust's `str::lines` does. It
  cuts each line at its first `//` and drops the lines that are then empty.
  It trims the rest and classifies each line by its leading keyword. A
  `push`/`pop` line is split on single spaces: its third token must parse as
  an `i64`, and its second token must be `constant`. Every place where the
  original panics becomes an `Err`. The first failing line decides the result.
- **The code writer** (`code_writer.dfy`, module `CodeWriter`). This is a
  `class CodeWriter` whose `code: seq<string>` field is the list of assembly
  lines. Its methods append lines one at a time, as the original's do. Each
  method is proved to append exactly the block that a specification
  function gives for it. A comparison block holds two jump targets. Each is
  an absolute line number, computed from the length of the list at the time
  of emission.

Supporting modules:

- `Decimal`: Rust's `to_string` on integers, and `str::parse::<i64>`.
- `Str`: `lines`, `split`, `trim` (Unicode White_Space), `starts_with`,
  and cutting at `//`.
- `Syntax`: the command datatypes and the canonical VM text of a command.
- `ParserProperties` and `CodeWriterProperties`: theorems about the model.
- `Hack` (`hack.dfy`): the machine the emitted code is written for, the
  Hack computer of "The Elements of Computing Systems". An assembly line
  decodes into an A-instruction (`@value`) or a C-instruction
  (`dest=comp;jump`). `Exec` is one clock cycle on 16-bit words, and `Run` is
  `n` cycles. `Assembles(lines, prog)` says that every line decodes to the
  instruction at the same position. The assembler and the CPU are not part
  of `hack-vm`; they give the emitted lines a meaning.
- `StackEffects` (`stack_effects.dfy`): what each block of the code writer
  does on that machine, wherever the block sits in an assembled program.
  The stack pointer lives at RAM address 0, as `SP` is there. Each block
  is split into short runs of instructions, such as "address the top of the
  stack" and "move SP up". Each run's effect is proved once. The effect of a
  block on the registers and the RAM then follows for every command kind.

The main results are these:

- The VM text of any program of parsable commands parses back to that
  program (`ParserProperties.ParseProgramText`).
- `write_code` appends the blocks in order. Each block has a fixed size, so
  its table of sizes gives the length of the output.
- The comparison jumps land on the first line of the "true" branch and just
  past the end of the block.
- No emitted line holds a line break. So the `Display` text of a writer
  splits back into its lines.
- Once assembled, each block does what the VM command means, with three
  exceptions modelled as written and listed under "## Left out": `static`
  addresses go through RAM[16], `pop constant i` writes RAM[i], and `lt`
  and `gt` answer wrongly when the signed difference overflows. A binary
  command replaces the two top words by their 16-bit sum, difference,
  bitwise and, or bitwise or, and moves SP down by one. `neg` and `not`
  replace the top word. A push stores the segment's word at SP and moves SP
  up. A pop moves SP down and stores the top word at the segment's address.
  A comparison replaces the two top words by `-1` or `0` and then falls
  through to the next block.

## Model

| member | source | states |
|---|---|---|
| CodeWriter.CodeWriter.constructor | src/code_writer/mod.rs:11-13 | a new writer holds no lines |
| CodeWriter.CodeWriter.WriteCode | src/code_writer/mod.rs:15-30 | the new list is the old one followed by the block of every command in input order, each block placed at the length the list has when it is written |
| CodeWriter.CodeWriter.WritePushPop | src/code_writer/mod.rs:32-37 | a push appends the push block of the segment and index, and a pop appends the pop block |
| CodeWriter.CodeWriter.WriteBinaryOperation | src/code_writer/mod.rs:39-50 | appends the ten lines that pop into D, pop the address of the second operand into A, store `M op D` there and move SP up |
| CodeWriter.CodeWriter.WritePrefixOperation | src/code_writer/mod.rs:52-59 | appends the six lines that apply the operator to the top of the stack in place |
| CodeWriter.CodeWriter.WriteCompare | src/code_writer/mod.rs:61-89 | appends the comparison block for the current length of the list; its two `@` targets are the list length at those lines plus 9 and plus 7 |
| CodeWriter.CodeWriter.WritePushSegment | src/code_writer/mod.rs:91-110 | appends the push block: the `@` line of the segment symbol, then `D=A` for constant, `D=M` for temp and pointer, otherwise `A=M`, `index` times `A=A+1`, `D=M`; then the five lines that store D at SP and move SP up |
| CodeWriter.CodeWriter.WritePopSegment | src/code_writer/mod.rs:112-129 | appends the pop block: move SP down and load the top into D, the `@` line of the segment symbol, `A=M` and `index` times `A=A+1` unless the segment is temp, pointer or constant, then `M=D` |
| CodeWriter.GetSymbol | src/code_writer/mod.rs:131-142 | the symbol is never empty, and it is a number (a digit or a `-` first) exactly for constant, temp, pointer and static; local, argument, this and that get `LCL`, `ARG`, `THIS` and `THAT`; `StackEffects.DecodeSymbolLine` gives the address each symbol loads |
| CodeWriter.BinaryBlock | src/code_writer/mod.rs:39-50 | the block of a binary operation has ten lines and ends by moving SP up (`@SP`, `M=M+1`); `StackEffects.BinaryEffect` gives what it does |
| CodeWriter.PrefixBlock | src/code_writer/mod.rs:52-59 | the block of a prefix operation has six lines and ends by moving SP up; `StackEffects.UnaryEffect` gives what it does |
| CodeWriter.CompareBlock | src/code_writer/mod.rs:61-89 | the block of a comparison has 22 lines wherever it starts; `CompareJumpTargets` and `StackEffects.CompareEffect` give its targets and what it does |
| CodeWriter.PushBlock | src/code_writer/mod.rs:91-110 | the block of a push has 7 lines for constant, temp and pointer, and otherwise 8 plus max(index, 0); `StackEffects.PushEffect` gives what it does |
| CodeWriter.PopBlock | src/code_writer/mod.rs:112-129 | the block of a pop has 6 lines for constant, temp and pointer, and otherwise 7 plus max(index, 0); `StackEffects.PopEffect` gives what it does |
| CodeWriter.CommandBlock | src/code_writer/mod.rs:17-28 | every command's block, chosen as `write_code`'s match chooses it, has at least six lines |
| CodeWriter.Emit | src/code_writer/mod.rs:15-30 | no commands emit no lines, and the output for a non-empty list starts with the block of its first command at the starting length; `EmitSize` and `EmitAppend` give the rest |
| CodeWriter.Render | src/code_writer/mod.rs:188 | the fold's text has at least one character per line; `RenderOne`, `RenderAppend` and `LinesOfRender` give it exactly |
| CodeWriter.CodeWriter.Display | src/code_writer/mod.rs:183-191 | the writer's text has at least one character per line; `WriterDisplay` shows that it splits back into the lines |
| CodeWriter.CodeWriter.IncA | src/code_writer/mod.rs:144-148 | appends one `A=A+1` per step of `0..index`, so none for an index of zero or below |
| CodeWriter.IncALines | src/code_writer/mod.rs:144-148 | the lines of `inc_a` number `max(index, 0)` and are all `A=A+1` |
| CodeWriter.CodeWriter.SetA | src/code_writer/mod.rs:150-152 | appends `@` followed by the symbol |
| CodeWriter.CodeWriter.SetDFromA | src/code_writer/mod.rs:154-156 | appends `D=A` |
| CodeWriter.CodeWriter.SetAFromM | src/code_writer/mod.rs:158-160 | appends `A=M` |
| CodeWriter.CodeWriter.SetMFromD | src/code_writer/mod.rs:162-164 | appends `M=D` |
| CodeWriter.CodeWriter.SetDFromM | src/code_writer/mod.rs:166-168 | appends `D=M` |
| CodeWriter.CodeWriter.IncM | src/code_writer/mod.rs:170-172 | appends `M=M+1` |
| CodeWriter.CodeWriter.DecM | src/code_writer/mod.rs:174-176 | appends `M=M-1` |
| CodeWriter.CodeWriter.AppendLines | src/code_writer/mod.rs:178-180 | the line goes at the end and nothing else changes |
| CodeWriter.CompareJumpTargets | src/code_writer/mod.rs:71-88 | a comparison block has 22 lines; its line 8 loads the position of its line 17, where the branch that pushes true starts, and its line 15 loads the position just past its end |
| CodeWriter.CompareTargetsInCode | src/code_writer/mod.rs:71-88 | the same targets as positions in the whole list: line `L` loads `L + 9`, which holds the first `@SP` of the true branch, and line `L + 7` loads `L + 14`, the length of the list once the block is done |
| CodeWriterProperties.CommandBlockSize | src/code_writer/mod.rs:39-129 | block sizes: 7 lines for a push of constant, temp or pointer, otherwise 8 plus max(index, 0); a pop is one line shorter; 10 for a binary operation, 6 for a prefix operation, 22 for a comparison |
| CodeWriterProperties.EmitSize | src/code_writer/mod.rs:15-30 | `write_code` emits exactly the sum of the block sizes of its commands |
| CodeWriterProperties.EmitAppend | src/code_writer/mod.rs:15-30 | writing `xs` and then `ys` emits what writing `xs + ys` emits |
| CodeWriterProperties.AtClean | src/code_writer/mod.rs:150-152 | the `@` line of a rendered integer holds no line break |
| CodeWriterProperties.GetSymbolClean | src/code_writer/mod.rs:131-142 | the `@` line of every segment symbol holds no line break |
| CodeWriterProperties.BinaryBlockClean | src/code_writer/mod.rs:39-50 | no line of a binary block holds a line break |
| CodeWriterProperties.PrefixBlockClean | src/code_writer/mod.rs:52-59 | no line of a prefix block holds a line break |
| CodeWriterProperties.CompareBlockClean | src/code_writer/mod.rs:61-89 | no line of a comparison block holds a line break, wherever the block is placed |
| CodeWriterProperties.IncALinesClean | src/code_writer/mod.rs:144-148 | no line of `inc_a` holds a line break |
| CodeWriterProperties.PushBlockClean | src/code_writer/mod.rs:91-110 | no line of a push block holds a line break |
| CodeWriterProperties.PopBlockClean | src/code_writer/mod.rs:112-129 | no line of a pop block holds a line break |
| CodeWriterProperties.EmitClean | src/code_writer/mod.rs:15-30 | no line that `write_code` emits holds a line break |
| CodeWriterProperties.RenderOne | src/code_writer/mod.rs:183-191 | the text of one line is that line and a newline |
| CodeWriterProperties.RenderAppend | src/code_writer/mod.rs:183-191 | the text of two lists one after the other is the two texts one after the other |
| CodeWriterProperties.RenderLength | src/code_writer/mod.rs:183-191 | the text's length is the lines' lengths plus one newline each |
| CodeWriterProperties.LinesOfRender | src/code_writer/mod.rs:183-191 | splitting the text of lines free of line breaks gives the lines back |
| CodeWriterProperties.WriterDisplay | src/code_writer/mod.rs:183-191 | the `Display` text of a writer whose lines hold no line break splits back into those lines |
| CodeWriterProperties.DisplayOfProgram | src/code_writer/mod.rs:11-30 | the text a fresh writer shows after writing `cs` splits back into the emitted lines, which number the sum of the block sizes |
| StackEffects.TopRun | src/code_writer/mod.rs:40-47 | `@SP`, `M=M-1`, `A=M` and a computation move SP down by one, address the new top, and store the computed word in the top word, in D, or in both |
| StackEffects.BumpRun | src/code_writer/mod.rs:48-49 | `@SP`, `M=M+1` add one to the stack pointer, wrapping at 16 bits, and leave D and the rest of the RAM unchanged |
| StackEffects.PopToD | src/code_writer/mod.rs:40-43 | the first four lines of a binary block move SP down and load the old top word into D |
| StackEffects.BinaryInstrs | src/code_writer/mod.rs:39-50 | the ten lines of a binary block assemble into: pop into D, pop, compute `M op D` into the new top, move SP up |
| StackEffects.OperateBelow | src/code_writer/mod.rs:44-47 | the second four lines replace the word below the old top with the operation's result on it and D |
| StackEffects.BinaryRun | src/code_writer/mod.rs:39-50 | from those instructions, ten cycles on a stack of at least two words: D holds the top word `y`, the word `x` below it becomes `x op y`, and SP is one lower |
| StackEffects.BinaryEffect | src/code_writer/mod.rs:39-50 | `add`, `sub`, `and` and `or`, as emitted at any position of an assembled program, do exactly that in ten cycles and continue with the next line |
| StackEffects.UnaryInstrs | src/code_writer/mod.rs:52-59 | the six lines of a prefix block assemble into: address the top, compute `-M` or `!M` into it, move SP up |
| StackEffects.UnaryTop | src/code_writer/mod.rs:53-56 | the first four lines replace the top word by its negation or complement, with SP one lower |
| StackEffects.UnaryRun | src/code_writer/mod.rs:52-59 | from those instructions, six cycles replace the top word in place, and SP and D end where they were |
| StackEffects.UnaryEffect | src/code_writer/mod.rs:52-59 | `neg` and `not`, as emitted at any position, replace the top word by its 16-bit negation or complement in six cycles and leave the rest of the RAM unchanged |
| StackEffects.DecodeSymbolLine | src/code_writer/mod.rs:131-142 | the `@` line of a segment's symbol loads the index for constant, 1 to 4 for local, argument, this and that, `5 + index` for temp, `3 + index` for pointer, and 16 for static |
| StackEffects.IncsRun | src/code_writer/mod.rs:144-148 | `n` lines of `A=A+1` add `n` to A, wrapping at 16 bits |
| StackEffects.PointerRun | src/code_writer/mod.rs:99-100 | `A=M` and `index` lines of `A=A+1` put the base pointer plus the offset in A |
| StackEffects.FetchRun | src/code_writer/mod.rs:95-103 | after the `@` line, the fetch part of a push leaves in D the loaded number for constant, the word at it for temp and pointer, and the word at the base pointer plus the offset otherwise |
| StackEffects.PushCompRun | src/code_writer/mod.rs:105-109 | `@SP`, `A=M`, `M=D` (or `M=0`, `M=-1`), `@SP`, `M=M+1` store the word at SP and move SP up by one |
| StackEffects.PushInstrs | src/code_writer/mod.rs:91-110 | the push block assembles into the `@` line of the segment's symbol, its fetch into D, and the push of D |
| StackEffects.PushRun | src/code_writer/mod.rs:91-110 | from those instructions, the fetched word lands at the old SP, SP moves up by one, and D holds the word |
| StackEffects.PushEffect | src/code_writer/mod.rs:91-110 | `push seg index`, as emitted at any position, pushes the index itself for constant and the segment's word otherwise, in as many cycles as the block has lines |
| StackEffects.BasedAddress | src/code_writer/mod.rs:131-142 | the segments reached through a base pointer load an address from 1 to 16, never the stack pointer's own address |
| StackEffects.ReachAfterPop | src/code_writer/mod.rs:115-127 | moving SP at the start of a pop does not change the address a pop through a base pointer reaches |
| StackEffects.AddressRun | src/code_writer/mod.rs:120-127 | after the `@` line, the address part of a pop leaves the target address in A: the loaded number for constant, temp and pointer, the base pointer plus the offset otherwise |
| StackEffects.PopInstrs | src/code_writer/mod.rs:112-129 | the pop block assembles into: pop into D, the `@` line of the segment's symbol, the address part, `M=D` |
| StackEffects.PopRun | src/code_writer/mod.rs:112-129 | from those instructions, SP moves down by one and the old top word is stored at the target address; D holds that word |
| StackEffects.PopEffect | src/code_writer/mod.rs:112-129 | `pop seg index`, as emitted at any position, stores the top word at the segment's address (at the index itself for constant) and moves SP down |
| StackEffects.CompareInstrs | src/code_writer/mod.rs:61-89 | the 22 lines of a comparison block at position `p` assemble into: the two pops leaving `x - y` in D, `@(p + 17)` and the conditional jump, the push of 0, `@(p + 22)` and `0;JMP`, and the push of -1 |
| StackEffects.CompareTopRun | src/code_writer/mod.rs:62-69 | the first eight lines leave `x - y`, wrapped at 16 bits, in D, with SP two lower |
| StackEffects.JumpRun | src/code_writer/mod.rs:71-72 | an `@target` line and a jumping computation continue at the target exactly when the jump condition holds of the computed word |
| StackEffects.CompareTrueRun | src/code_writer/mod.rs:71-72 | when the condition holds of D, the branch jumps to line 17 of the block and pushes -1, ending at the block's end |
| StackEffects.CompareFalseRun | src/code_writer/mod.rs:73-81 | when it does not hold, the block pushes 0 and jumps to the line just past its end |
| StackEffects.CompareRun | src/code_writer/mod.rs:61-89 | from those instructions, the two top words are replaced by -1 when the jump condition holds of their wrapped difference and by 0 otherwise; SP is one lower and control reaches the end of the block, in 15 or 17 cycles |
| StackEffects.CompareEffect | src/code_writer/mod.rs:61-89 | `eq`, `lt` and `gt`, as emitted at any position below the 15-bit limit, do exactly that with `JEQ`, `JLT` and `JGT` |
| StackEffects.CompareMeaning | src/code_writer/mod.rs:69-72 | the block's jump on `x - y` decides `x == y` always, and `x < y` or `x > y` on signed 16-bit words when their signed difference fits in 16 bits |
| StackEffects.CompareMeaningConverse | src/code_writer/mod.rs:69-72 | when the signed difference does not fit in 16 bits, `lt` and `gt` always give the wrong answer; with `CompareMeaning` the answer is right exactly when the difference fits |
| StackEffects.CompareOverflow | src/code_writer/mod.rs:69-72 | without that bound the answer can be wrong: `lt` on 32767 and -1 jumps as if 32767 were less |
| Decimal.IntToString | src/code_writer/mod.rs:133-140 | `to_string` gives at least one character, the first a digit or a `-`, and a `-` exactly for a negative value; `IntToStringChars` adds that there is no leading zero |
| Decimal.ParseI64 | src/parser/mod.rs:66 | parsing succeeds exactly when the token is an optional sign and one or more ASCII digits whose value fits in an `i64`, and the result is that value |
| Decimal.ParseIntToString | src/parser/mod.rs:66 | every `i64` parses back from its `to_string` text |
| Decimal.IntToStringInjective | src/code_writer/mod.rs:133-140 | different `i64` values render as different texts |
| Decimal.IntToStringChars | src/code_writer/mod.rs:133-140 | the text of an integer is digits, with a leading `-` only for a negative value, and without a leading zero (the text of 0 is `0`) |
| Str.Lines | src/parser/mod.rs:39 | no line holds a `\n` |
| Str.LinesCons | src/parser/mod.rs:39 | a line without `\n` and without a final `\r`, then `\n`, comes back as the first line |
| Str.LinesCRLF | src/parser/mod.rs:39 | a line without `\n` ended by `\r\n` comes back as the first line, without the `\r` |
| Str.LinesLast | src/parser/mod.rs:39 | a non-empty last line without a terminator is kept whole, even when it ends in `\r` |
| Str.Split | src/parser/mod.rs:65 | there is at least one piece, and no piece holds the separator |
| Str.JoinSplit | src/parser/mod.rs:65 | joining the pieces with the separator gives the input back |
| Str.SplitCons | src/parser/mod.rs:65 | a separator-free piece followed by the separator splits off as the first piece |
| Str.SplitNone | src/parser/mod.rs:65 | a string without the separator is one piece |
| Str.StartsWith | src/parser/mod.rs:49-59 | `str::starts_with`, the keyword test of each branch: the prefix relation on strings |
| Str.StartsWithChars | src/parser/mod.rs:49-59 | `StartsWith(s, p)` holds exactly when `p` is no longer than `s` and `s` has `p`'s characters at its first positions |
| Str.CommentStart | src/parser/mod.rs:40 | the position of the first `//`, or the length of the line when there is none |
| Str.StripComment | src/parser/mod.rs:40 | the result is a prefix of the line, no `//` of the line starts inside it (not even one that it would cut in half), and when it is shorter than the line a `//` starts right after it |
| Str.StripCommentUnique | src/parser/mod.rs:40 | those three facts determine the result: any prefix that has them is the result |
| Str.StripCommentDiscardsComment | src/parser/mod.rs:40 | code without `//` that does not end in `/` loses everything from the `//` that follows it |
| Str.StripCommentNoSlash | src/parser/mod.rs:40 | a line without `/` is kept whole |
| Str.IsWhitespace | src/parser/mod.rs:42 | `char::is_whitespace`, the test `trim` strips by, written as the ranges of Unicode's White_Space property |
| Str.IsWhitespaceTable | src/parser/mod.rs:42 | `IsWhitespace` holds exactly for the 25 White_Space code points listed one by one in `WhiteSpace` |
| Str.LeadingSpace | src/parser/mod.rs:42 | the number of whitespace characters at the start, which is followed by a non-whitespace character or the end |
| Str.TrailingSpace | src/parser/mod.rs:42 | the number of whitespace characters at the end, preceded by a non-whitespace character or the start |
| Str.Trim | src/parser/mod.rs:42 | the result is a slice of the input with only whitespace around it, no whitespace at either of its ends, and empty exactly when the input is all whitespace |
| Str.TrimNoEdges | src/parser/mod.rs:42 | a line without whitespace at either end is its own trim |
| Parser.ParsePushPopCommand | src/parser/mod.rs:64-75 | succeeds exactly when there are at least three space-separated tokens, the third parses as an `i64` and the second is `constant`, and then gives that constant with the given action; every failure names the line |
| Parser.HasKeywordCases | src/parser/mod.rs:48-60 | a line has a keyword exactly when it starts with one of the eleven keywords |
| Parser.ParseCommand | src/parser/mod.rs:47-62 | a success starts with its command's keyword and pushes or pops only `constant`; the error is `UnknownCommand` exactly when no keyword starts the line |
| Parser.CodeLines | src/parser/mod.rs:38-41 | at most as many lines as the input, none of them empty |
| Parser.ParseLine | src/parser/mod.rs:42-43 | the line is trimmed and classified; it is refused as the unknown command `""` exactly when it is all whitespace |
| Parser.ParseEach | src/parser/mod.rs:42-43 | one outcome per code line, each that line trimmed and classified |
| Parser.Collect | src/parser/mod.rs:44 | a success holds one command per outcome, each the value of that outcome |
| Parser.FirstFailure | src/parser/mod.rs:44 | every outcome before it succeeded, and the one at it failed |
| Parser.CollectFirstFailure | src/parser/mod.rs:43-44 | collecting succeeds exactly when no outcome failed, and otherwise reports the first failure's error |
| Parser.CollectLines | src/parser/mod.rs:42-44 | the outcome of classifying and collecting any list of code lines: success holds one command per line, each that line's result; failure exactly when some line fails, with the first failing line's error |
| Parser.Parse | src/parser/mod.rs:37-45 | a success holds one command per code line, each the result of classifying that line; the parse fails exactly when some code line fails, and then with the error of the first one |
| ParserProperties.KeywordPrefixDecides | src/parser/mod.rs:48-57 | a keyword of an arithmetic or logic command followed by anything at all is that command |
| ParserProperties.EmptyLineUnknown | src/parser/mod.rs:60 | the empty line matches no keyword |
| ParserProperties.ParseCommandPush | src/parser/mod.rs:58 | a line starting with `push` goes to the push/pop parser as a push |
| ParserProperties.ParseCommandPop | src/parser/mod.rs:59 | a line starting with `pop` goes to the push/pop parser as a pop |
| ParserProperties.SplitStackText | src/parser/mod.rs:65-66 | the text of a stack command splits into its keyword, its segment and its index |
| ParserProperties.SegmentKeywordConstant | src/parser/mod.rs:68-73 | only the constant segment passes the segment check |
| ParserProperties.ParsePushPopText | src/parser/mod.rs:64-75 | the text of a stack command parses to itself when its segment is constant, and fails with `UnknownSegment` otherwise |
| ParserProperties.ParseCommandText | src/parser/mod.rs:47-75 | every parsable command's text parses back to it; a stack command over any other segment is refused by its segment |
| ParserProperties.PushConstantSeven | src/parser/mod.rs:80-85 | `push constant 7` read as a push is a push of constant 7 |
| ParserProperties.WhitespaceLineFails | src/parser/mod.rs:37-45 | a line of whitespace only survives the empty-line filter, trims to nothing and fails the whole parse as an unknown command |
| ParserProperties.WhitespaceCodeLineFails | src/parser/mod.rs:40-44 | a whitespace-only line anywhere among the code lines of any input makes the whole parse fail |
| ParserProperties.CodeLinesOne | src/parser/mod.rs:40-41 | one line passes the filter as its part before `//`, unless that part is empty; with `CodeLinesAppend` this fixes the filter on every list |
| ParserProperties.CodeLinesAppend | src/parser/mod.rs:38-41 | the code lines of two line lists one after the other are the two code-line lists one after the other |
| ParserProperties.LinesOfProgramText | src/parser/mod.rs:39 | the lines of a program's text are its commands' texts |
| ParserProperties.CodeLinesOfTexts | src/parser/mod.rs:40-41 | command texts have no comment and are not empty, so they all reach classification unchanged |
| ParserProperties.CollectAllOk | src/parser/mod.rs:44 | outcomes that all succeeded collect to their commands |
| ParserProperties.ParseLineOfText | src/parser/mod.rs:42-43 | a parsable command's text, as a code line, trims to itself and parses to the command |
| ParserProperties.ParseProgramText | src/parser/mod.rs:37-45 | the text of any program of parsable commands parses back to that program |

## Left out

- Reading the input file and writing the output (`src/main.rs`) is not part
  of this model. `parse` is modelled on an in-memory string, and the writer's
  text is a function.
- `src/generator/mod.rs` is not part of this model.
- The commented-out commands (labels, `goto`, `if-goto`, `function`, `call`,
  `return`) are not part of this model. The original has no code for them.
- Segments: the parser's `Segment` enum declares only five segments, and the
  code writer matches on the three more it handles (`temp`, `pointer`,
  `static`). The model's `Segment` has all eight. The parser still produces
  only `constant`.
- The second assertion of the parser test asks that `push constant 8`, read
  as a pop, give `Stack(Push, Constant, 7)`. The code cannot satisfy it, and
  it is not a `#[test]`, so it is not modelled. Only the first assertion is
  (`PushConstantSeven`).
- Panics are modelled as `Err` values with a kind: `MissingOperand` when
  there are fewer than three tokens, `InvalidIndex` when the `i64` parse
  fails, `UnknownSegment` when the segment is not `constant`, and
  `UnknownCommand` for `unreachable!()`.
- CodeWriter.GetSymbol: `5 + index` and `3 + index` overflow an `i64` in
  the original only for indices at the top of the range; the model adds
  without overflow.
- The code writer does not check the `@` lines against Hack's 15-bit limit
  on constants and addresses; the model's writer does not either. A large
  index or a long program emits numbers no assembler accepts. The model's
  `Hack.Decode` refuses them, so the effects of pushes and pops are stated
  for `Loadable` segments and indices, and those of comparisons for blocks
  that end at or below line 32767.
- Hack assembly is modelled only as far as the emitted lines need it. The
  predefined symbols are `SP`, `LCL`, `ARG`, `THIS` and `THAT`. `R0`-`R15`,
  `SCREEN`, `KBD`, labels and variables are not modelled. `Hack.Decode`
  reads `x+y`, `x&y` and `x|y` in either operand order. The book's table
  lists only one order, such as `D+M`, while the writer emits `M+D`.
- The comparison jump targets are absolute line numbers. So
  `StackEffects.CompareEffect` places the block at the program counter equal
  to its position in the list, as when the program is loaded at address 0.
- The RAM is a map in which an address never written holds 0. The effects
  are stated for a stack pointer of at least 1 (push), 2 (pop, `neg`,
  `not`) or 3 (binary and comparison), and below 65535 for a push. Below
  that the emitted code wraps SP around address 0.
- StackEffects.CompareMeaning: `lt` and `gt` jump on the sign of the
  wrapped difference `x - y`, as the emitted code does. So the result is
  the signed comparison exactly when that difference does not overflow
  (`CompareMeaningConverse` proves it is wrong whenever it does, and
  `CompareOverflow` gives such an input). This is the usual Hack
  idiom and is modelled as written.
- Some behaviour of the original is modelled as written, even where it
  looks unintended:
  - `static` always loads the base address from `@16`. So `static i`
    reaches the word at the address stored in RAM[16] plus `i`.
  - `pop constant i` stores to RAM address `i`.
  - `inc_a` does nothing for a negative index.
- Str.Trim: `char::is_whitespace` is modelled as the fixed list of Unicode
  White_Space code points.
- Str.Lines: a `\r` is dropped only before a `\n`, so a final line ending
  in a bare `\r` keeps it.
- The `Display` text is the function `CodeWriter.Display` over the lines.
  The `Formatter` plumbing is not modelled.
