# nalgae core, modelled in Dafny

nalgae is a small pipeline language for string processing that is compiled to Java. A
program is a list of `def name(param) = pipeline` definitions followed by one top-level
pipeline such as `it | trim | append "!"`. The terms of a pipeline are separated by `|`:
identifiers, calls (an identifier followed by arguments on the same line), string
literals, and `{ ... ; ... }` groups. The group's members are joined with LF.

This project models the compiler front to back, together with the runtime library the
generated code calls:

- **Lexer** (`lexer_spec.dfy`, `lexer.dfy`). `LexerSpec` is the scanner written as
  functions of the source text and a cursor. `Lexer.Lexer` is the class with its
  `position` and `line` fields. Every method is proved to do what the matching function
  says. Lemmas about the functions give the shape of a successful token list:
  - exactly one EOF token, at the end;
  - well-formed lexemes and lines that never decrease;
  - the error cases;
  - the quote that a lone `""` inside a `"""` literal loses.
- **Parser** (`parser_spec.dfy`, `parser.dfy`, `parser_props.dfy`).
  - `ParserSpec` is the recursive-descent parser as functions of the token list and the
    cursor. `Parser.Parser` is the class whose only state is `current`.
  - The parse result is `Done`, `Failed`, `OutOfRange` or `Diverges`:
    - `OutOfRange` stands for the index fault in `previous()` on an input with no tokens
      before EOF.
    - `Diverges` stands for a parse that does not terminate normally: once an iteration
      of the group loop does not move the cursor, it repeats, adding the same member to
      its list each time, until memory runs out.
  - `ParserProps` proves when divergence can happen: only when the token before EOF is an
    identifier or a literal. It also proves the layout rule for call arguments.
- **Code builder** (`code_builder.dfy`). `CodeBuilder.CodeBuilder` is the class with its
  `statements` and `tempCounter` fields. It is proved against the value `BuilderState`.
  Lemmas state that temporaries are fresh and never reused, and that the rendered body
  splits back into its indented statements.
- **Builtin catalogue** (`builtin_registry.dfy`). The `BUILTINS` table is a constant map,
  with `Find` and the exact contents of the table.
- **Lowering** (`lowering.dfy`, `lowering_props.dfy`, `program_compiler.dfy`).
  - `Lowering` describes the code generator as functions from an AST node, a scope and a
    builder state to the variable holding the node's value and the new state (or the
    compiler's error, with its message and line).
  - `ProgramCompiler.ProgramCompiler` has the compiler's recursive methods. They add
    statements to a `CodeBuilder` object, and each is proved to agree with its lowering
    function.
  - `LoweringProps` states name resolution and its precedence, the arity rules in both
    contexts, the pipeline reset by a literal, forking inside groups, and the exact
    statements of small examples.
  - `BuildSource` assembles the generated methods, one per definition and then `run`.
    `SourceBodySucceeds` characterises when that succeeds.
- **Runtime library** (`builtins.dfy`). Every `Builtins` operation is a function with an
  `Outcome` (the value, or the ASCII rejection). `trimIndent`, `indent` and `ensureAscii`
  are loops, modelled as methods proved against their functions. The lemmas cover:
  - idempotence of `upper`, `lower`, `trim` and `trimIndent`;
  - the line structure of `indent`;
  - the properties of `replace`;
  - the round trip of `wrap`.

Four behaviours of the code that the model keeps as written:

- **Value-context literals.** A string literal in value context is declared as a quoted
  Java literal without going through `Builtins.constValue`
  (`ProgramCompiler.java:143-145`), so it is not ASCII-checked at run time. A literal in
  pipeline context is wrapped in `constValue`. See `LoweringProps.ValueLiteralDenotesItself`
  and `LoweringProps.LiteralResetsPipeline`.
- **Identifiers.** They are not limited to `[A-Za-z_][A-Za-z0-9_]*`: they use Java's
  `Character.isLetter`/`isDigit`. The model keeps the ASCII part of those classes (see
  "Left out").
- **Optional separator.** A missing `;` between group members is accepted: the member
  loop only stops at `}` (`ParserProps.GroupMemberSeparators`,
  `ParserProps.SemicolonOptional`).
- **Non-termination.** An unterminated group after an identifier or a literal does not
  fail with a parse error; the group loop spins until memory runs out.

Errors are modelled as `Diagnostic(line, message)`, where the message is the text after
the `[line N] ` prefix that the Java code adds. Parser messages carry the
`Error at 'lexeme': ` or `Error at end: ` part, as `ParserSpec.ErrorAt` renders it.

## Model

| member | source | states |
|---|---|---|
| Text.Split | src/main/java/nalgae/runtime/Builtins.java:47 | `split("\\n", -1)`: one piece per LF plus one, no piece contains LF, allowed input gives allowed pieces, and joining the pieces with LF gives the input back |
| Text.SplitJoin | src/main/java/nalgae/runtime/Builtins.java:47 | splitting the LF-join of LF-free lines gives exactly those lines (the other half of the round trip) |
| Text.JoinCountsLines | src/main/java/nalgae/runtime/Builtins.java:91-99 | joining n lines with LF writes n-1 LFs |
| LexerSpec.SkipBlanks | src/main/java/nalgae/parser/Lexer.java:59-71 | skips exactly the maximal run of space/TAB/CR/LF and adds one line per LF skipped |
| LexerSpec.CommentEnd | src/main/java/nalgae/parser/Lexer.java:73-77 | a comment runs to the first LF, or to the end, and the LF is not consumed |
| LexerSpec.IdentifierEnd | src/main/java/nalgae/parser/Lexer.java:117-122 | the identifier is the maximal run of identifier characters |
| LexerSpec.QuotedEnd | src/main/java/nalgae/parser/Lexer.java:79-95 | a quoted literal ends at its own quote, with every character before it allowed, LF-free and not the quote; errors carry the current line |
| LexerSpec.TripleBodyResult | src/main/java/nalgae/parser/Lexer.java:97-115 | a multi-line literal ends just after a `"""`, counts every LF it reads, and keeps what was read so far as a prefix of its text, which stays allowed |
| LexerSpec.QuotedToken | src/main/java/nalgae/parser/Lexer.java:79-95 | a quoted literal gives one STRING token whose lexeme is the source between the quotes, all allowed, on the opening line |
| LexerSpec.ScanToken | src/main/java/nalgae/parser/Lexer.java:22-53 | one step of `tokenize` moves forward, emits at most one non-EOF well-shaped token on the starting line, and an IDENTIFIER/DEF lexeme is the exact source slice |
| LexerSpec.LexFromShape | src/main/java/nalgae/parser/Lexer.java:15-57 | the tokenizer loop keeps the tokens already emitted, ends with a single EOF, and keeps lexemes well-shaped and lines non-decreasing |
| LexerSpec.LexFromLinesFrom | src/main/java/nalgae/parser/Lexer.java:15-57 | no token's line is below 1 |
| LexerSpec.TokenizeShape | src/main/java/nalgae/parser/Lexer.java:15-57 | a successful `tokenize` has exactly one EOF, at the end; STRING lexemes are allowed ASCII; `def` is DEF and never IDENTIFIER; lines start at 1 and never decrease |
| LexerSpec.QuotedEndStops | src/main/java/nalgae/parser/Lexer.java:79-95 | the literal ends at the first quote, LF, forbidden character or end: a quote closes it, LF or the end gives "Unterminated string literal", and a forbidden character gives "Non-ASCII character in string literal" |
| LexerSpec.TripleBodyCloses | src/main/java/nalgae/parser/Lexer.java:101-103 | at a `"""` the loop ends, keeping the text read so far |
| LexerSpec.TripleBodyRejects | src/main/java/nalgae/parser/Lexer.java:104-106 | a forbidden character that does not open a `"""` fails on its line |
| LexerSpec.TripleBodyUnfold | src/main/java/nalgae/parser/Lexer.java:99-112 | any other character (two for `""` not followed by a third quote) is appended and an LF counts a line |
| LexerSpec.TripleBodyUnterminated | src/main/java/nalgae/parser/Lexer.java:97-115 | with no `"""` ahead, a multi-line literal fails with "Unterminated multi-line string literal" on the line reached after counting every LF |
| LexerSpec.TripleBodyDropsQuote | src/main/java/nalgae/parser/Lexer.java:101 | inside a multi-line literal, `""` not followed by a third quote contributes one quote to the text |
| LexerSpec.DroppedQuoteExample | src/main/java/nalgae/parser/Lexer.java:97-115 | `"""a""b"""` tokenizes to the STRING `a"b` |
| LexerSpec.TokenizeUnexpected | src/main/java/nalgae/parser/Lexer.java:44-51 | a first non-blank character that starts no token fails with "Unexpected character 'c'" on that character's line |
| LexerSpec.CommentEmitsNothing | src/main/java/nalgae/parser/Lexer.java:43 | `#` emits no token and stops at the comment's end on the same line |
| LexerSpec.NewlineCounted | src/main/java/nalgae/parser/Lexer.java:64-66 | the LF after a comment is skipped as a blank and counted |
| Lexer.Lexer.constructor | src/main/java/nalgae/parser/Lexer.java:11-13 | a lexer starts at position 0 on line 1 |
| Lexer.Lexer.Tokenize | src/main/java/nalgae/parser/Lexer.java:15-57 | the loop returns the token list (or the error) that `LexerSpec.LexFrom` defines from the current cursor |
| Lexer.Lexer.NextToken | src/main/java/nalgae/parser/Lexer.java:22-53 | one loop iteration emits the tokens of `ScanToken` and leaves position and line where it says |
| Lexer.Lexer.SkipWhitespace | src/main/java/nalgae/parser/Lexer.java:59-71 | leaves position and line as `SkipBlanks` computes |
| Lexer.Lexer.SkipComment | src/main/java/nalgae/parser/Lexer.java:73-77 | leaves the cursor at `CommentEnd` |
| Lexer.Lexer.ReadString | src/main/java/nalgae/parser/Lexer.java:79-95 | returns the STRING token of the source between the quotes on the opening line, just past the closing quote, or the error of `QuotedEnd` |
| Lexer.Lexer.ReadMultilineString | src/main/java/nalgae/parser/Lexer.java:97-115 | returns the token of `TripleBody`'s text on the opening line and leaves position and line where it says, or its error |
| Lexer.Lexer.ReadIdentifier | src/main/java/nalgae/parser/Lexer.java:117-122 | returns the source slice from the start to `IdentifierEnd` and stops there |
| Lexer.Lexer.Match | src/main/java/nalgae/parser/Lexer.java:137-146 | consumes the character exactly when it is next |
| Lexer.Lexer.Advance | src/main/java/nalgae/parser/Lexer.java:159-161 | returns the current character and moves one step |
| ParserSpec.Consume | src/main/java/nalgae/parser/Parser.java:132-135 | takes the token when `check` holds, otherwise fails with the error at the current token |
| ParserSpec.ParseTerm | src/main/java/nalgae/parser/Parser.java:50-98 | a parsed term is well formed and the cursor advances unless at EOF |
| ParserSpec.GroupBody | src/main/java/nalgae/parser/Parser.java:51-66 | a group consumes through its `}` and yields a well-formed Group |
| ParserSpec.CloseGroup | src/main/java/nalgae/parser/Parser.java:64-65 | the group takes the line of its `}` and never diverges |
| ParserSpec.Arguments | src/main/java/nalgae/parser/Parser.java:73-88 | the argument loop keeps the arguments collected so far, in order, and each is well formed |
| ParserSpec.GroupMembers | src/main/java/nalgae/parser/Parser.java:54-62 | the member loop stops before a `}` with at least one more member, each well formed |
| ParserSpec.ParsePipeline | src/main/java/nalgae/parser/Parser.java:39-48 | a pipeline is well formed (at least one term, line of the first) and advances unless at EOF |
| ParserSpec.PipelineRest | src/main/java/nalgae/parser/Parser.java:44-46 | the PIPE loop keeps the terms so far as a prefix |
| ParserSpec.ParseDefinition | src/main/java/nalgae/parser/Parser.java:25-33 | name, `(`, parameter, `)`, `=` in order, each missing one with its own message at the offending token; the definition takes the `=` line |
| ParserSpec.Definitions | src/main/java/nalgae/parser/Parser.java:17-19 | the `def` loop keeps earlier definitions and stops where no `def` follows |
| ParserSpec.ParseProgram | src/main/java/nalgae/parser/Parser.java:15-23 | a parsed program is well formed and ends on the EOF token |
| Parser.Parser.constructor | src/main/java/nalgae/parser/Parser.java:11-13 | the parser starts at the first token |
| Parser.Parser.ParseProgram | src/main/java/nalgae/parser/Parser.java:15-23 | returns `ParserSpec.ParseProgram` and leaves the cursor after it |
| Parser.Parser.ParseDefinition | src/main/java/nalgae/parser/Parser.java:25-33 | returns `ParserSpec.ParseDefinition` from the cursor |
| Parser.Parser.ParseExpression | src/main/java/nalgae/parser/Parser.java:35-37 | an expression is a pipeline |
| Parser.Parser.ParsePipeline | src/main/java/nalgae/parser/Parser.java:39-48 | returns `ParserSpec.ParsePipeline` from the cursor |
| Parser.Parser.ParseTerm | src/main/java/nalgae/parser/Parser.java:50-98 | returns `ParserSpec.ParseTerm` from the cursor, including its divergence and index-fault outcomes |
| Parser.Parser.ParseGroup | src/main/java/nalgae/parser/Parser.java:51-66 | returns `ParserSpec.GroupBody` |
| Parser.Parser.ParseArguments | src/main/java/nalgae/parser/Parser.java:71-88 | returns `ParserSpec.Arguments` for the head's line |
| Parser.Parser.Match | src/main/java/nalgae/parser/Parser.java:100-106 | moves one token exactly when `check` holds |
| Parser.Parser.Advance | src/main/java/nalgae/parser/Parser.java:115-118 | moves unless at the end and returns the token before the cursor |
| Parser.Parser.Consume | src/main/java/nalgae/parser/Parser.java:132-135 | returns `ParserSpec.Consume` |
| ParserProps.IdentifierBeforeLineBreak | src/main/java/nalgae/parser/Parser.java:77-79 | an identifier whose next token is on a later line takes no arguments |
| ParserProps.ArgumentsStop | src/main/java/nalgae/parser/Parser.java:73-88 | the argument loop ends with the arguments it has at the end of input, at a token on a later line, and at any token that cannot start a term (`|`, `}`, `;` among them) |
| ParserProps.ArgumentsContinue | src/main/java/nalgae/parser/Parser.java:83-86 | at an identifier, literal or `{` on the call's line the loop parses one more term and goes on after it, and a failing term fails the loop |
| ParserProps.ArgumentsEndAtStop | src/main/java/nalgae/parser/Parser.java:73-88 | a finished argument loop always sits at one of those stops |
| ParserProps.IdentifierTakesLiteral | src/main/java/nalgae/parser/Parser.java:83-92 | an identifier followed by a literal on its line is a call whose first argument is that literal, whatever follows, and it fails only if the rest of its argument loop fails |
| ParserProps.IdentifierTakesOnlyLiteral | src/main/java/nalgae/parser/Parser.java:73-92 | `f "x"` at the end of input is the call of `f` with just that literal |
| ParserProps.NestedCallAbsorbs | src/main/java/nalgae/parser/Parser.java:83-92 | an identifier after an identifier on the same line is parsed as a term of its own that takes all the remaining arguments, so the outer call has exactly that one argument |
| ParserProps.NestedCallExample | src/main/java/nalgae/parser/Parser.java:68-92 | `f g "x"` parses as `f` called with `g "x"` |
| ParserProps.GroupMemberSeparators | src/main/java/nalgae/parser/Parser.java:54-62 | after a member, `;` skips itself and continues, `}` ends the loop, and any other token after a member that consumed input starts the next member |
| ParserProps.LiteralMember | src/main/java/nalgae/parser/Parser.java:39-47 | a literal not followed by `|` is a pipeline of that one literal |
| ParserProps.GroupOfMembers | src/main/java/nalgae/parser/Parser.java:51-65 | a `{` not followed at once by `}` is the group of the members its member loop reads, on the line of the closing `}` |
| ParserProps.SemicolonSeparatedGroup | src/main/java/nalgae/parser/Parser.java:51-65 | `{ "a"; "b" }` is the group of the two literal members |
| ParserProps.JuxtaposedGroup | src/main/java/nalgae/parser/Parser.java:51-65 | `{ "a" "b" }` is the group of the two literal members |
| ParserProps.SemicolonOptional | src/main/java/nalgae/parser/Parser.java:51-65 | `{ "a"; "b" }` and `{ "a" "b" }` parse to the same group |
| ParserProps.PipelineRestStep | src/main/java/nalgae/parser/Parser.java:44-46 | at a `|` the loop adds the term after it and goes on where that term ends |
| ParserProps.PipelineTermsExact | src/main/java/nalgae/parser/Parser.java:43-47 | a pipeline's terms are the terms it started with followed by exactly one term per `|`, each parsed right after its `|` and ending at the next `|`; the loop stops at the first token that is not `|` and keeps the first term's line |
| ParserProps.ParenthesisRejected | src/main/java/nalgae/parser/Parser.java:95 | `(` fails with "Parenthesised expressions are not supported" |
| ParserProps.EmptyGroup | src/main/java/nalgae/parser/Parser.java:51-65 | `{ }` is the empty group on the line of `}` |
| ParserProps.EmptyInputOutOfRange | src/main/java/nalgae/parser/Parser.java:115-130 | an input of only EOF makes `previous()` read before the first token |
| ParserProps.PipelineStalls | src/main/java/nalgae/parser/Parser.java:115-118 | a pipeline that consumes nothing sits on EOF right after an identifier or literal |
| ParserProps.TermDiverges | src/main/java/nalgae/parser/Parser.java:50-98 | a term diverges only on input whose last token before EOF is an identifier or literal |
| ParserProps.GroupBodyDiverges | src/main/java/nalgae/parser/Parser.java:51-66 | the same for a group |
| ParserProps.ArgumentsDiverge | src/main/java/nalgae/parser/Parser.java:73-88 | the same for the argument loop |
| ParserProps.GroupMembersDiverge | src/main/java/nalgae/parser/Parser.java:54-62 | the same for the member loop |
| ParserProps.PipelineDiverges | src/main/java/nalgae/parser/Parser.java:39-48 | the same for a pipeline |
| ParserProps.PipelineRestDiverges | src/main/java/nalgae/parser/Parser.java:44-46 | the same for the PIPE loop |
| ParserProps.DefinitionsDiverge | src/main/java/nalgae/parser/Parser.java:17-19 | the same for the `def` loop |
| ParserProps.ProgramDiverges | src/main/java/nalgae/parser/Parser.java:15-23 | the parser fails to terminate only when the last token before EOF is an identifier or a literal |
| ParserProps.UnclosedGroupDiverges | src/main/java/nalgae/parser/Parser.java:54-62 | `{ "a"` makes the member loop spin forever |
| BuiltinRegistry.TableContents | src/main/java/nalgae/compiler/BuiltinRegistry.java:21-37 | the table is exactly the eleven registrations, each keyed by its own name |
| BuiltinRegistry.Find | src/main/java/nalgae/compiler/BuiltinRegistry.java:39-41 | finds a descriptor exactly for registered names; it carries that name and takes at most 2 extra arguments |
| BuiltinRegistry.RegisteredNames | src/main/java/nalgae/compiler/BuiltinRegistry.java:22-32 | the registered names, grouped by argument count 0, 1 and 2 |
| BuiltinRegistry.DescriptorsWellFormed | src/main/java/nalgae/compiler/BuiltinRegistry.java:22-32 | the method name is the builtin name except `const`→`constValue` and `trim_indent`→`trimIndent` |
| CodeBuilder.TempNameInjective | src/main/java/nalgae/compiler/CodeBuilder.java:15 | distinct counters give distinct temporary names |
| CodeBuilder.TempIsNewAndDeclared | src/main/java/nalgae/compiler/CodeBuilder.java:14-18 | a new temporary keeps earlier statements, has a name never issued before, and is declared by the one statement added |
| CodeBuilder.Indentation | src/main/java/nalgae/compiler/CodeBuilder.java:25 | `"    ".repeat(level)`: 4×level spaces |
| CodeBuilder.RenderedIsJoin | src/main/java/nalgae/compiler/CodeBuilder.java:24-29 | the rendering is the indented statements joined by LF, with an LF after the last |
| CodeBuilder.RenderedLines | src/main/java/nalgae/compiler/CodeBuilder.java:24-29 | LF-free statements come back out of the rendering as its lines, in order |
| CodeBuilder.RenderedAppend | src/main/java/nalgae/compiler/CodeBuilder.java:26-28 | rendering distributes over concatenation of statement lists |
| CodeBuilder.CodeBuilder.constructor | src/main/java/nalgae/compiler/CodeBuilder.java:7-8 | a new builder has no statements and counter 0 |
| CodeBuilder.CodeBuilder.NewTemp | src/main/java/nalgae/compiler/CodeBuilder.java:10-12 | `newTemp(e)` is `newTypedTemp("String", e)` |
| CodeBuilder.CodeBuilder.NewTypedTemp | src/main/java/nalgae/compiler/CodeBuilder.java:14-18 | returns `tmp<k>` for the old counter k, increments the counter, appends `type name = expr;` |
| CodeBuilder.CodeBuilder.Add | src/main/java/nalgae/compiler/CodeBuilder.java:20-22 | appends the statement verbatim and leaves the counter alone |
| CodeBuilder.CodeBuilder.AppendTo | src/main/java/nalgae/compiler/CodeBuilder.java:24-29 | writes the rendering after the text and does not modify the builder |
| Lowering.JoinArgumentsCommas | src/main/java/nalgae/compiler/ProgramCompiler.java:250-256 | comma-free arguments joined with `, ` give one comma fewer than there are arguments |
| Lowering.BuildCallCommas | src/main/java/nalgae/compiler/ProgramCompiler.java:250-256 | a built call written with comma-free arguments has exactly one comma between consecutive arguments |
| Lowering.Escape | src/main/java/nalgae/compiler/ProgramCompiler.java:263-270 | a character escapes to one or two characters, none LF, CR or TAB |
| Lowering.EscapeAllNoBreaks | src/main/java/nalgae/compiler/ProgramCompiler.java:261-271 | escaped text holds no raw LF, CR or TAB |
| Lowering.EscapeRoundTrip | src/main/java/nalgae/compiler/ProgramCompiler.java:261-271 | unescaping the escaped text gives back the original |
| Lowering.QuoteRoundTrip | src/main/java/nalgae/compiler/ProgramCompiler.java:258-274 | the Java literal `quote` writes denotes exactly the value quoted |
| Lowering.LowerPipeline | src/main/java/nalgae/compiler/ProgramCompiler.java:125-134 | a pipeline only extends the builder, yields a fresh temporary or the parameter variable, and an empty pipeline is an error |
| Lowering.PipelineSteps | src/main/java/nalgae/compiler/ProgramCompiler.java:130-132 | each later term makes a fresh temporary; with none left the current value is the result |
| Lowering.LowerValue | src/main/java/nalgae/compiler/ProgramCompiler.java:136-153 | a value-context identifier resolves exactly when it is the parameter; otherwise a fresh temporary |
| Lowering.LowerValueCall | src/main/java/nalgae/compiler/ProgramCompiler.java:155-176 | a value-context builtin call has argCount+1 arguments; otherwise the target is a definition called with exactly one |
| Lowering.ValueArguments | src/main/java/nalgae/compiler/ProgramCompiler.java:161-164 | the argument loop adds one variable per argument after those already there |
| Lowering.LowerStep | src/main/java/nalgae/compiler/ProgramCompiler.java:178-206 | every pipeline step makes a fresh temporary, and calling the parameter is an error |
| Lowering.LowerPipelineCall | src/main/java/nalgae/compiler/ProgramCompiler.java:227-248 | a pipeline builtin call has exactly argCount arguments; a definition call has none |
| Lowering.LowerGroup | src/main/java/nalgae/compiler/ProgramCompiler.java:208-225 | a group extends the builder and yields a fresh temporary |
| Lowering.GroupMembers | src/main/java/nalgae/compiler/ProgramCompiler.java:216-223 | the member loop only extends the builder |
| LoweringProps.ValueParameterEmitsNothing | src/main/java/nalgae/compiler/ProgramCompiler.java:138-140 | the parameter in value context is its variable, with nothing emitted |
| LoweringProps.ValueNameUnknown | src/main/java/nalgae/compiler/ProgramCompiler.java:141 | any other identifier there fails with "Unknown identifier '…' in value context" |
| LoweringProps.ValueLiteralDenotesItself | src/main/java/nalgae/compiler/ProgramCompiler.java:143-145 | a value-context literal is one declaration of a Java literal that denotes it, with no runtime check |
| LoweringProps.LiteralResetsPipeline | src/main/java/nalgae/compiler/ProgramCompiler.java:196-198 | a literal step ignores the piped value and declares `Builtins.constValue(literal)` |
| LoweringProps.ParameterNotCallable | src/main/java/nalgae/compiler/ProgramCompiler.java:180-182 | the parameter as a step fails with "Cannot call parameter" |
| LoweringProps.BuiltinShadowsDefinition | src/main/java/nalgae/compiler/ProgramCompiler.java:183-189 | a bare builtin name is looked up before definitions: a call of the builtin on the piped value, or "requires arguments" |
| LoweringProps.BuiltinCallArityChecked | src/main/java/nalgae/compiler/ProgramCompiler.java:157-160 | a builtin call with the wrong count fails with the expected count: argCount+1 in value context, argCount in pipeline context |
| LoweringProps.UnknownFunction | src/main/java/nalgae/compiler/ProgramCompiler.java:175 | a name that is neither the parameter, a builtin nor defined is "Unknown function" as a step and as a call |
| LoweringProps.DefinitionTakesPipedValue | src/main/java/nalgae/compiler/ProgramCompiler.java:240-246 | a definition in a pipeline gets the piped value; explicit arguments are an error |
| LoweringProps.EmptyGroup | src/main/java/nalgae/compiler/ProgramCompiler.java:209-211 | `{}` is the empty string literal in either context |
| LoweringProps.SingleTermPipeline | src/main/java/nalgae/compiler/ProgramCompiler.java:125-134 | a one-term pipeline is that term in value context |
| LoweringProps.OneMemberGroup | src/main/java/nalgae/compiler/ProgramCompiler.java:215-224 | a one-member group appends the member once, with no separator |
| LoweringProps.GroupSeesPipedValue | src/main/java/nalgae/compiler/ProgramCompiler.java:212-214 | inside a piped group, the parameter's name denotes the piped value |
| LoweringProps.GroupMembersTrace | src/main/java/nalgae/compiler/ProgramCompiler.java:216-223 | for any number of members, each member is lowered in order from the state the previous one left, its value is appended, and an LF is appended after every member except the last |
| LoweringProps.GroupJoinsMembers | src/main/java/nalgae/compiler/ProgramCompiler.java:208-225 | a non-empty group declares a fresh `StringBuilder`, writes its members as `GroupMembersTrace` describes, and its value is the builder's `toString()` |
| LoweringProps.GroupSeparatesMembers | src/main/java/nalgae/compiler/ProgramCompiler.java:216-223 | `{ "a"; "b" }` emits exactly its seven statements, with the LF appended only between the members |
| LoweringProps.PipelineBuiltinCallArguments | src/main/java/nalgae/compiler/ProgramCompiler.java:233-238 | a pipeline builtin call passes the piped value first and argCount+1 values in all |
| LoweringProps.ValueBuiltinCallArguments | src/main/java/nalgae/compiler/ProgramCompiler.java:161-165 | a value-context builtin call passes argCount+1 values |
| LoweringProps.RegisteredMethodsResolve | src/main/java/nalgae/compiler/BuiltinRegistry.java:22-32 | every builtin but `const` names a runtime method taking exactly the number of strings the generated call passes |
| LoweringProps.ConstCallHasNoMethod | src/main/java/nalgae/compiler/ProgramCompiler.java:227-238 | the program `it`, piped to `const "a"`, generates a two-argument `Builtins.constValue` call, and the runtime has no such method |
| LoweringProps.RegisteredMethodsResolveCorrected | src/main/java/nalgae/runtime/Builtins.java:107-109 | with a two-argument `constValue` added, every generated builtin call resolves, and `const` yields its checked literal |
| ProgramCompiler.DefinitionMapKeys | src/main/java/nalgae/compiler/ProgramCompiler.java:73-76 | the map holds exactly the defined names |
| ProgramCompiler.DefinitionMapLaterWins | src/main/java/nalgae/compiler/ProgramCompiler.java:73-76 | a name is bound to its last definition: a later definition of the same name replaces an earlier one |
| ProgramCompiler.Procedures | src/main/java/nalgae/compiler/ProgramCompiler.java:78-90 | the definitions loop only appends to the text |
| ProgramCompiler.ProceduresSucceed | src/main/java/nalgae/compiler/ProgramCompiler.java:78-90 | the loop succeeds exactly when every remaining body lowers, shadowed ones included |
| ProgramCompiler.SourceBodySucceeds | src/main/java/nalgae/compiler/ProgramCompiler.java:73-98 | the source is built exactly when every definition's body and the top-level expression lower in their scopes |
| ProgramCompiler.ProgramCompiler.constructor | src/main/java/nalgae/compiler/ProgramCompiler.java:20-23 | the compiler holds the program and the class name |
| ProgramCompiler.ProgramCompiler.BuildSource | src/main/java/nalgae/compiler/ProgramCompiler.java:73-98 | writes the methods `SourceBody` defines, or fails with the first lowering error |
| ProgramCompiler.ProgramCompiler.DefinitionMapOf | src/main/java/nalgae/compiler/ProgramCompiler.java:73-76 | the loop builds `DefinitionMap` |
| ProgramCompiler.ProgramCompiler.WriteProcedure | src/main/java/nalgae/compiler/ProgramCompiler.java:84-89 | one method: a fresh builder, the body's statements two levels deep, then the return of its variable |
| ProgramCompiler.ProgramCompiler.CompileExpression | src/main/java/nalgae/compiler/ProgramCompiler.java:118-134 | agrees with `LowerPipeline` on the builder's state |
| ProgramCompiler.ProgramCompiler.CompileValueTerm | src/main/java/nalgae/compiler/ProgramCompiler.java:136-153 | agrees with `LowerValue` |
| ProgramCompiler.ProgramCompiler.CompileValueCall | src/main/java/nalgae/compiler/ProgramCompiler.java:155-176 | agrees with `LowerValueCall` |
| ProgramCompiler.ProgramCompiler.CompileArguments | src/main/java/nalgae/compiler/ProgramCompiler.java:161-164 | agrees with `ValueArguments` |
| ProgramCompiler.ProgramCompiler.CompilePipelineStep | src/main/java/nalgae/compiler/ProgramCompiler.java:178-206 | agrees with `LowerStep` |
| ProgramCompiler.ProgramCompiler.CompileGroup | src/main/java/nalgae/compiler/ProgramCompiler.java:208-225 | agrees with `LowerGroup` |
| ProgramCompiler.ProgramCompiler.CompilePipelineCall | src/main/java/nalgae/compiler/ProgramCompiler.java:227-248 | agrees with `LowerPipelineCall` |
| ProgramCompiler.ProgramCompiler.BuildCallText | src/main/java/nalgae/compiler/ProgramCompiler.java:250-256 | the joiner loop writes `target(a, b, …)` |
| ProgramCompiler.ProgramCompiler.Quote | src/main/java/nalgae/compiler/ProgramCompiler.java:258-274 | the escaping loop writes `Quoted(value)`, whose literal denotes the value |
| Builtins.FirstDisallowed | src/main/java/nalgae/runtime/Builtins.java:7-12 | the first forbidden character of a string that has one |
| Builtins.CheckAscii | src/main/java/nalgae/runtime/Builtins.java:6-15 | accepts exactly allowed strings, returning them unchanged, and otherwise names the first forbidden character |
| Builtins.EnsureAscii | src/main/java/nalgae/runtime/Builtins.java:6-15 | the loop computes `CheckAscii` |
| Builtins.Id | src/main/java/nalgae/runtime/Builtins.java:17-19 | the input, when allowed |
| Builtins.ConstValue | src/main/java/nalgae/runtime/Builtins.java:107-109 | the value, when allowed |
| Builtins.Append | src/main/java/nalgae/runtime/Builtins.java:33-35 | input + suffix when both are allowed; the input is checked first |
| Builtins.Prepend | src/main/java/nalgae/runtime/Builtins.java:37-39 | prefix + input when both are allowed; the prefix is checked first |
| Builtins.Wrap | src/main/java/nalgae/runtime/Builtins.java:103-105 | prefix + input + suffix when all are allowed, checked in that order |
| Builtins.WrapRoundTrip | src/main/java/nalgae/runtime/Builtins.java:103-105 | cutting the prefix and suffix lengths off the result gives the input back |
| Builtins.Upper | src/main/java/nalgae/runtime/Builtins.java:21-23 | same length, a–z raised and everything else kept; no lower-case letter remains |
| Builtins.Lower | src/main/java/nalgae/runtime/Builtins.java:25-27 | same length, A–Z lowered and everything else kept; no upper-case letter remains |
| Builtins.UpperIdempotent | src/main/java/nalgae/runtime/Builtins.java:21-23 | `upper` of an `upper` result changes nothing |
| Builtins.LowerIdempotent | src/main/java/nalgae/runtime/Builtins.java:25-27 | `lower` of a `lower` result changes nothing |
| Builtins.StripLeading | src/main/java/nalgae/runtime/Builtins.java:30 | `String.trim`'s front: keeps a suffix of the input that is empty or starts above U+0020 |
| Builtins.StripLeadingDrops | src/main/java/nalgae/runtime/Builtins.java:30 | every character it drops is ≤ U+0020 |
| Builtins.StripTrailing | src/main/java/nalgae/runtime/Builtins.java:30 | `String.trim`'s back: keeps a prefix of the input that is empty or ends above U+0020 |
| Builtins.StripTrailingDrops | src/main/java/nalgae/runtime/Builtins.java:30 | every character it drops is ≤ U+0020 |
| Builtins.Trim | src/main/java/nalgae/runtime/Builtins.java:29-31 | accepted exactly when the trimmed text is allowed; the result neither starts nor ends with a character ≤ U+0020 |
| Builtins.TrimSlice | src/main/java/nalgae/runtime/Builtins.java:29-31 | the trimmed text is one contiguous slice of the input |
| Builtins.TrimKeepsAllowed | src/main/java/nalgae/runtime/Builtins.java:29-31 | allowed input is never rejected by `trim` |
| Builtins.TrimIdempotent | src/main/java/nalgae/runtime/Builtins.java:29-31 | trimming a trimmed result changes nothing |
| Builtins.ReplaceAll | src/main/java/nalgae/runtime/Builtins.java:42 | `String.replace`: every result character comes from the input or the replacement |
| Builtins.Replace | src/main/java/nalgae/runtime/Builtins.java:41-43 | `ReplaceAll` when the three strings are allowed, the input checked first |
| Builtins.ReplaceSkipsClean | src/main/java/nalgae/runtime/Builtins.java:41-42 | where the target does not start inside a prefix of the input, replacing keeps that prefix and works on the rest alone |
| Builtins.UnwrapByReplace | src/main/java/nalgae/runtime/Builtins.java:41-42 | a wrapped value comes back by replacing the prefix and then the suffix with nothing, when the prefix occurs only at the front and the suffix first occurs at the back |
| Builtins.ReplaceAbsent | src/main/java/nalgae/runtime/Builtins.java:42 | a target that does not occur leaves the input unchanged |
| Builtins.ReplaceBySelf | src/main/java/nalgae/runtime/Builtins.java:42 | replacing a target by itself changes nothing |
| Builtins.ReplaceEmptyTarget | src/main/java/nalgae/runtime/Builtins.java:42 | an empty target inserts the replacement before every character and at the end |
| Builtins.Indented | src/main/java/nalgae/runtime/Builtins.java:45-56 | accepted exactly when input and prefix are allowed; the prefix is checked first |
| Builtins.IndentPrefixesEveryLine | src/main/java/nalgae/runtime/Builtins.java:45-56 | for a prefix without LF, the result's lines are the input's lines, each prefixed, and the LF count is unchanged (a prefix holding an LF adds lines) |
| Builtins.IndentEmptyPrefix | src/main/java/nalgae/runtime/Builtins.java:45-56 | an empty prefix gives the input back when it is allowed |
| Builtins.Indent | src/main/java/nalgae/runtime/Builtins.java:45-56 | the loop computes `Indented` |
| Builtins.BlankChars | src/main/java/nalgae/runtime/Builtins.java:62 | a line is blank exactly when each of its characters is ≤ U+0020 |
| Builtins.BlankIsTrimEmpty | src/main/java/nalgae/runtime/Builtins.java:62 | a line is blank exactly when `trim()` empties it |
| Builtins.LeadingFrom | src/main/java/nalgae/runtime/Builtins.java:77-85 | counts the maximal run of leading spaces and tabs |
| Builtins.SkipBlankFront | src/main/java/nalgae/runtime/Builtins.java:62-64 | stops on the first non-blank line from `start` on, or at the end |
| Builtins.SkipBlankFrontSkipsBlanks | src/main/java/nalgae/runtime/Builtins.java:62-64 | every line it skips is blank |
| Builtins.SkipBlankBack | src/main/java/nalgae/runtime/Builtins.java:65-67 | stops just after the last non-blank line, never below `start` |
| Builtins.SkipBlankBackDropsBlanks | src/main/java/nalgae/runtime/Builtins.java:65-67 | every line it drops is blank |
| Builtins.MinIndent | src/main/java/nalgae/runtime/Builtins.java:71-87 | the running minimum never exceeds its start value |
| Builtins.MinIndentBelow | src/main/java/nalgae/runtime/Builtins.java:71-87 | the minimum is at most the leading run of every non-blank line it covers |
| Builtins.MinIndentAttained | src/main/java/nalgae/runtime/Builtins.java:71-87 | the minimum is the start value or the leading run of one of the non-blank lines it covers |
| Builtins.TrimmedIndent | src/main/java/nalgae/runtime/Builtins.java:58-101 | accepted exactly when the input is allowed; a non-empty result means some line was kept |
| Builtins.DedentAllowed | src/main/java/nalgae/runtime/Builtins.java:91-100 | cutting allowed lines gives allowed lines |
| Builtins.DedentNoNewline | src/main/java/nalgae/runtime/Builtins.java:91-100 | cut lines contain no LF |
| Builtins.DedentCut | src/main/java/nalgae/runtime/Builtins.java:60-90 | the kept range starts and ends non-blank, and the indentation cut is that of one of its non-blank lines |
| Builtins.DedentShape | src/main/java/nalgae/runtime/Builtins.java:60-100 | the kept lines start and end non-blank and one of them has no indentation left |
| Builtins.DedentJoinFixed | src/main/java/nalgae/runtime/Builtins.java:91-100 | splitting the joined kept lines and trimming them again gives the same lines |
| Builtins.DedentFixed | src/main/java/nalgae/runtime/Builtins.java:60-100 | lines of that shape are left as they are |
| Builtins.TrimIndentAllBlank | src/main/java/nalgae/runtime/Builtins.java:68-70 | all-blank input gives the empty string |
| Builtins.TrimIndentOfEmpty | src/main/java/nalgae/runtime/Builtins.java:58-70 | the empty string trims to itself |
| Builtins.TrimmedIndentKept | src/main/java/nalgae/runtime/Builtins.java:58-101 | allowed input that keeps a line trims to the cut lines joined by LF |
| Builtins.TrimIndentKeptFixed | src/main/java/nalgae/runtime/Builtins.java:58-101 | the result is the joined cut lines, and `trimIndent` leaves it unchanged |
| Builtins.TrimIndentIdempotent | src/main/java/nalgae/runtime/Builtins.java:58-101 | `trimIndent` of a `trimIndent` result changes nothing |
| Builtins.TrimIndent | src/main/java/nalgae/runtime/Builtins.java:58-101 | the loops compute `TrimmedIndent` |
| Builtins.KeptRange | src/main/java/nalgae/runtime/Builtins.java:60-67 | the two loops find the first and last non-blank lines |
| Builtins.CommonIndent | src/main/java/nalgae/runtime/Builtins.java:71-87 | the loop computes `MinIndent` from `Integer.MAX_VALUE` |
| Builtins.LeadingCount | src/main/java/nalgae/runtime/Builtins.java:77-85 | the inner loop counts the leading spaces and tabs of a line |
| Builtins.JoinCut | src/main/java/nalgae/runtime/Builtins.java:91-99 | the loop writes the cut lines joined by LF |
| Builtins.Invoke | src/main/java/nalgae/runtime/Builtins.java:17-109 | a `Builtins.m(...)` call resolves only to a declared method of that name taking 1 to 3 strings; `constValue` takes one |
| Builtins.ConstValueOver | src/main/java/nalgae/runtime/Builtins.java:107-109 | the two-argument `constValue` drops the piped value and yields the checked literal |
| Builtins.InvokeCorrected | src/main/java/nalgae/runtime/Builtins.java:107-109 | the runtime with that overload added; every other call resolves as before |

## Left out

- `ProgramCompiler.compile()` is not modelled: it writes files, runs `javac` through `ToolProvider` and reads bytecode (I/O and a foreign tool). `CompiledProgram` and the CLI are also not part of this model.
- ProgramCompiler.ProgramCompiler.BuildSource: the class declaration around the generated methods is not modelled. This covers the package line, the imports, `apply` and `main`, and the `SourceLayout` paths, all fixed text or file paths.
- Identifier characters: `Character.isLetter`/`isDigit` are modelled by their ASCII part (`A–Z`, `a–z`, `_`, `0–9`). Non-ASCII letters and digits are rejected with "Unexpected character" in the model but accepted by the Java lexer.
- Builtins.Upper and Builtins.Lower model only the ASCII case mapping. Java's full Unicode mapping can turn a non-ASCII character into ASCII (`ı`→`I`, `ſ`→`S`), and `ß` into two characters. So Java accepts some inputs the model rejects.
- Builtins.TrimIndentIdempotent assumes the input is shorter than `Integer.MAX_VALUE` characters. The indentation sentinel cannot otherwise be told apart from a real indentation.
- Builtins.ReplaceAll: its contract states only where the result's characters come from; the full behaviour is pinned by its definition and the three `Replace…` lemmas. The round trip "wrap, then replace the frame" is stated by slicing in `WrapRoundTrip` and through `replace` itself in `UnwrapByReplace`.
- `int` overflow of the lexer's line counter, of `tempCounter` and of `position` is not modelled: the counters are unbounded naturals.
- "Empty pipeline at line N" is an `IllegalArgumentException` without the `[line N] ` prefix. The model reports it as a `Diagnostic` on that line. The parser never builds an empty pipeline.
- The `IllegalStateException` branches for unknown expression or term types cannot be reached, because the AST datatypes are closed.
- Duplicate definitions: the model generates two methods with the same name, as the code does. It does not model that `javac` would then reject the class.
- The parser's `OutOfRange` and `Diverges` outcomes stand for an `IndexOutOfBoundsException` and a parse that does not terminate normally (the group loop spins, growing its member list, until memory runs out). The model does not say which exception or error Java throws.
- Builtins.CheckAscii, Builtins.EnsureAscii and LexerSpec.ScanToken: Dafny's `char` is a Unicode scalar value, while a Java `String` is a sequence of UTF-16 units. For a character above U+FFFF (such as U+1F600) the Java messages "Non-ASCII character detected: 'c'" and "Unexpected character 'c'" show only its first unit, a lone high surrogate; the model names the whole character. A lone surrogate is not a Dafny `char`, so the model cannot render it. Which character is rejected, and where, is the same.

## Findings

| source | as written | input that shows it | evidently intended | confidence | as-written member | corrected member |
|---|---|---|---|---|---|---|
| src/main/java/nalgae/compiler/BuiltinRegistry.java:29 with src/main/java/nalgae/runtime/Builtins.java:107-109 | `const` is registered with one extra argument, so the compiler generates `Builtins.constValue(current, literal)`. `Builtins` declares only `constValue(String)`, so `javac` rejects the generated class. | `it`, piped to `const "a"` (a one-line program) | a two-argument `constValue(input, value)` that drops the piped value and returns the checked literal, as the pipeline-reset semantics of a literal step does | not executed | LoweringProps.ConstCallHasNoMethod | LoweringProps.RegisteredMethodsResolveCorrected |
