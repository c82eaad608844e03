# c2j in Dafny: the lexer and code generator of `Compiler.java`

`Compiler.java` translates a tiny C-like language into Jasmin assembler text
for a class `Aout`. A program is a sequence of statements:

- `void name() { ... }` declares a static method.
- `name();` calls one.
- `printf("text");` prints a string literal.

Blanks and `#` line comments are skipped. Two parts run interleaved:

- **`Lexer`** is a cursor over the immutable source text. It has two cursors,
  `read_pos` and `pos`. Each call of `nextToken` skips blanks and comments
  and returns one token.
- **`CodeGen`** pulls tokens on demand and checks the fixed token sequence of
  each statement form. It appends assembler text to a buffer that starts with
  a fixed preamble. It translates a declaration's body by a recursive call
  that ends at the matching `}` or at end of input.

This project models both, in the source's own imperative form, and proves
them against pure specification functions.

- `Tokens` (`tokens.dfy`) holds the token kinds and tokens.
- `Lexing` (`lexing.dfy`) holds the class `Lexer`, whose fields are `src`,
  `readPos` and `pos`. Its methods are `Advance`, `Peek`, `SkipWhitespace`
  and `NextToken`; the letter loop and the string loop of `nextToken` are the
  helper methods `ReadWord` and `ReadString`. Each method is proved to move
  the cursor exactly as the functions `SkipWs`, `WordEnd`, `UntilChar` and
  `Lex` say.
- `LexingFacts` (`lexing_facts.dfy`) holds what the lexer promises, stated
  on `Lex`:
  - word, punctuation, string-literal and `Eof` tokens, characterised by
    their kind;
  - how comments are skipped;
  - that `Eof` repeats forever at the end of input.
- `Translation` (`translation.dfy`) holds the class `CodeGen`. Its fields are
  the lexer and the buffer `code`.
  - `GenerateCode` is the `while (true)` loop of `generateCode`. Its three
    statement branches are the methods `GenerateDeclaration`, `GenerateCall`
    and `GeneratePrintf`.
  - Each method's contract ties the new buffer to the old one plus the text
    that the specification functions `Block`, `Declaration`, `Call` and
    `Print` give, and says that the buffer is only ever appended to.
  - The `System.exit(1)` after each diagnostic becomes a `Failure` status
    carrying a `SyntaxError`. `Compile` is the whole translation.
  - `CompileSource` runs a lexer and a generator the way `Compiler.main`
    does, without the file I/O.
- `TranslationFacts` (`translation_facts.dfy`) covers ill-formed input: which
  error each misplaced token causes, and how an error aborts the enclosing
  blocks and the whole translation.
- `Programs` (`programs.dfy`) gives an independent reference. It defines a
  syntax tree of statements, the source text that spells a tree, and the
  assembler text each statement should produce. The theorem
  `CompileRendered` says that compiling the source of any well-formed
  program yields the preamble followed by exactly that text, in source
  order.
- `LexerLoops` (`lexer_loops.dfy`) models the comment loop and the string
  loop as written. Neither tests for the end of input (see Findings).

The functions `Declaration`, `Call` and `Print` read all the tokens of a
statement form before checking them in order. The source instead stops at
the first wrong one. Reading tokens has no side effect beyond the cursor,
and the cursor is never observed after an error, so both report the same
first error.

## Model

| member | source | states |
|---|---|---|
| `Lexing.AdvancePos` | Compiler.java:45-52 | `advance` moves the read position by one, except at the end of input, where it stays and never exceeds the length |
| `Lexing.UntilChar` | Compiler.java:66 | the end of a scan for a stop character, shared by the comment loop here and the string loop at line 103: no stop character before it, and the stop character at it unless it is the end of input |
| `Lexing.SkipWs` | Compiler.java:61-70 | where `skip_whitespace` stops: within the input, at a character that is neither a blank nor `#` |
| `LexingFacts.LetterStartsWord` | Compiler.java:72-74 | an ASCII letter, as `is_alpha` defines it, is never skipped, is none of the characters the symbol switch tests, and always starts a word token beginning with that letter |
| `Lexing.WordEnd` | Compiler.java:79-84 | the letter loop ends at the end of the maximal run of ASCII letters |
| `Lexing.Classify` | Compiler.java:85-92 | a word is `Void` exactly for "void", `Printf` exactly for "printf", otherwise `Ident`, with the lexeme kept verbatim |
| `Lexing.Symbol` | Compiler.java:94-100 | a consumed non-letter character gives `Eof` with "" exactly for NUL, otherwise a one-character lexeme of one of the punctuation kinds or `Illegal` |
| `Lexing.LexAt` | Compiler.java:78-109 | the token read at a non-blank position stays within the input and consumes at least one character unless it is `Eof`, whose lexeme is "" |
| `Lexing.Lex` | Compiler.java:76-110 | `nextToken` never moves the cursor past the end of input, moves it forward by at least one for every non-`Eof` token, and gives `Eof` a "" lexeme |
| `Lexing.Lexer.constructor` | Compiler.java:39-43 | a new lexer holds the source with both cursors at 0 |
| `Lexing.Lexer.Advance` | Compiler.java:45-52 | returns the character at the read position, or NUL at the end of input, and moves the read position as `AdvancePos` says |
| `Lexing.Lexer.Peek` | Compiler.java:54-59 | returns the character at the read position, or NUL at the end of input, changing nothing |
| `Lexing.Lexer.SkipWhitespace` | Compiler.java:61-70 | moves the read position exactly to `SkipWs` of where it was |
| `Lexing.Lexer.ReadWord` | Compiler.java:80-85 | consumes the rest of the letter run and returns the whole run, first letter included |
| `Lexing.Lexer.ReadString` | Compiler.java:101-105 | returns exactly the characters up to the next double quote and consumes that quote |
| `Lexing.Lexer.NextToken` | Compiler.java:76-110 | returns exactly the token `Lex` gives and leaves the read position where `Lex` says |
| `LexingFacts.LexAtEnd` | Compiler.java:46-47 | at the end of input `nextToken` returns `Eof` with "" and leaves the cursor in place |
| `LexingFacts.Run` | Compiler.java:76-110 | n successive `nextToken` calls return n tokens |
| `LexingFacts.RunWithin` | Compiler.java:76-110 | successive `nextToken` calls never move the cursor back and never past the end of input |
| `LexingFacts.EofForever` | Compiler.java:100 | once the input is exhausted, every further `nextToken` call returns `Eof` with "" and leaves the cursor at the end |
| `Programs.LexesToRun` | Compiler.java:76-110 | tokens are lexed one after the other from a position exactly when they are what successive `nextToken` calls return |
| `LexingFacts.SkipOnlyBlanks` | Compiler.java:65 | where no `#` follows, `skip_whitespace` passes over blanks only |
| `LexingFacts.SkipAllBlanks` | Compiler.java:62-65 | input made only of blanks is skipped to its end |
| `LexingFacts.SkipComment` | Compiler.java:66 | a `#` comment is consumed up to, not including, the next newline, which is then skipped as a blank |
| `LexingFacts.SkipTrailingComment` | Compiler.java:66 | a `#` comment with no newline after it runs to the end of input |
| `LexingFacts.WordToken` | Compiler.java:79-92 | every word token is a non-empty maximal letter run taken verbatim from the source, and its kind is `Void`/`Printf` exactly for the two keywords |
| `LexingFacts.SymbolToken` | Compiler.java:94-108 | every punctuation or `Illegal` token is the single character after the skipped blanks: each punctuation kind exactly for its character, `Illegal` exactly for every other character that starts no other token |
| `LexingFacts.EofToken` | Compiler.java:94-100 | `Eof` comes only from the end of input, with the cursor unmoved, or from an embedded NUL, which is consumed |
| `LexingFacts.StringToken` | Compiler.java:101-106 | a string token's lexeme is exactly the characters after the opening quote up to the next double quote, with no escape processing, and the closing quote is consumed |
| `LexingFacts.LexAfterBlanks` | Compiler.java:62-65 | any run of blanks before a token changes neither the token nor where it ends |
| `LexingFacts.LexAfterSkipped` | Compiler.java:61-76 | `nextToken` from a position reads the same token as from where its blanks and comments end |
| `LexingFacts.LexAfterBlank` | Compiler.java:65 | a blank before a token does not change the token or where it ends |
| `LexingFacts.LexWordAt` | Compiler.java:79-92 | a letter word written at a position, followed by a non-letter, is lexed as that word |
| `LexingFacts.LexSymbolAt` | Compiler.java:94-99 | a punctuation character written at a position is lexed as its own one-character token |
| `LexingFacts.LexStringAt` | Compiler.java:101-106 | a quoted text with no double quote inside is lexed as a string token holding exactly that text |
| `Translation.MethodHeader` | Compiler.java:166-170 | the `.method` line of a procedure names it verbatim after `.method public static ` |
| `Translation.MethodHeaderNames` | Compiler.java:166-170 | two procedures get the same `.method` line only if they have the same name, and only `main` gets the entry point descriptor `([Ljava/lang/String;)V` |
| `Translation.Statement` | Compiler.java:139-229 | a statement that emits text consumes at least one character, and an ending token leaves the cursor within the input |
| `Translation.Declaration` | Compiler.java:142-176 | a successful declaration consumes input and ends within it |
| `Translation.Call` | Compiler.java:178-195 | a successful call statement consumes input and ends within it |
| `Translation.Print` | Compiler.java:197-223 | a successful `printf` statement consumes input and ends within it |
| `Translation.Block` | Compiler.java:137-232 | a successful block ends within the input, no earlier than it started |
| `Translation.CodeGen.constructor` | Compiler.java:116-133 | a new generator's buffer is exactly the preamble |
| `Translation.CodeGen.GetCode` | Compiler.java:134-136 | returns the buffer |
| `Translation.CodeGen.GenerateCode` | Compiler.java:137-232 | the buffer is only appended to; on success the appended text is exactly `Block`'s text and the cursor ends after the block's closing token; on failure the error is `Block`'s first error |
| `Translation.CodeGen.GenerateDeclaration` | Compiler.java:142-177 | checks name, `(`, `)`, `{` in order and appends the `.method` line, the two limits, the body and `return`/`.end method`, exactly as `Declaration` says, or fails with its error |
| `Translation.CodeGen.GenerateCall` | Compiler.java:178-196 | checks `(`, `)`, `;` and appends exactly one `invokestatic` line, as `Call` says, or fails with its error |
| `Translation.CodeGen.GeneratePrintf` | Compiler.java:197-224 | checks `(`, a string, `)`, `;` and appends the `getstatic`, `ldc` and `invokevirtual` lines, as `Print` says, or fails with its error |
| `Translation.Compile` | Compiler.java:116-137 | a successful translation's output begins with the preamble the generator is created with |
| `Translation.CompileSource` | Compiler.java:244-248 | a fresh lexer and generator over the source yield exactly `Compile` of the source |
| `TranslationFacts.UnhandledStatement` | Compiler.java:226-229 | a statement starting with `(`, `)`, `{`, `;`, a string or an illegal token is an error naming that token |
| `TranslationFacts.UnhandledCharacter` | Compiler.java:226-229 | a character that starts no statement is an error naming the one-character token it becomes |
| `TranslationFacts.VoidWithoutName` | Compiler.java:142-148 | `void` followed by punctuation instead of a name is the error "expected identifier" |
| `TranslationFacts.CallWithoutParen` | Compiler.java:178-183 | a name followed by punctuation other than `(` is the error "expected `(`" |
| `TranslationFacts.PrintfWithoutString` | Compiler.java:197-206 | `printf(` followed by punctuation instead of a string is the error "expected string" |
| `TranslationFacts.DeclarationOutcome` | Compiler.java:142-176 | after `void`, the first of name, `(`, `)`, `{` that has the wrong kind decides the error (identifier, `(`, `)` or `{` expected, in that order), including `void` at the end of input or before a keyword; with all four in place the declaration emits the `.method` line for that name, the limits, its body's text and the closing lines, and fails exactly when its body does |
| `TranslationFacts.StatementAfterSkipped` | Compiler.java:140 | blanks and comments before a statement do not change what it emits, where it ends or its error |
| `TranslationFacts.BlockAfterSkipped` | Compiler.java:139-140 | blanks and comments before a block do not change its outcome |
| `TranslationFacts.CallOutcome` | Compiler.java:178-195 | after a name, the first of `(`, `)`, `;` that is missing decides the error; with all three in place the call emits the `invokestatic` of that name and ends after the `;` |
| `TranslationFacts.PrintOutcome` | Compiler.java:197-223 | after `printf`, the first of `(`, a string, `)`, `;` that is missing decides the error; with all four in place it emits the three printing lines for that string and ends after the `;` |
| `TranslationFacts.FailAbortsBlock` | Compiler.java:226-228 | a syntax error ends the block with that error |
| `TranslationFacts.LaterFailAbortsBlock` | Compiler.java:139-141 | an error in a later statement aborts the whole block, whatever was emitted before it |
| `TranslationFacts.BodyFailAbortsDeclaration` | Compiler.java:172-173 | an error in a declaration's body aborts the declaration with that error |
| `TranslationFacts.CompileOfAbort` | Compiler.java:247 | the translation fails exactly with the first error of the top-level block |
| `Programs.CallWritten` | Compiler.java:76-110 | the text `name();` written at a position is lexed as its four tokens, each ending where its text ends |
| `Programs.PrintWritten` | Compiler.java:76-110 | the text `printf("text");` written at a position is lexed as its five tokens, the string token holding exactly the text |
| `Programs.HeadWritten` | Compiler.java:76-110 | the head `void name(){` written at a position is lexed as its five tokens |
| `Programs.SourceAllSpelled` | Compiler.java:76-110 | the source of well-formed statements written one after the other is lexed as exactly their tokens, in order |
| `Programs.CallOfTokens` | Compiler.java:178-195 | the tokens of `name();` are translated into its one `invokestatic` line, ending after the `;` |
| `Programs.PrintOfTokens` | Compiler.java:197-223 | the tokens of `printf("text");` are translated into its three printing lines with the text unescaped, ending after the `;` |
| `Programs.DeclOfTokens` | Compiler.java:142-176 | the tokens of a head followed by a translated body give the `.method` line, the limits, the body's text and the closing lines |
| `Programs.StatementOfSpelled` | Compiler.java:141-224 | the tokens of every well-formed statement are translated into exactly that statement's assembler text, ending where its source ends |
| `Programs.BlockOfSpelled` | Compiler.java:137-232 | statements lexed one after the other and closed by `}` or the end of input are translated into their texts, in order |
| `Programs.CompileRendered` | Compiler.java:137-232 | compiling the source of any well-formed program yields the preamble followed by exactly the program's assembler text |
| `Programs.CloseAtTopLevelStops` | Compiler.java:225 | a `}` at top level ends the translation, and nothing after it is read |
| `Programs.StatementStops` | Compiler.java:225 | `Eof` or `}` ends the current block |
| `Programs.UnclosedDeclaration` | Compiler.java:172-175 | a declaration whose `}` is missing is closed by the end of input and still gets `return` and `.end method` |
| `Programs.SkippedOnly` | Compiler.java:116-141 | input made only of blanks and comments compiles to exactly the preamble: the first token is `Eof` and nothing is appended |
| `Programs.BlanksOnly` | Compiler.java:61-65 | input made only of blanks compiles to exactly the preamble |
| `Programs.TrailingCommentOnly` | Compiler.java:66 | input that is one comment with no newline compiles to exactly the preamble, the comment ending at the end of input (the loop as written does not end there; see Findings) |
| `LexerLoops.Iterate` | Compiler.java:45-52 | n `advance` calls from a position move it n places, or to the end of input if that comes first |
| `LexerLoops.LoopAsWrittenNeverEnds` | Compiler.java:66 | as written, a loop that only tests for its stop character, over input that has no stop character left, is still running after any number of iterations |
| `LexerLoops.CommentLoopNeverEnds` | Compiler.java:66 | as written, the comment loop over a `#` comment with no newline after it never ends |
| `LexerLoops.StringLoopTestNeverFails` | Compiler.java:103 | as written, the test of the string loop over a literal with no closing quote never becomes false, however many passes are made |

## Left out

- `Compiler.main` (Compiler.java:236-253): the argument check, reading the input file, writing `out.j` and the `IOException` handler are file I/O. `CompileSource` models lines 245-248 with the text as a parameter and the result returned.
- The diagnostics printed on `System.err` and the process exit on a syntax error are not modelled. Each error is a `Failure` status or an `Err` result carrying a `SyntaxError`, and generation stops there.
- `Token.toString` (Compiler.java:29-31) only builds a diagnostic message.
- The Jasmin assembler and the JVM that consume the output are foreign tools. Only the emitted text is modelled.
- The source never terminates on a `#` comment with no newline after it. On a string literal with no closing quote it keeps appending NUL characters until it fails with an `OutOfMemoryError`. The model ends both at the end of input instead: the comment runs to the end, and the string token holds the rest of the input. See Findings.
- `generateCode` calls itself once per nested `void` declaration (Compiler.java:173). Nesting deep enough to exhaust the Java stack ends the run with an uncaught `StackOverflowError` and no `out.j`; the model has no stack bound and always yields a result.
- `Programs.CompileRendered`: covers only the one spelling that `Source` gives a program, with no blanks or comments between tokens except the space after `void`. Other spacing is covered token by token: `LexAfterBlanks` and `LexAfterSkipped` say blanks and comments before a token do not change it, `StatementAfterSkipped` and `BlockAfterSkipped` say the same of statements and blocks, and `DeclarationOutcome`, `CallOutcome` and `PrintOutcome` state each form's outcome from its tokens wherever they lie.
- Java strings are sequences of UTF-16 code units; here a `string` is a sequence of Dafny `char`s. The difference shows only for a character outside the Basic Multilingual Plane: Java reads it as two surrogates and yields two `Illegal` tokens, the model yields one `Illegal` token holding the whole character, so only the lexeme in the `Unhandled` error, which stands for the diagnostic, differs.
- `Translation.CodeGen.GenerateCode`: after a syntax error it states only that the buffer was appended to and the cursor did not move back. The source exits at that point, so the partial buffer is never observed.
- `Translation.CodeGen.GenerateDeclaration`: after a syntax error it states only what `GenerateCode` states, for the same reason.
- `Translation.CodeGen.GenerateCall`: after a syntax error it states only what `GenerateCode` states, for the same reason.
- `Translation.CodeGen.GeneratePrintf`: after a syntax error it states only what `GenerateCode` states, for the same reason.
- The three statement branches of `generateCode` are separate methods here, each with its own contract. The loop, the recursion on `void` and the order of the appended lines are unchanged.

## Findings

| source | as written | input that shows it | evidently intended | confidence | as-written member | corrected member |
|---|---|---|---|---|---|---|
| Compiler.java:66 | the comment loop runs while `peek()` is not a newline; at the end of input `peek()` returns NUL and `advance()` does not move, so the loop never ends | `#` followed by end of input, with no newline | a comment at the end of the file ends there | high; not executed | `LexerLoops.CommentLoopNeverEnds` | `LexingFacts.SkipTrailingComment` |
| Compiler.java:103 | the string loop runs while `peek()` is not a double quote; at the end of input its test never becomes false and each pass appends one more NUL, so the run ends with an uncaught `OutOfMemoryError` and writes no output | `printf("abc` with no closing quote | an unterminated string ends at the end of input (or is reported) | high; not executed | `LexerLoops.StringLoopTestNeverFails` | `LexingFacts.StringToken` |
