# tmnsh line pipeline in Dafny

This project models the line-processing core of tmnsh, a small C shell. It
verifies the model with Dafny.

The shell reads its input one line at a time.

- **Reading** (`read_data`): `;`, a newline and the end of the stream end a line.
  `#` starts a comment. A line longer than the buffer is cut and its tail thrown away.
- **Skipping:** an empty line is skipped.
- **Tokenising** (`tokenise_input`): the line is cut at spaces, as repeated
  `strtok(…, " ")` cuts it. A line with more than `TOKARRAY_MAX_TOKENS` (513) tokens is refused.
- **Parsing** (`parse_tokens`):
  - the tokens are cut at `|` into commands, and an empty command is a syntax error;
  - a final `&` makes the expression a background one, but only when the last
    command has more than one argument;
  - the resulting expression is handed to the interpreter.

Modules, one per source file:

- `Wrappers` (wrappers.dfy): the `Option` type. A `None` slot stands for a NULL pointer.
- `Expressions` (expressions.dfy), for src/expression.c:
  - `command_t` and `expression_t` are classes over fixed arrays of slots;
  - each class carries a ghost field with the list it holds, which `Valid()`
    ties to the slots;
  - push, pop, create and destroy are methods with exact frames.
- `Tokeniser` (tokeniser.dfy), for src/parser.c lines 38-140:
  - `tokarray_t`, in the same shape;
  - the split specification (`Split`) with its proofs;
  - `Strtok` as a function;
  - the tokenising loop `TokeniseInput`.
- `Parser` (parser.dfy), for src/parser.c lines 157-221:
  - `Scan`/`Parse` describe the parser as a function of the token list, with lemmas
    on failure, success, round trip and bounds;
  - `ParseTokens` (split into `ParseCommands`, `ParseToken` and `FinishExpression`)
    builds the expression in place and is proved equal to `Parse`.
- `Shell` (shell.dfy), for src/tmnsh.c:
  - the input stream is a class over a `seq<char>`, with `Getc` standing for `fgetc`;
  - `ReadLine` says what one read stores and consumes;
  - the reader methods `ReadDataAsWritten` and `ReadData`;
  - the per-line pipeline, as the pure `ProcessLine` and as the method `RunLine`;
  - `MainLoop`, the read loop of `main_loop`, proved equal to `Session`.

A line that is just `&` is not an error. The strip at src/parser.c:198 needs a
last command with more than one argument, so `["&"]` parses as the one command
`["&"]` in the foreground (`Parser.ExampleLoneAmpersand`).

## Model

| member | source | states |
|---|---|---|
| Expressions.Command.constructor | src/expression.c:36-48 | a new command has no arguments, capacity COMMAND_MAX_ARGV, and every slot is NULL |
| Expressions.Command.ArgvPush | src/expression.c:73-87 | on a full command: status -1 and the arguments unchanged; otherwise status 0 and `arg` appended after the existing arguments, count + 1 |
| Expressions.Command.ArgvPop | src/expression.c:97-109 | on an empty command: status -1 and nothing changes; otherwise exactly the last argument is removed and its slot becomes NULL |
| Expressions.Command.Destroy | src/expression.c:56-62 | popping until empty leaves no argument and every slot NULL |
| Expressions.PushThenPop | src/expression.c:73-109 | a successful push followed by a pop restores the arguments and every slot; on a full command the pair removes the last argument |
| Expressions.Expression.constructor | src/expression.c:121-134 | a new expression is foreground, has no commands, capacity EXPRESSION_MAX_CMDS, and every slot is NULL |
| Expressions.Expression.CmdPush | src/expression.c:159-170 | on a full expression: status -1 and the state unchanged; otherwise the command becomes the last one, count + 1, earlier commands and the background flag untouched |
| Expressions.Expression.CmdPop | src/expression.c:181-193 | on an empty expression: status -1; otherwise only the last command is destroyed and removed, and the background flag is untouched |
| Expressions.Expression.Destroy | src/expression.c:142-148 | popping until empty leaves no command |
| Tokeniser.Tokarray.constructor | src/parser.c:38-50 | a new token array has no tokens, capacity TOKARRAY_MAX_TOKENS, and every slot is NULL |
| Tokeniser.Tokarray.TokenPush | src/parser.c:75-89 | at capacity: status -1 and the tokens unchanged; otherwise the token is appended and the count goes up by one |
| Tokeniser.Tokarray.TokenPop | src/parser.c:99-111 | on an empty array: status -1; otherwise exactly the last token is removed |
| Tokeniser.Tokarray.Destroy | src/parser.c:58-64 | popping until empty leaves no token |
| Tokeniser.SplitTokens | src/parser.c:128-133 | every token is non-empty and contains no space |
| Tokeniser.SplitDecomposes | src/parser.c:128-133 | a line is its tokens interleaved with runs of spaces; the inner runs are non-empty, so tokens are maximal |
| Tokeniser.SplitWeave | src/parser.c:128-133 | any line built from space-free tokens and separating runs of spaces splits back into exactly those tokens, in order |
| Tokeniser.SplitJoinSpaces | src/parser.c:128-133 | tokens joined by single spaces split back into the same tokens |
| Tokeniser.Strtok | src/parser.c:128-132 | one `strtok(…, " ")` call as a function: skips leading spaces, cuts the next token and steps over the space after it, or gives None when only spaces are left; its contract says the remaining text is shorter, and `Tokeniser.StrtokSplit` ties it to `Split` |
| Tokeniser.StrtokSplit | src/parser.c:128-132 | one strtok call returns NULL exactly when no token is left; otherwise it returns the first token of the split, and the rest of the split comes from what strtok leaves |
| Tokeniser.TokeniseInput | src/parser.c:124-140 | returns null exactly when the line has more than 513 tokens (513 succeeds); otherwise the array holds exactly the tokens of the split, in order |
| Parser.Scan | src/parser.c:171-186 | the loop of parse_tokens as a function of the tokens: it breaks only at a pipe token (the index it reports is one), and it ends with an empty current command only when the tokens end in a pipe token; `Parser.ScanSound` characterises it fully |
| Parser.Parse | src/parser.c:157-221 | parse_tokens as a function of the tokens: a syntax error names a pipe token, and a success has at least one command; `Parser.ParseFailure`, `Parser.ParseSuccess` and `Parser.ParseBounds` characterise it |
| Parser.ScanSound | src/parser.c:171-186 | the loop stops at the first pipe token that meets an empty command; otherwise it consumes all tokens, and the commands it collected, joined by pipe tokens, give the tokens back |
| Parser.ParseFailure | src/parser.c:163-208 | parsing fails exactly when there are no tokens (EmptyInput), some pipe token meets an empty command (error at that first pipe token), or the tokens end in a pipe token (error at the last token) |
| Parser.ParseSuccess | src/parser.c:171-211 | success gives at least one command, each with an argument and none containing a pipe token; joining with pipe tokens and adding back a stripped `&` gives the tokens; background holds exactly when the tokens end in `&` preceded by an argument |
| Parser.ParseBounds | src/parser.c:178-182 | with at most 513 tokens, no parse has more than 513 commands or 513 arguments per command, so the unchecked pushes never drop anything |
| Parser.ExamplePipeline | src/parser.c:171-211 | "ls", "-la", pipe, "wc", "-l" parses as two commands in the foreground |
| Parser.ExampleBackground | src/parser.c:197-201 | `sleep 5 &` parses as `["sleep","5"]` in the background |
| Parser.ExampleLoneAmpersand | src/parser.c:198-211 | a lone `&`, or `&` as the whole last command, stays a one-argument command in the foreground |
| Parser.ExampleDoublePipe | src/parser.c:173-176 | "ls", pipe, pipe, "wc" fails at token 2; "ls", pipe fails at token 1 |
| Parser.ParseToken | src/parser.c:173-184 | one loop pass: a pipe token after a non-empty command pushes it and starts a fresh one; a pipe token on an empty command breaks and changes nothing; another token is appended, all as `Scan` prescribes |
| Parser.ParseCommands | src/parser.c:171-186 | the loop ends in a break exactly where `Scan` breaks; otherwise it consumes every token and the expression and the current command hold what `Scan` finished with |
| Parser.FinishExpression | src/parser.c:197-211 | after the loop: the `&` strip, the empty-last-command error at token index-1 and the final push give exactly `Parse`'s result |
| Parser.ParseTokens | src/parser.c:157-221 | returns null exactly when `Parse` fails, with that error as the failure; otherwise a fresh valid expression whose commands and background flag are `Parse`'s |
| Shell.Stream.Getc | src/tmnsh.c:92-106 | `fgetc`: the first character of the stream, which it removes; once the stream is empty, EOF every time and the stream stays empty |
| Shell.ReadLine | src/tmnsh.c:86-114 | what one read_data call stores, leaves in the stream and reports, for a buffer that holds `cap` characters before the NUL: the text is at most `cap` and at most the stream long, a read that reports more shortens the stream, and a read that does not empties it; `Shell.ReadLineText` and `Shell.ReadLineConsumes` characterise it |
| Shell.ReadLineText | src/tmnsh.c:91-103 | the stored text is a prefix of the stream with no `;`, newline or `#`, at most the capacity long, and cut short only at such a character or at the end of the stream |
| Shell.ReadLineConsumes | src/tmnsh.c:105-113 | the stream is consumed through the first `;` or newline at or after the stop point, or to its end; more to read exactly when the terminator was not the end of the stream |
| Shell.ReadDataAsWritten | src/tmnsh.c:86-114 | the loop as written stores up to `bufferSize` characters, and the NUL goes to index `nulAt` = the stored length |
| Shell.ReadDataOverflow | src/tmnsh.c:91-103 | a line of `n` ordinary characters makes the as-written reader store `n` characters, so with buffer size `n` the NUL is written at index `n`, outside the buffer |
| Shell.SkipRest | src/tmnsh.c:105-113 | the second loop reads on to the first `;` or newline, or to the end, and reports whether the stream goes on |
| Shell.ReadData | src/tmnsh.c:86-114 | with the guard `bytes_read < buffer_size-1`: the buffer holds the stored text followed by a NUL inside the buffer, so at most `buffer_size-1` characters are stored, as the comment at src/tmnsh.c:73 promises; the stream and the flag are as `ReadLine` says |
| Shell.CStrOfTerminated | src/tmnsh.c:147-154 | the buffer after a read, read as a C string, is the stored text up to its first NUL |
| Shell.ProcessLine | src/tmnsh.c:147-168 | what main_loop does with one line, as a value: skipped exactly when the line is empty, executed only with at least one command; `Shell.ExecutedWellFormed` and `Shell.SpacesOnlyLine` characterise it |
| Shell.ExecutedWellFormed | src/tmnsh.c:154-171 | an executed expression has at least one command, none empty or containing a pipe token, at most 513 commands of at most 513 arguments; every argument is a space-free token of the line; joining with pipe tokens (plus a stripped `&`) gives the line's tokens |
| Shell.SpacesOnlyLine | src/tmnsh.c:147-168 | a non-empty line of spaces passes the empty check and fails to parse for having no tokens |
| Shell.RunLine | src/tmnsh.c:147-173 | the interpreter is called exactly when the line is non-empty, has at most 513 tokens and parses, and it is given `Parse`'s result |
| Shell.ReadAndRun | src/tmnsh.c:145-176 | one pass reads a line, runs it, and leaves the rest of the session to the rest of the stream; the stream shrinks when there is more to read |
| Shell.Session | src/tmnsh.c:139-176 | the expressions a whole stream hands to the interpreter, line by line; there are never more of them than characters in the stream; `Shell.SessionWellFormed` characterises them |
| Shell.MainLoop | src/tmnsh.c:139-176 | the expressions handed to the interpreter are exactly `Session` of the stream, and the whole stream is consumed |
| Shell.SessionWellFormed | src/tmnsh.c:139-176 | every expression a session executes has at least one command, and each command has an argument and no pipe token |

## Left out

- The interpreter, src/interpreter.c, is not part of this model. It forks,
  executes, waits and runs the builtins, including `quit`. Handing an expression
  to it is modelled only as recording that expression in the ghost result of
  `Shell.RunLine` and `Shell.MainLoop`.
- Signal handlers, `main`, the welcome text, the prompt with `getcwd`, and the
  interactive/file choice are operating-system plumbing and are not modelled.
- Every `printf` diagnostic is left out. The parser's message becomes its `failure` value.
- Memory management:
  - `malloc`, `free` and the copy made by `strdup` become owned string values;
  - the destroy methods only empty the containers;
  - the leaks the source has are not modelled: the expression at src/parser.c:207,
    the token array at src/parser.c:136, and the token array after a successful
    parse at src/tmnsh.c:171.
- `char` versus `EOF` signedness in read_data: `Getc` returns a separate
  `EndOfFile` value, so a 0xFF byte is not mistaken for the end of the stream.
- `strcpy` into `last_line`, and the `bzero` calls after each line, matter only
  for the diagnostics and are not modelled. The buffer is zeroed once when it is created.
- The last check in parse_tokens, `expr->num_cmds < 1` at src/parser.c:214-218,
  cannot be reached after a successful push. It has no branch in the model.
- Shell.ReadData: this is the reader with the corrected bound, and `Shell.MainLoop` uses it.
  - It requires a buffer of at least two characters. With one, the source's storing
    loop would not read at all and `character` would be read uninitialised.
  - The as-written reader is modelled separately as `Shell.ReadDataAsWritten`, over a
    sequence instead of an array, because it writes one place past the end of the array.
- Shell.MainLoop: the list of executed expressions is ghost, because the model
  keeps the contents of the containers in ghost fields.
  - The interpreter always returns here, so the loop reads the whole stream.
  - In the shell, a line that runs the `quit` builtin ends the process
    (src/interpreter.c:81-82), and the lines after it are never read.
  - `Shell.MainLoop` and `Shell.Session` describe a stream without such a line.
- The stream is a sequence of `char`, and each `char` stands for one byte as
  `fgetc` returns it. No character decoding is modelled, so the buffer bounds
  count bytes.

## Findings

| source | as written | input that shows it | evidently intended | confidence | as-written member | corrected member |
|---|---|---|---|---|---|---|
| src/tmnsh.c:91 | the storing loop runs while `bytes_read <= buffer_size-1`, so it stores up to `buffer_size` characters and writes the NUL at `buffer[buffer_size]`, one past the buffer | a line of 4097 ordinary characters followed by a newline, read into the 4097-byte buffer of main_loop | at most `buffer_size-1` characters and the NUL inside the buffer, as the comment at src/tmnsh.c:73 promises (guard `bytes_read < buffer_size-1`) | high; not executed | Shell.ReadDataOverflow | Shell.ReadData |
