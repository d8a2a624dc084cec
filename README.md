# Neko interpreter, modelled in Dafny

Neko is a small interpreted language written in Rust. A program is plain text, and the
interpreter (`Interpreter::run`, src/interpreter.rs) splits it into whitespace-separated
words. It then walks them with one cursor and dispatches on each keyword. There are 25
keywords (`Lexeme::from_str`, src/lexeme.rs) and six comparison operators
(`Comparison::from_str`). The interpreter keeps six tables and an output stream
(src/interpreter.rs:40-47). The model keeps five of the tables and leaves the `float` table
(src/interpreter.rs:43) out:
- i32 variables;
- i32 arrays;
- strings;
- structs of i32 fields;
- functions (parameters and recorded code).

This project models that core in six modules:

- `Lexemes`: the keyword and comparison tables, with their inverses. The lemmas show each
  table is a bijection that rejects every other string.
- `Lexer`: `split_whitespace` and `join(" ")`. Joining words and splitting the text again
  gives the words back.
- `Int32`: i32 arithmetic.
  - `/` rounds toward zero.
  - `abs`, `pow` and `as u32` behave as in a debug build.
  - `str::parse` for i32 and usize.
  - `Display`, which round-trips through `parse`.
- `Semantics`: every statement of `run` as a function.
  - A statement takes the words, a cursor and the tables, and gives an `Exit`: the new
    tables, the new cursor, and `Done` or `Fail(error)`.
  - Each `unwrap`, `panic!`, failing index or overflow of the source is a `Fail`. The
    tables keep what the source leaves behind at that point, printed lines included.
  - Block bodies inside `if`, `loop`, `function … with` and `call` accept only the
    statements each of them matches in the source.
  - Inside a loop body, `sub`/`mul`/`div` take their operands from the loop's own cursor,
    as the source does.
  - A true `if` condition runs the then-branch up to the first `else` or `end`. After an
    `else`, the top level goes on to run the else-body as well.
  - A false condition skips to the first `else` or `end`. After `else`, it runs the words up
    to the next `end`.
- `Neko`: the `Interpreter` class, with the tables as fields. Each statement is a method
  that updates those fields with loops mirroring the source's `while let` loops. Each
  method is proved to produce exactly the state and cursor that its `Semantics` function
  describes. `Run` and `CallFunction` are the two public entry points.
- `Properties`: what the statements mean, proved about `Semantics` and so about the
  methods.
- `Examples`: the programs of tests/interpreter_test.rs, run through the semantics, with
  the output each test expects.

Three things are parameters of the model rather than part of it:
- The output stream is the list of lines written (`output`).
- The iteration order of a struct's `HashMap` is a `KeyOrder` parameter: any function that
  lists each key of a map exactly once.
- `fuel` bounds the total number of loop passes.

## Model

| member | source | states |
|---|---|---|
| Lexemes.LexemeOf | src/lexeme.rs:31-60 | a recognised word is the spelling of the keyword it maps to |
| Lexemes.LexemeOfSpelling | src/lexeme.rs:33-57 | every one of the 25 keywords is recognised as itself |
| Lexemes.LexemeOfInjective | src/lexeme.rs:33-57 | two words mapping to the same keyword are the same word |
| Lexemes.LexemeOfRejects | src/lexeme.rs:58 | a word is rejected (the panic) exactly when it spells no keyword |
| Lexemes.ComparisonOf | src/lexeme.rs:72-84 | a recognised operator is the symbol of the comparison it maps to |
| Lexemes.ComparisonOfSymbol | src/lexeme.rs:75-80 | each of the six operators is recognised as itself |
| Lexemes.ComparisonOfRejects | src/lexeme.rs:81 | a word is rejected exactly when it spells no operator |
| Lexemes.KeywordsAreNotOperators | src/interpreter.rs:20-32 | no word is both a keyword and a comparison operator (the copy of the operator table in interpreter.rs is the same table) |
| Lexer.Tokenize | src/interpreter.rs:77 | the words of the text are non-empty and free of whitespace |
| Lexer.TokenizeJoin | src/interpreter.rs:490 | splitting words joined by single spaces gives the same words back, so `call_function`'s join and re-split of the code keeps the code |
| Lexer.JoinSnoc | src/interpreter.rs:100-104 | appending a word to the text adds one space and the word |
| Lexer.JoinSpaced | src/interpreter.rs:100-105 | pushing each word plus a space and then popping the last character gives the words joined by single spaces, and the text is empty exactly when there are no words |
| Lexer.SplitWord | src/interpreter.rs:77 | a stretch without whitespace only extends the word being read |
| Int32.ParseI32 | src/interpreter.rs:82 | a parsed literal is an i32 |
| Int32.ParseUsize | src/interpreter.rs:87 | a parsed size is at most 2^64 - 1 |
| Int32.QuotIsTruncated | src/interpreter.rs:432 | `a / b` is the quotient rounded toward zero: its remainder has the dividend's sign and is smaller than the divisor |
| Int32.QuotUnique | src/interpreter.rs:432 | the truncated quotient is the only value with that remainder condition |
| Int32.RemainderUnique | src/interpreter.rs:432 | two quotients that both meet the remainder condition are equal |
| Int32.TruncatedFromParts | src/interpreter.rs:432 | the quotient of the magnitudes, with the sign of the operands restored, is the truncated quotient |
| Int32.NatToStringDigits | src/interpreter.rs:177 | an index prints as a non-empty string of digits denoting that index |
| Int32.ParseRendered | src/interpreter.rs:173 | parsing the printed form of an i32 gives the same value |
| Int32.RenderingInjective | src/interpreter.rs:173 | distinct i32 values print differently |
| Int32.AsU32 | src/interpreter.rs:472 | `as u32` keeps non-negative i32 values and adds 2^32 to negative ones |
| Semantics.Arith | src/interpreter.rs:411-434 | a successful add/sub/mul/div gives an i32 |
| Semantics.VarStmt | src/interpreter.rs:80-84 | `var` stays within the words, changes only the integer table and stores only i32 values |
| Semantics.PrintInt | src/interpreter.rs:266-269 | `print` in a block body only appends to the output and changes no table |
| Semantics.UpdateStmt | src/interpreter.rs:411-434 | add/sub/mul/div change only the integer table, keeping it i32 |
| Semantics.AbsStmt | src/interpreter.rs:464-468 | `abs` changes only the integer table, keeping it i32 |
| Semantics.PowStmt | src/interpreter.rs:469-474 | `pow` changes only the integer table, keeping it i32 |
| Semantics.ReadInts | src/interpreter.rs:89-92 | reading `n` literals succeeds only when `n` words remain |
| Semantics.ReadIntsSucceeds | src/interpreter.rs:89-92 | reading succeeds exactly when the `n` words exist and each is an i32 literal |
| Semantics.ReadIntsValues | src/interpreter.rs:89-92 | the values read are the words parsed, in order, after those already read |
| Semantics.ReadIntsParsed | src/interpreter.rs:88-92 | from an empty array, the i-th value is the i-th word parsed |
| Semantics.ReadIntsInRange | src/interpreter.rs:88-92 | every value read is an i32 |
| Semantics.ArrayStmt | src/interpreter.rs:85-94 | `array` stays within the words and stores only i32 values |
| Semantics.StringWords | src/interpreter.rs:98-104 | the literal's scan stays within the words, and reads no more words than remain |
| Semantics.StringWordsSpan | src/interpreter.rs:98-104 | the literal is the run of words from the cursor up to the first `endstring`, which is consumed; without one, it runs to the end of the input |
| Semantics.StringStmt | src/interpreter.rs:95-107 | `string` stays within the words and keeps the integers i32 |
| Semantics.StructFields | src/interpreter.rs:161-167 | the field scan stays within the words, keeps the fields already read and adds only i32 values |
| Semantics.StructStmt | src/interpreter.rs:158-169 | `struct` stays within the words and stores only i32 fields |
| Semantics.BodyStmt | src/interpreter.rs:257-295 | a block-body statement that succeeds moves the cursor forward, and it changes only the integers and the output |
| Semantics.Branch | src/interpreter.rs:252-296 | a branch that finishes stops just after its `end` (or `else`), changing only the integers and the output |
| Semantics.SkipToElse | src/interpreter.rs:297-353 | skipping a false branch changes only the integers and the output |
| Semantics.ReadCondition | src/interpreter.rs:240-251 | a condition takes three words, and its variable is the first |
| Semantics.IfStmt | src/interpreter.rs:239-354 | `if` changes only the integers and the output, keeping them i32 |
| Semantics.StolenOp | src/interpreter.rs:388-405 | exactly `sub`, `mul` and `div` take their operands from the loop's cursor |
| Semantics.LoopPass | src/interpreter.rs:367-408 | a pass changes only the integers and the output, and moves the loop's cursor only forward |
| Semantics.LoopRun | src/interpreter.rs:359-409 | passes that finish leave the condition false; they change only the integers and the output |
| Semantics.LoopStmt | src/interpreter.rs:355-410 | `loop` changes only the integers and the output, keeping them i32 |
| Semantics.WithBody | src/interpreter.rs:121-146 | the body after `with` only adds parameters and changes only the integers and the output |
| Semantics.CollectCode | src/interpreter.rs:117-156 | a declaration writes only `functions[NAME]`, besides what its body does to the integers and the output |
| Semantics.FunctionStmt | src/interpreter.rs:113-157 | `function` stays within the words and keeps the integers i32 |
| Semantics.BindArguments | src/interpreter.rs:212-217 | binding adds exactly the first `|args|` parameters to the locals |
| Semantics.CallBody | src/interpreter.rs:218-237 | a called body changes only the integers and the output |
| Semantics.CallStmt | src/interpreter.rs:207-237 | `call` changes only the integers and the output, keeping them i32 |
| Semantics.PrintStmt | src/interpreter.rs:170-193 | top-level `print` only appends to the output and changes no table |
| Semantics.Step | src/interpreter.rs:78-477 | a top-level statement that succeeds moves the cursor forward and only appends to the output |
| Semantics.RunFrom | src/interpreter.rs:77-478 | a run that succeeds has consumed every word; a run only appends to the output |
| Properties.VarDeclares | src/interpreter.rs:80-84 | `var N v` succeeds exactly when both words exist and `v` is an i32 literal, and then only `N` changes, to `v` |
| Properties.ArrayDeclares | src/interpreter.rs:85-94 | `array` writes only `arrays[N]` and consumes exactly the size and `n` values; on failure nothing changes |
| Properties.ArrayContents | src/interpreter.rs:87-93 | the array stored has exactly `n` values, the i-th parsed from the i-th word after the size |
| Properties.StringDeclares | src/interpreter.rs:95-107 | `string` always succeeds and writes only `strings[N]`; the text's words are exactly the words before `endstring`, and it is empty exactly when there are none |
| Properties.StringPrintsBack | src/interpreter.rs:188 | a declared string prints as one line whose words are the declared words |
| Properties.StructFieldsOrigin | src/interpreter.rs:161-167 | every stored field was already present or was written as a `FIELD VALUE` pair before the terminator |
| Properties.StructFieldsComplete | src/interpreter.rs:161-167 | every `FIELD VALUE` pair before the terminator is stored, and the last pair naming a field gives its value |
| Properties.StructDeclares | src/interpreter.rs:158-169 | `struct` writes only `structs[N]`, and each field comes from a pair in the text |
| Properties.StructStoresEveryPair | src/interpreter.rs:158-169 | a declared struct holds every field written in its pairs, with the last value written for it |
| Properties.EnumerationSize | src/interpreter.rs:184-186 | a list naming each key once is as long as the map |
| Properties.StructLines | src/interpreter.rs:182-187 | a struct prints one `N.f = v` line per field, each field once, whatever the iteration order |
| Properties.PrintMeaning | src/interpreter.rs:170-193 | top-level `print N` succeeds exactly when `N` is present and some table holds it; then it appends exactly the lines `PrintLines` gives and moves past `N`; on failure nothing changes |
| Properties.PrintIntMeaning | src/interpreter.rs:266-269 | block-body `print N` succeeds exactly when `N` is a declared integer; then it appends that value's decimal line and moves past `N`; on failure nothing changes |
| Properties.PrintProbe | src/interpreter.rs:170-193 | `print N` answers from the integers, arrays, structs and strings, probed in that order, with the source's line formats, and fails exactly when no table holds `N` |
| Properties.UpdateMeaning | src/interpreter.rs:411-434 | add/sub/mul/div succeed exactly when both names exist, the divisor is not zero and the exact result is an i32; then only the first name changes, to the result; otherwise the error says why |
| Properties.DivisionTruncates | src/interpreter.rs:429-434 | `div` stores the quotient rounded toward zero |
| Properties.ArithmeticEdges | src/interpreter.rs:429-468 | `i32::MIN / -1` overflows, a zero divisor is its own error, and `|i32::MIN|` is not an i32 |
| Properties.AbsMeaning | src/interpreter.rs:464-468 | `abs N` replaces `N` by its magnitude and fails exactly on `i32::MIN` |
| Properties.PowMeaning | src/interpreter.rs:469-474 | `pow a b` stores `a` raised to `b as u32`, failing exactly when that is not an i32 |
| Properties.IfChooses | src/interpreter.rs:239-354 | `if` runs the then-branch exactly when the comparison of the variable with the literal holds, and otherwise skips to the else-branch |
| Properties.IfRejects | src/interpreter.rs:241-251 | an unknown operator and an undeclared variable are errors, and nothing changes |
| Properties.SkipWithoutElse | src/interpreter.rs:297-301 | a false condition with no `else` before the next `end` runs nothing and consumes the `end` |
| Properties.SkipRunsElse | src/interpreter.rs:302-347 | a false condition runs exactly the words after the first `else` |
| Properties.InertBranch | src/interpreter.rs:252-296 | a branch made only of non-keywords changes nothing and ends after its terminator |
| Properties.LoopExitsOnFalse | src/interpreter.rs:359-366 | a loop that finishes leaves its condition false |
| Properties.PassKeepsCursor | src/interpreter.rs:367-408 | with no `sub`/`mul`/`div` anywhere to the end of the input, a pass leaves the loop's cursor where it was |
| Properties.RunKeepsCursor | src/interpreter.rs:359-409 | with no `sub`/`mul`/`div` anywhere to the end of the input, any number of passes leave the cursor where it was |
| Properties.LoopLeavesCursorAtBody | src/interpreter.rs:355-410 | after such a loop, the top level resumes at the start of the body, so the body runs once more |
| Properties.CodeRecorded | src/interpreter.rs:117-149 | the recorded code is exactly the run of words from the cursor up to the first `with`, `end` or the end of the input |
| Properties.CodeEndsHere | src/interpreter.rs:118-156 | at `with`, `end` or the end of the input, the code collected so far is what is recorded |
| Properties.CodeStopsAtBody | src/interpreter.rs:117-149 | the recorded code contains no `with` and no `end` |
| Properties.BodyKeywords | src/interpreter.rs:121-146 | the first words of a body's statements up to `end`, none of them `end` and no more of them than words |
| Properties.WithBodyStep | src/interpreter.rs:121-146 | a failing body statement ends the declaration with its error; a succeeding one takes exactly its width and adds its first word as a parameter |
| Properties.WithBodyParameters | src/interpreter.rs:121-146 | the parameters recorded are the first word of each body statement, one per statement, in order |
| Properties.WithBodyParametersInBody | src/interpreter.rs:121-146 | each parameter recorded is a word of the body, which ends within the input |
| Properties.CallMeaning | src/interpreter.rs:207-237 | `call N` on a declared function takes one argument word per parameter (fewer if the words run out) and leaves the surplus to the top level; it succeeds exactly when those words are i32 literals and the code runs without error, and then the tables are those the code leaves; a bad argument changes nothing |
| Properties.CallUnfolds | src/interpreter.rs:207-237 | `call` fails with the binding's error, or runs the code with the bound locals and resumes after the arguments only on success |
| Properties.LocalsAreInert | src/interpreter.rs:218-237 | the called body never reads the bound parameters: the result does not depend on them |
| Properties.ArgumentsParse | src/interpreter.rs:212-217 | binding succeeds exactly when every argument word is an i32 literal, and a failure is the error of one of them |
| Properties.ArgumentsBound | src/interpreter.rs:212-217 | each parameter holds the value parsed from the argument of its last occurrence, so a repeated name keeps the last binding |
| Properties.RetainsEarlierBinding | src/interpreter.rs:212-217 | names not among the bound parameters keep their values |
| Properties.ZipBinds | src/interpreter.rs:485-489 | `call_function` binds the first `min(#parameters, #args)` parameters pairwise, the last occurrence of a repeated name winning |
| Properties.ZipKeys | src/interpreter.rs:485-489 | the variables afterwards are those before plus exactly the first `min(#parameters, #args)` parameters |
| Properties.ZipKeeps | src/interpreter.rs:485-489 | a variable that is not among the bound parameters keeps its value |
| Properties.TopLevelWords | src/interpreter.rs:475-476 | `end` at the top level does nothing; any other word that starts no statement stops the run with an error |
| Properties.Passes | src/interpreter.rs:77-478 | a run that reaches a statement boundary has not gone past the end of the words |
| Properties.RunComposes | src/interpreter.rs:77-478 | once a run reaches a statement boundary, the rest of it is the run from that boundary with the tables and fuel it has there |
| Properties.RunStopsAtFailure | src/interpreter.rs:77-478 | a run ends with the first failing statement it reaches, with the tables as that statement left them |
| Properties.RunKeepsTypes | src/interpreter.rs:76-481 | a run from a well-typed interpreter stores only i32 values |
| Properties.ZipBindInRange | src/interpreter.rs:485-489 | binding i32 arguments over i32 variables leaves only i32 variables |
| Properties.HostCallTyped | src/interpreter.rs:482-493 | `call_function` with i32 arguments starts the callee from well-typed tables, and the callee's run keeps them well typed |
| Properties.FreshIsTyped | src/interpreter.rs:64-74 | a new interpreter's tables hold only i32 values |
| Properties.OutputOnlyGrows | src/interpreter.rs:76-481 | a run only appends lines to the output |
| Neko.Interpreter.constructor | src/interpreter.rs:64-74 | a new interpreter has every table empty and nothing written |
| Neko.Interpreter.ExecVar | src/interpreter.rs:80-84 | executes `var` in place, with the state and cursor `VarStmt` gives |
| Neko.Interpreter.ExecPrintInt | src/interpreter.rs:266-269 | block-body `print`, as `PrintInt` gives |
| Neko.Interpreter.ExecUpdate | src/interpreter.rs:411-434 | add/sub/mul/div in place, as `UpdateStmt` gives |
| Neko.Interpreter.ExecAbs | src/interpreter.rs:464-468 | `abs` in place, as `AbsStmt` gives |
| Neko.Interpreter.ExecPow | src/interpreter.rs:469-474 | `pow` in place, as `PowStmt` gives |
| Neko.Interpreter.ExecArray | src/interpreter.rs:85-94 | `array` in place, as `ArrayStmt` gives |
| Neko.Interpreter.ReadValues | src/interpreter.rs:89-92 | the value loop of `array` returns what `ReadInts` gives |
| Neko.Interpreter.ExecString | src/interpreter.rs:95-107 | `string` with its word loop, push and pop, as `StringStmt` gives |
| Neko.Interpreter.ExecStruct | src/interpreter.rs:158-169 | `struct` with its field loop, as `StructStmt` gives |
| Neko.Interpreter.ExecBodyStmt | src/interpreter.rs:257-295 | one block-body statement, as `BodyStmt` gives |
| Neko.Interpreter.ExecBranch | src/interpreter.rs:252-296 | the then-branch loop, as `Branch` gives |
| Neko.Interpreter.ExecSkipToElse | src/interpreter.rs:297-353 | the else-branch loop, as `SkipToElse` gives |
| Neko.Interpreter.ExecIf | src/interpreter.rs:239-354 | `if`, as `IfStmt` gives |
| Neko.Interpreter.ExecLoopPass | src/interpreter.rs:367-408 | one pass over a cloned cursor, as `LoopPass` gives |
| Neko.Interpreter.ExecLoop | src/interpreter.rs:355-410 | the loop of passes, as `LoopStmt` gives |
| Neko.Interpreter.ExecFunction | src/interpreter.rs:113-157 | `function` with its code and body loops, as `FunctionStmt` gives |
| Neko.Interpreter.ExecCall | src/interpreter.rs:207-237 | `call`, as `CallStmt` gives |
| Neko.Interpreter.Bind | src/interpreter.rs:212-217 | the `zip` loop of `call` returns what `BindArguments` gives |
| Neko.Interpreter.ExecPrint | src/interpreter.rs:170-193 | top-level `print`, as `PrintStmt` gives |
| Neko.Interpreter.PrintArray | src/interpreter.rs:174-179 | writes one `N[i] = v` line per element, in index order, and changes nothing else |
| Neko.Interpreter.PrintFields | src/interpreter.rs:182-187 | writes one `N.f = v` line per field, in the map's iteration order, and changes nothing else |
| Neko.Interpreter.ExecStatement | src/interpreter.rs:78-477 | one top-level statement, as `Step` gives |
| Neko.Interpreter.ExecTokens | src/interpreter.rs:77-478 | the top-level loop, as `RunFrom` gives |
| Neko.Interpreter.Run | src/interpreter.rs:76-481 | `run` leaves the state and outcome `RunSource` gives |
| Neko.Interpreter.CallFunction | src/interpreter.rs:482-493 | `call_function` fails on an unknown name; otherwise a fresh interpreter holding only the zipped parameters runs the code joined with spaces, and its lines and outcome are returned as `InvokeFunction` gives, leaving this interpreter unchanged |
| Examples.AddProgram | tests/interpreter_test.rs:45-61 | the integer part of `test_add_variables` prints `16` |
| Examples.StringProgram | tests/interpreter_test.rs:29-43 | `test_create_variables`, without the float, prints `5` and `I am a string` |
| Examples.FunctionProgram | tests/interpreter_test.rs:63-78 | `test_function_without_parameters` prints `11`, from the body run at declaration, from any state |
| Examples.StructProgram | tests/interpreter_test.rs:80-97 | `test_struct` prints exactly the two lines `game_scores.team_a = 5` and `game_scores.team_b = 3`, in either order |
| Examples.LoopProgram | tests/interpreter_test.rs:99-114 | `test_loop` prints `9`, from any state and with any fuel from five passes on |

## Left out

- Floating point: `float`, `add_f`/`sub_f`/`mul_f`/`div_f` and `sqrt` (src/interpreter.rs:108-112, 435-463). These statements give `Unmodelled`. There is no float table, so the float probe of `print` (180-181) never answers. The two tests that use floats appear in `Examples` with those lines removed.
- Output stream: `writeln!` errors and the `io::Stdout` of `Interpreter::new` are left out. Output is a list of lines, and a failed write cannot happen here.
- Whitespace: the `Lexer` recognises the ASCII whitespace characters only. `split_whitespace` also splits on Unicode spaces.
- `str::parse` is modelled as an optional sign followed by decimal digits, within range.
- `HashMap` iteration order is a parameter (`KeyOrder`). The model does not fix it, and every property about printing structs holds for every such order. A `KeyOrder` gives the order as a function of the map's contents alone. A Rust `HashMap`'s order also depends on each map's randomly seeded hasher and on its insertion history, so two equal maps may list their keys differently. No property proved here relies on equal maps listing alike.
- Semantics.LoopRun: loop passes are bounded by `fuel`. A loop that would run longer ends in `OutOfFuel`, so a non-terminating loop of the source is not modelled as running forever.
- Semantics.PowStmt: a negative exponent is not rejected: `b as u32` (src/interpreter.rs:472) turns it into 2^32 + b, and the model does the same.
- Panics are errors: each `unwrap`, index or overflow panic is a `Fail` outcome, carrying the tables as they were at that point. For add, sub, mul, abs and pow, overflow is the debug-build panic; a release build would wrap instead, and that is not modelled. Division by zero and `i32::MIN / -1` (src/interpreter.rs:432) panic in every build profile.
- `Vec::with_capacity(size)` in `array` is not modelled. An absurd size therefore fails for lack of words, not for lack of memory.
- The commented-out alternative of `call` (src/interpreter.rs:195-205) is dead code and is not modelled.
- src/main.rs reads a file and calls `run`. It is not part of this model.
