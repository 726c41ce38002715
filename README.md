# A model of wasmer's spec-test generator

At build time, `lib/spectests/build/spectests.rs` turns each WebAssembly
spec script listed in `TESTS` into a Rust test module. `build` first
writes a common preamble. That preamble includes the `NaNCheck` trait,
which classifies the bit patterns of `f32` and `f64` NaNs. Then, for
every script, `generate_spectest` runs a `WastTestGenerator` over the
script's command stream.

The generator is a state machine with these fields: the number of the
last module, the current line, a command counter, a table of calls
pending for each module, and an output buffer. The calls are batched per
module. When the next module starts, or when the stream ends, they are
flushed into one `test_module_N` test. Scripts of more than 200 commands
("fat tests") produce no module.

The project models this in Dafny.

- `Decimal`: the integer text `{:?}` prints, with a parser as its partner.
- `NaNCheck`: the bit-level NaN predicates.
- `ValueCodec`: the `wabt2rust_*` value codec, with a reader that proves each literal reads back as the value it came from.
- `Escape`: the escaping of module text into a Rust string literal, and its inverse.
- `Script`: commands, the generated names and their injectivity, the generated code as structured fragments, and `Registrations`. `Registrations` specifies which calls each module's batch holds.
- `Visit`: what visiting one command does to the state.
- `StreamInvariant`: the invariant kept after every command, and what the buffer holds at the end.
- `Linking`: what the generated code refers to. Every batched call and every trap test's action is a defined function, and exactly modules 1 to N get their factory and start hook, in order.
- `Generator`: the class `WastTestGenerator`. Its methods update its fields in place.
- `Build`: the test name taken from a path, `generate_spectest` and `build` over an output file object.

Some collaborators are parameters of the model:

- the disassembler `wasm2wat`. A binary it rejects is a panic, which the methods report as `ok == false`.
- the float `{:?}` formatter, `FloatFormat`, and a reader for it, `FloatReader`.
- the already-parsed command stream of each script.

## Model

| member | source | states |
|---|---|---|
| NaNCheck.IsNaN32 | lib/spectests/build/spectests.rs:132 | `f32::is_nan`: the exponent is all ones and the mantissa non-zero, which holds exactly when the magnitude bits exceed 0x7F800000 |
| NaNCheck.IsInfinite32 | lib/spectests/build/spectests.rs:192 | `f32::is_infinite`: holds exactly when the magnitude bits are 0x7F800000 |
| NaNCheck.IsSignNegative32 | lib/spectests/build/spectests.rs:193 | `f32::is_sign_negative`: the sign bit is set, i.e. the bit pattern is at least 0x80000000 |
| NaNCheck.IsQuietNaN32 | lib/spectests/build/spectests.rs:130-133 | true exactly when the exponent is all ones and the mantissa's top (quiet) bit is set; every quiet NaN is a NaN |
| NaNCheck.IsCanonicalNaN32 | lib/spectests/build/spectests.rs:136-140 | true exactly for a NaN whose mantissa is just the quiet bit, i.e. exactly the bit patterns 0x7FC00000 and 0xFFC00000; every canonical NaN is quiet |
| NaNCheck.IsNaN64 | lib/spectests/build/spectests.rs:147 | `f64::is_nan`: holds exactly when the magnitude bits exceed 0x7FF0000000000000 |
| NaNCheck.IsInfinite64 | lib/spectests/build/spectests.rs:206 | `f64::is_infinite`: holds exactly when the magnitude bits are 0x7FF0000000000000 |
| NaNCheck.IsSignNegative64 | lib/spectests/build/spectests.rs:207 | `f64::is_sign_negative`: the bit pattern is at least 0x8000000000000000 |
| NaNCheck.IsQuietNaN64 | lib/spectests/build/spectests.rs:145-148 | true exactly when the 11-bit exponent is all ones and mantissa bit 51 is set; every quiet NaN is a NaN |
| NaNCheck.IsCanonicalNaN64AsWritten | lib/spectests/build/spectests.rs:151-156 | the f64 check as written accepts exactly 0xFFF8000000000000 and 0x8FF8000000000000 |
| NaNCheck.AsWrittenRejectsPositiveCanonicalNaN | lib/spectests/build/spectests.rs:151-156 | 0x7FF8000000000000 is a NaN with only the quiet bit, yet the check as written rejects it |
| NaNCheck.AsWrittenAcceptsNonNaN | lib/spectests/build/spectests.rs:151-156 | the check as written accepts 0x8FF8000000000000, which is neither a NaN nor an infinity |
| NaNCheck.IsCanonicalNaN64 | lib/spectests/build/spectests.rs:151-156 | the evident intent: true exactly for a NaN whose mantissa is just the quiet bit, i.e. 0x7FF8000000000000 and 0xFFF8000000000000; every canonical NaN is quiet |
| ValueCodec.TypeName | lib/spectests/build/spectests.rs:160-167 | the type name is "i32", "i64", "f32" or "f64" exactly when the value has that type |
| ValueCodec.TypeDestructure | lib/spectests/build/spectests.rs:169-176 | the pattern `Value::<T>(<placeholder>)` reads back as the value's type and the placeholder |
| ValueCodec.DestructureInjective | lib/spectests/build/spectests.rs:169-176 | two equal patterns name the same type and the same placeholder |
| ValueCodec.IsNaN | lib/spectests/build/spectests.rs:178-185 | integers are never NaN; a float is NaN exactly when its exponent is all ones and its mantissa is non-zero |
| ValueCodec.ValueLiteral | lib/spectests/build/spectests.rs:221-253 | the literal `Value::<T>(...)` names the value's own type |
| ValueCodec.InfinityText | lib/spectests/build/spectests.rs:191-211 | an infinity is printed as `fNN::INFINITY`, or as `fNN::NEG_INFINITY` when the sign bit is set |
| ValueCodec.ReadCastText | lib/spectests/build/spectests.rs:189-190 | an integer printed with its `as iNN` cast reads back as that integer |
| ValueCodec.ReadFromBitsText | lib/spectests/build/spectests.rs:198-213 | `fNN::from_bits(<n>)` reads back as `n` |
| ValueCodec.BareNaN32 | lib/spectests/build/spectests.rs:198-200 | an f32 NaN is printed through its raw bits and reads back as the same bits, payload and sign included |
| ValueCodec.BareNaN64 | lib/spectests/build/spectests.rs:212-213 | an f64 NaN is printed through its raw bits and reads back as the same bits |
| ValueCodec.BareInf32 | lib/spectests/build/spectests.rs:192-197 | an f32 infinity reads back as itself |
| ValueCodec.BareInf64 | lib/spectests/build/spectests.rs:206-211 | an f64 infinity reads back as itself |
| ValueCodec.BareFinite32 | lib/spectests/build/spectests.rs:201-202 | a finite f32 printed with `{:?}` reads back as itself when the float reader inverts the formatter |
| ValueCodec.BareFinite64 | lib/spectests/build/spectests.rs:214-215 | a finite f64 printed with `{:?}` reads back as itself under the same condition |
| ValueCodec.BareRoundTrip | lib/spectests/build/spectests.rs:187-219 | every value, printed bare, reads back as that value at its type |
| ValueCodec.LiteralRoundTrip | lib/spectests/build/spectests.rs:221-253 | every value, printed as a `Value::` literal, reads back as that value |
| Decimal.NatText | lib/spectests/build/spectests.rs:189-190 | the text of a natural number is a non-empty string of digits, one digit long exactly below ten |
| Decimal.IntText | lib/spectests/build/spectests.rs:189-190 | the text of an integer is non-empty and starts with '-' exactly when the integer is negative |
| Decimal.ParseNat | lib/spectests/build/spectests.rs:189-190 | the parser accepts exactly the non-empty digit strings |
| Decimal.NatTextValue | lib/spectests/build/spectests.rs:189-190 | the digits printed for n denote n |
| Decimal.ParseNatText | lib/spectests/build/spectests.rs:189-190 | parsing the text of n gives n back |
| Decimal.ParseIntText | lib/spectests/build/spectests.rs:189-190 | parsing the text of an integer, with its sign, gives it back |
| Decimal.NatTextInjective | lib/spectests/build/spectests.rs:316-318 | two different numbers never print the same text |
| Escape.ReplaceChar | lib/spectests/build/spectests.rs:366-368 | `replace` of a character that does not occur leaves the text unchanged |
| Escape.ReplaceCharAppend | lib/spectests/build/spectests.rs:366-368 | replacement distributes over concatenation |
| Escape.ReplaceCharLength | lib/spectests/build/spectests.rs:366-368 | each occurrence grows the text by the replacement's length minus one |
| Escape.EscapeModuleText | lib/spectests/build/spectests.rs:366-368 | text without newlines, backslashes or quotes is embedded unchanged |
| Escape.UnescapeEscape | lib/spectests/build/spectests.rs:367-368 | doubling backslashes and then escaping quotes is undone by reading the Rust string literal |
| Escape.DedentIndent | lib/spectests/build/spectests.rs:366 | the indentation after each newline can be removed again |
| Escape.ModuleTextRoundTrip | lib/spectests/build/spectests.rs:354-368 | the string literal in `create_module_N` denotes the indented disassembly, and removing the indentation gives the disassembly back |
| Script.FnSuffix | lib/spectests/build/spectests.rs:398 | each command function's suffix is `_` followed by its kind's name |
| Script.CommandName | lib/spectests/build/spectests.rs:316-318 | `c<command>_l<line>` starts with `c` and a digit |
| Script.CommandNameInjective | lib/spectests/build/spectests.rs:316-318 | a command name, with any suffix, determines the command number, the line and the suffix |
| Script.FnKindTextInjective | lib/spectests/build/spectests.rs:398 | different kinds of command function get different suffixes |
| Script.CommandFnTextInjective | lib/spectests/build/spectests.rs:398 | two command functions with the same name have the same number, line and kind |
| Script.CommandFnTextNotModule | lib/spectests/build/spectests.rs:356 | no command function is named like a module's `create_`, `start_` or `test_module_` function |
| Script.ModuleIdentTextInjective | lib/spectests/build/spectests.rs:332 | the per-module function names determine their module and role |
| Script.IdentText | lib/spectests/build/spectests.rs:316-318 | the names of lines 316-318, 332, 356 and 374: a command's function starts with `c` and a digit, and no module's `create_`, `start_` or `test_module_` function does |
| Script.IdentTextInjective | lib/spectests/build/spectests.rs:316-318 | two generated names with the same text are the same name |
| Script.NoDuplicateTexts | lib/spectests/build/spectests.rs:316-318 | distinct names stay distinct once printed |
| Script.DefinedNamesAppend | lib/spectests/build/spectests.rs:284-314 | the names defined by a buffer are those of its parts, in order |
| Script.CountBatchesAppend | lib/spectests/build/spectests.rs:320-345 | the batched tests of module m in a buffer are those of its parts |
| Script.ModulesIn | lib/spectests/build/spectests.rs:352 | a stream defines no more modules than it has commands |
| Script.RegistrationsFrom | lib/spectests/build/spectests.rs:385-388 | every call registered for a module comes from a command of the stream |
| Script.RegistrationsStart | lib/spectests/build/spectests.rs:385-388 | each module defined in the stream has calls, and the first is its `start_module_N` |
| Script.RegistrationsAbove | lib/spectests/build/spectests.rs:385-388 | a module past the last one defined has no calls |
| Visit.ArgLiterals | lib/spectests/build/spectests.rs:435 | one literal per argument |
| Visit.ArgLiteralsRoundTrip | lib/spectests/build/spectests.rs:609 | the `args.iter().map(wabt2rust_value)` of lines 435, 494 and 609: the i-th literal evaluates back to the i-th argument, bit for bit |
| Visit.ExpectedCheck | lib/spectests/build/spectests.rs:545-611 | no assertion exactly for an action or a trap; a NaN-and-sign check exactly when the first expected value is NaN |
| Visit.ExpectedCheckReadsBack | lib/spectests/build/spectests.rs:545-611 | a NaN check's expected text reads back as the first expected value, with that value's type name and a `Value::<T>(result)` pattern of its type; an equality check compares with `Ok(vec![L])` where the literal L evaluates back to the first expected value; no expected value gives `Ok(vec![])` |
| Visit.Panics | lib/spectests/build/spectests.rs:349 | only two kinds of command can panic: a module the disassembler rejects (line 349) and an `assert_return_canonical_nan` whose return type is read from a missing `args[0]` (line 479) |
| Visit.Flushed | lib/spectests/build/spectests.rs:320-345 | flushing a module emits at most one wrapper, and one exactly when the module has pending calls |
| Visit.NextCallsFrame | lib/spectests/build/spectests.rs:385-388 | only the current module's pending calls change, plus the new module's on a module: a module empties the previous entry (line 344) and starts the new one with its start hook; any other command appends its registered call, if any |
| Visit.RunsAll | lib/spectests/build/spectests.rs:302-310 | a stream runs to the end exactly when none of its commands panics |
| Visit.RunsStop | lib/spectests/build/spectests.rs:302-310 | one panicking command stops the stream |
| StreamInvariant.StepPendingMap | lib/spectests/build/spectests.rs:347-388 | after each command the pending-call table is determined by the prefix: only the last module's registrations, if any, are pending |
| StreamInvariant.EmittedBatches | lib/spectests/build/spectests.rs:320-345 | a command's code batches at most the previous module, and only when it is a module command |
| StreamInvariant.FlushedNames | lib/spectests/build/spectests.rs:320-345 | a flush defines `test_module_N` exactly when module N has pending calls |
| StreamInvariant.EmittedNamesModule | lib/spectests/build/spectests.rs:347-389 | a module's code defines `test_module_N` for the previous module when it had calls, then `create_module_N+1` and `start_module_N+1` |
| StreamInvariant.EmittedNamesCommand | lib/spectests/build/spectests.rs:691-739 | any other command's code defines distinct functions, all named after that command's number |
| StreamInvariant.EmittedNames | lib/spectests/build/spectests.rs:691-739 | the names a command's code defines |
| StreamInvariant.EmittedNamesFresh | lib/spectests/build/spectests.rs:316-318 | every name a command defines is new: it is numbered with this command or with the new module |
| StreamInvariant.StepCount | lib/spectests/build/spectests.rs:320-345 | after a command, each earlier module has one batched test when it has calls, and the current module none yet |
| StreamInvariant.StepBatchContents | lib/spectests/build/spectests.rs:320-345 | every batched test lists exactly its module's registrations, in order |
| StreamInvariant.StepNames | lib/spectests/build/spectests.rs:316-318 | the buffer never defines a name twice |
| StreamInvariant.Step | lib/spectests/build/spectests.rs:302-310 | one command keeps the invariant: pending table, batch counts, batch contents and distinct names |
| StreamInvariant.Output | lib/spectests/build/spectests.rs:285 | the buffer starts with the banner |
| StreamInvariant.OutputSnoc | lib/spectests/build/spectests.rs:302-310 | the buffer after one more command is the previous one plus its line comment and visit |
| StreamInvariant.InvLast | lib/spectests/build/spectests.rs:302-310 | the last command of a stream takes the invariant after the rest of the stream to the invariant after the whole stream |
| StreamInvariant.OutputInv | lib/spectests/build/spectests.rs:284-310 | the invariant holds after every prefix of the stream |
| StreamInvariant.Start | lib/spectests/build/spectests.rs:285 | the invariant holds for the empty stream and the banner |
| StreamInvariant.FinishCount | lib/spectests/build/spectests.rs:311-313 | after the final flush, every module 1 to N has exactly one batched test, module 0 one only when it has calls and a module followed, no other module any |
| StreamInvariant.FinishContents | lib/spectests/build/spectests.rs:311-313 | after the final flush every batched test lists exactly its module's registrations |
| StreamInvariant.FinishNames | lib/spectests/build/spectests.rs:311-313 | the final flush defines no name twice |
| StreamInvariant.Finish | lib/spectests/build/spectests.rs:284-314 | the whole buffer of `consume`: batch counts, batch contents and distinct names |
| Linking.StepModule | lib/spectests/build/spectests.rs:354-388 | a module's code defines the new module's `create_module_N` and `start_module_N` |
| Linking.StepRegistered | lib/spectests/build/spectests.rs:385-388 | every call a command registers is defined by that command's own code |
| Linking.CommandCodeDefines | lib/spectests/build/spectests.rs:691-739 | a registering command defines the function it registers; an `assert_trap` on an invoke defines its `_action_invoke` function |
| Linking.StepTrap | lib/spectests/build/spectests.rs:660-689 | the only trap test a command emits is an `assert_trap` on an invoke; it runs that command's `_action_invoke` on the current module |
| Linking.StepFactory | lib/spectests/build/spectests.rs:347-389 | the only factory a command emits is a module's, for the new module, second to last in its code |
| Linking.StepTraps | lib/spectests/build/spectests.rs:660-689 | every trap test a command emits calls a function the same code defines, on the current module |
| Linking.StepBatchCalls | lib/spectests/build/spectests.rs:320-345 | every wrapper a command emits lists the current module's pending calls |
| Linking.StepLinksOf | lib/spectests/build/spectests.rs:302-310 | one command's code has all of these facts, once the pending calls are the current module's registrations |
| Linking.LinkAppend | lib/spectests/build/spectests.rs:302-310 | appending such code keeps the linking invariant: modules 1 to N defined, registrations defined, factories in increasing order, batched calls and trap actions defined |
| Linking.LinkStep | lib/spectests/build/spectests.rs:302-310 | one command keeps the linking invariant |
| Linking.OutputLinked | lib/spectests/build/spectests.rs:284-310 | the linking invariant holds after every prefix of the stream |
| Linking.FinalLinked | lib/spectests/build/spectests.rs:311-313 | the final flush defines only the last module's wrapper, and every call it makes is defined |
| Linking.ModulesExactly | lib/spectests/build/spectests.rs:352 | no factory or start hook outside modules 1 to N is defined |
| Linking.Linked | lib/spectests/build/spectests.rs:284-314 | the whole buffer defines `create_module_m` and `start_module_m` exactly for 1 <= m <= N, its factories come in increasing order, and every batched call and trap action is defined |
| Linking.Consumed | lib/spectests/build/spectests.rs:284-314 | the whole buffer: batch counts and contents, distinct names, the module numbering, defined references, and every `create_module_m` a wrapper (line 333) or trap test (line 672) calls is defined unless m is 0 |
| Generator.WastTestGenerator.constructor | lib/spectests/build/spectests.rs:265-278 | a fresh generator: no module, line or command yet, no pending calls, empty buffer |
| Generator.WastTestGenerator.IsFatTest | lib/spectests/build/spectests.rs:280-282 | more than 200 commands were consumed |
| Generator.WastTestGenerator.Register | lib/spectests/build/spectests.rs:385-388 | appends the name to the current module's pending calls, creating the entry when missing |
| Generator.WastTestGenerator.FlushModuleCalls | lib/spectests/build/spectests.rs:320-345 | removes the module's entry and appends its batched test only when it had calls |
| Generator.WastTestGenerator.VisitModule | lib/spectests/build/spectests.rs:347-389 | panics exactly when the disassembler rejects the binary; otherwise flushes the previous module, increments the module count, and emits the factory and start hook, registering the start hook as the new module's first call |
| Generator.WastTestGenerator.VisitAssertInvalid | lib/spectests/build/spectests.rs:391-411 | appends a standalone `_assert_invalid` test; no call is registered |
| Generator.WastTestGenerator.VisitAssertReturnArithmeticNan | lib/spectests/build/spectests.rs:414-464 | for an invoke, emits the quiet-NaN check function and registers it with the current module |
| Generator.WastTestGenerator.VisitAssertReturnCanonicalNan | lib/spectests/build/spectests.rs:469-520 | panics exactly when an invoke that is not a promotion has no argument; otherwise like the arithmetic case |
| Generator.WastTestGenerator.VisitAssertMalformed | lib/spectests/build/spectests.rs:522-542 | appends a standalone `_assert_malformed` test; no call is registered |
| Generator.WastTestGenerator.VisitAction | lib/spectests/build/spectests.rs:545-634 | returns a name exactly for an invoke, named `c<n>_l<line>_action_invoke`, and appends its function with the check `ExpectedCheck` derives |
| Generator.WastTestGenerator.VisitAssertReturn | lib/spectests/build/spectests.rs:636-646 | the action's function is registered with the current module |
| Generator.WastTestGenerator.VisitPerformAction | lib/spectests/build/spectests.rs:648-658 | the action's function is registered, with no assertion |
| Generator.WastTestGenerator.VisitAssertTrap | lib/spectests/build/spectests.rs:660-689 | a standalone trap test wraps the action's function; nothing is registered |
| Generator.WastTestGenerator.VisitCommand | lib/spectests/build/spectests.rs:691-739 | dispatches on the command kind; panics exactly when `Panics` says so; four kinds are ignored |
| Generator.WastTestGenerator.ConsumeCommand | lib/spectests/build/spectests.rs:302-308 | records the line, appends its comment and visits the command |
| Generator.WastTestGenerator.ConsumeOne | lib/spectests/build/spectests.rs:302-310 | one loop turn takes the state after i commands to the state after i + 1 |
| Generator.WastTestGenerator.ConsumeCommands | lib/spectests/build/spectests.rs:302-310 | the loop runs to the end exactly when no command panics, and then the state is that after the whole stream |
| Generator.WastTestGenerator.FlushAll | lib/spectests/build/spectests.rs:311-313 | flushes modules 1 to the last; module 0's calls stay pending when no module was defined |
| Generator.WastTestGenerator.Consume | lib/spectests/build/spectests.rs:284-314 | succeeds exactly when no command panics; then every module defined has exactly one batched test listing its registrations in order, no name is defined twice, and the test is fat exactly when the stream has more than 200 commands; exactly modules 1 to N get a factory and a start hook, in order; every batched call and trap action is a defined function, and every `create_module_m` with m >= 1 that a test calls is defined |
| Build.AfterLastSpec | lib/spectests/build/spectests.rs:769 | `split("/").last()` is the longest `/`-free suffix |
| Build.BeforeFirstSpec | lib/spectests/build/spectests.rs:769 | `split(".").next()` is the longest `.`-free prefix |
| Build.AfterLastUnique | lib/spectests/build/spectests.rs:769 | any `/`-free suffix preceded by `/` or by the start is the last split part |
| Build.BeforeFirstUnique | lib/spectests/build/spectests.rs:769 | any `.`-free prefix followed by `.` or by the end is the first split part |
| Build.AfterLast | lib/spectests/build/spectests.rs:769 | `split("/").last()` is a suffix no longer than the path and holds no `/` |
| Build.BeforeFirst | lib/spectests/build/spectests.rs:769 | `split(".").next()` is a prefix no longer than the text and holds no `.` |
| Build.TestName | lib/spectests/build/spectests.rs:769 | a test name holds no `/` and no `.` |
| Build.TestNameOf | lib/spectests/build/spectests.rs:769 | `<dir>/<name>.<ext>` gets the test name `<name>` |
| Build.OutFile.constructor | lib/spectests/build/spectests.rs:760 | the output file starts empty |
| Build.GenerateSpectest | lib/spectests/build/spectests.rs:745-757 | succeeds exactly when the script runs; then appends one test module with the generator's whole buffer, or nothing for a fat test |
| Build.BuildAll | lib/spectests/build/spectests.rs:759-775 | succeeds exactly when every script runs; the file is then the preamble followed by the chunks of the scripts in order |
| Build.AllChunksSnoc | lib/spectests/build/spectests.rs:764-773 | one more script adds that script's chunk at the end |
| Build.AllRunSnoc | lib/spectests/build/spectests.rs:764-773 | a prefix that runs, plus one more script that runs, runs |
| Build.AllChunksMember | lib/spectests/build/spectests.rs:745-775 | a test module is written exactly for each script that is not fat, under its name and with its code |
| Build.KeptSnoc | lib/spectests/build/spectests.rs:280-282 | the set of scripts that are not fat grows by the last script only when it is not fat |
| Build.AllChunksCount | lib/spectests/build/spectests.rs:745-775 | the file holds as many test modules as there are scripts that are not fat |

## Left out

- File I/O is not modelled: reading the scripts, `OUT_DIR`, creating and writing the file, and the `io::Result` errors. `OutFile` collects the chunks that would be written.
- The test name is taken from the `TESTS` entry. `CARGO_MANIFEST_DIR` is not modelled. The `TESTS` list itself is a parameter.
- `ScriptParser` is not modelled. Each script is given as its parsed command stream. A parse error, which panics in the source, is not modelled.
- `wasm2wat` is the parameter `Disassembler`. The model covers its failure, which is the `expect` panic.
- Float `{:?}` text is the parameter `FloatFormat`. The finite-float round trips assume a reader that inverts it (`ReadsBack`).
- The Rust text of the generated functions is not modelled. Each function is a `Fragment` that carries its name, its parameters and its assertion. Only the module string literal is modelled as text, because that is where the escaping happens.
- `generate_imports`, the `COMMON` preamble's text and the behaviour of the generated tests at run time are out of scope.
- `last_module` and `command_no` are `i32` in the source. They are unbounded here: no script comes near 2^31 commands.
- Generator.WastTestGenerator.VisitAction: checks only the first expected value, as the source does. A second expected value is ignored.
- Generator.WastTestGenerator.VisitAssertReturnCanonicalNan: emits the same `is_quiet_nan` assertion as the arithmetic case, as the source does. `is_canonical_nan` is never used by generated code.
- Generator.WastTestGenerator.FlushAll: flushes modules 1 to N only, as the source does. Calls made before the first module stay pending only when no module is defined. Otherwise the first module's visit flushes them into `test_module_0`, which calls `create_module_0`, a function that is never defined.
- Linking.Consumed: does not promise that `create_module_0` is defined, because the source never defines it. The batch of calls made before the first module (line 333) and a trap test before the first module (line 672) call it, so such a script produces code that does not compile.

## Findings

| source | as written | input that shows it | evidently intended | confidence | as-written member | corrected member |
|---|---|---|---|---|---|---|
| lib/spectests/build/spectests.rs:151-156 | the f64 `is_canonical_nan` XORs the bits with `0x8007_FFFF_FFFF_FFFF` and compares the result with `0x7FFF_FFFF_FFFF_FFFF` and with `0xFFF_FFFF_FFFF_FFFF`; the second constant has 15 hex digits, so the check accepts 0xFFF8000000000000 and the non-NaN 0x8FF8000000000000 | 0x7FF8000000000000, the positive canonical NaN, is rejected; 0x8FF8000000000000 is accepted | accept exactly the two canonical NaNs 0x7FF8000000000000 and 0xFFF8000000000000, as the f32 version does | not executed | NaNCheck.IsCanonicalNaN64AsWritten, NaNCheck.AsWrittenRejectsPositiveCanonicalNaN, NaNCheck.AsWrittenAcceptsNonNaN | NaNCheck.IsCanonicalNaN64 |
