/**
 * `WastTestGenerator`: one pass over a script's command stream that writes
 * the generated test code into `buffer` and batches calls per module in
 * `moduleCalls` until the module is flushed into its `test_module_N`.
 */
module Generator {
  import opened Wrappers
  import opened ValueCodec
  import opened Script
  import opened Escape
  import opened Visit
  import opened StreamInvariant
  import opened Linking

  // ---------------- the generator ----------------

  class WastTestGenerator {
    var lastModule: nat
    var lastLine: nat
    var commandNo: nat
    var moduleCalls: map<nat, seq<Ident>>
    var buffer: seq<Fragment>
    const script: seq<Command>
    const fmt: FloatFormat
    const disasm: Disassembler

    /** `WastTestGenerator::new`, given the script's parsed command stream. */
    constructor (script: seq<Command>, fmt: FloatFormat, disasm: Disassembler)
      ensures Initial() && this.script == script && this.fmt == fmt && this.disasm == disasm
    {
      this.script := script;
      this.fmt := fmt;
      this.disasm := disasm;
      lastModule, lastLine, commandNo := 0, 0, 0;
      moduleCalls := map[];
      buffer := [];
    }

    ghost predicate Initial()
      reads this
    {
      lastModule == 0 && lastLine == 0 && commandNo == 0 && moduleCalls == map[] && buffer == []
    }

    /** `is_fat_test` */
    predicate IsFatTest()
      reads this
    {
      commandNo > 200
    }

    /** `entry(last_module).or_insert(Vec::new()).push(name)` */
    method Register(name: Ident)
      modifies this`moduleCalls
      ensures moduleCalls == old(moduleCalls)[lastModule := Pending(old(moduleCalls), lastModule) + [name]]
    {
      if lastModule !in moduleCalls {
        moduleCalls := moduleCalls[lastModule := []];
      }
      moduleCalls := moduleCalls[lastModule := moduleCalls[lastModule] + [name]];
    }

    /** `flush_module_calls` */
    method FlushModuleCalls(m: nat)
      modifies this`moduleCalls, this`buffer
      ensures moduleCalls == old(moduleCalls) - {m}
      ensures buffer == old(buffer) + Flushed(old(moduleCalls), m)
    {
      if m !in moduleCalls {
        moduleCalls := moduleCalls[m := []];
      }
      var calls := moduleCalls[m];
      if |calls| > 0 {
        buffer := buffer + [BatchTest(m, calls)];
      }
      moduleCalls := moduleCalls - {m};
    }

    /** `visit_module`; `ok` is false where the source panics. */
    method VisitModule(binary: seq<bv8>, name: Option<string>) returns (ok: bool)
      modifies this`lastModule, this`moduleCalls, this`buffer
      ensures ok <==> disasm(binary).Some?
      ensures ok ==> lastModule == old(lastModule) + 1
      ensures ok ==> moduleCalls == NextCalls(old(moduleCalls), old(lastModule), commandNo, Command(lastLine, Module(binary, name)))
      ensures ok ==> buffer == old(buffer) + Emitted(old(moduleCalls), old(lastModule), commandNo,
                                                      Command(lastLine, Module(binary, name)), fmt, disasm(binary).value)
    {
      var wat := disasm(binary);
      if wat.None? {
        return false;
      }
      FlushModuleCalls(lastModule);
      lastModule := lastModule + 1;
      buffer := buffer + [ModuleFactory(lastModule, EscapeModuleText(wat.value))];
      buffer := buffer + [StartFn(lastModule)];
      Register(StartModule(lastModule));
      ok := true;
    }

    /** `visit_assert_invalid` */
    method VisitAssertInvalid(binary: seq<bv8>)
      modifies this`buffer
      ensures buffer == old(buffer) + [InvalidTest(CommandFn(commandNo, lastLine, AssertInvalidFn), binary)]
    {
      buffer := buffer + [InvalidTest(CommandFn(commandNo, lastLine, AssertInvalidFn), binary)];
    }

    /** `visit_assert_malformed` */
    method VisitAssertMalformed(binary: seq<bv8>)
      modifies this`buffer
      ensures buffer == old(buffer) + [MalformedTest(CommandFn(commandNo, lastLine, AssertMalformedFn), binary)]
    {
      buffer := buffer + [MalformedTest(CommandFn(commandNo, lastLine, AssertMalformedFn), binary)];
    }

    /** `visit_assert_return_arithmetic_nan` */
    method VisitAssertReturnArithmeticNan(action: Action)
      modifies this`moduleCalls, this`buffer
      ensures var c := Command(lastLine, AssertReturnArithmeticNan(action));
        moduleCalls == NextCalls(old(moduleCalls), lastModule, commandNo, c) &&
        buffer == old(buffer) + Emitted(old(moduleCalls), lastModule, commandNo, c, fmt, "")
    {
      if action.Invoke? {
        var name := CommandFn(commandNo, lastLine, ArithmeticNanFn);
        buffer := buffer + [QuietNanFn(name, action.field, ArgLiterals(action.args, fmt))];
        Register(name);
      }
    }

    /** `visit_assert_return_canonical_nan`; `ok` is false where `args[0]` panics. */
    method VisitAssertReturnCanonicalNan(action: Action) returns (ok: bool)
      modifies this`moduleCalls, this`buffer
      ensures ok <==> !Panics(AssertReturnCanonicalNan(action), disasm)
      ensures var c := Command(lastLine, AssertReturnCanonicalNan(action));
        ok ==> moduleCalls == NextCalls(old(moduleCalls), lastModule, commandNo, c) &&
               buffer == old(buffer) + Emitted(old(moduleCalls), lastModule, commandNo, c, fmt, "")
    {
      ok := true;
      if action.Invoke? {
        var field := action.field;
        if field != "f64.promote_f32" && field != "f32.promote_f64" && |action.args| == 0 {
          return false;
        }
        var name := CommandFn(commandNo, lastLine, CanonicalNanFn);
        buffer := buffer + [QuietNanFn(name, field, ArgLiterals(action.args, fmt))];
        Register(name);
      }
    }

    /** `visit_action`: emits the action function and returns its name. */
    method VisitAction(action: Action, expected: Option<seq<Value>>) returns (name: Option<Ident>)
      modifies this`buffer
      ensures name.Some? <==> action.Invoke?
      ensures name.Some? ==> name.value == CommandFn(commandNo, lastLine, ActionInvokeFn)
      ensures buffer == old(buffer) +
        if action.Invoke? then
          [ActionFn(CommandFn(commandNo, lastLine, ActionInvokeFn), action.field,
                    ArgLiterals(action.args, fmt), ExpectedCheck(expected, fmt))]
        else []
    {
      match action
      case Invoke(_, field, args) =>
        var check := ExpectedCheck(expected, fmt);
        var funcName := CommandFn(commandNo, lastLine, ActionInvokeFn);
        buffer := buffer + [ActionFn(funcName, field, ArgLiterals(args, fmt), check)];
        name := Some(funcName);
      case Get(_, _) =>
        name := None;
    }

    /** `visit_assert_return` */
    method VisitAssertReturn(action: Action, expected: seq<Value>)
      modifies this`moduleCalls, this`buffer
      ensures var c := Command(lastLine, AssertReturn(action, expected));
        moduleCalls == NextCalls(old(moduleCalls), lastModule, commandNo, c) &&
        buffer == old(buffer) + Emitted(old(moduleCalls), lastModule, commandNo, c, fmt, "")
    {
      var name := VisitAction(action, Some(expected));
      if name.None? {
        return;
      }
      Register(name.value);
    }

    /** `visit_perform_action` */
    method VisitPerformAction(action: Action)
      modifies this`moduleCalls, this`buffer
      ensures var c := Command(lastLine, PerformAction(action));
        moduleCalls == NextCalls(old(moduleCalls), lastModule, commandNo, c) &&
        buffer == old(buffer) + Emitted(old(moduleCalls), lastModule, commandNo, c, fmt, "")
    {
      var name := VisitAction(action, None);
      if name.None? {
        return;
      }
      Register(name.value);
    }

    /** `visit_assert_trap`: a standalone test, never a batched call. */
    method VisitAssertTrap(action: Action, message: string)
      modifies this`buffer
      ensures buffer == old(buffer) + Emitted(old(moduleCalls), lastModule, commandNo,
                                               Command(lastLine, AssertTrap(action, message)), fmt, "")
    {
      var name := VisitAction(action, None);
      if name.None? {
        return;
      }
      var trapName := CommandFn(commandNo, lastLine, AssertTrapFn);
      buffer := buffer + [TrapTest(trapName, lastModule, name.value)];
    }

    /** `visit_command`: one visitor per command kind; four kinds are ignored. */
    method VisitCommand(kind: CommandKind) returns (ok: bool)
      modifies this`lastModule, this`moduleCalls, this`buffer
      ensures ok <==> !Panics(kind, disasm)
      ensures ok ==> lastModule == old(lastModule) + (if kind.Module? then 1 else 0)
      ensures ok ==> moduleCalls == NextCalls(old(moduleCalls), old(lastModule), commandNo, Command(lastLine, kind))
      ensures ok ==> buffer == old(buffer) + Emitted(old(moduleCalls), old(lastModule), commandNo, Command(lastLine, kind),
                                                      fmt, Disassembly(kind, disasm))
    {
      ok := true;
      match kind
      case Module(binary, name) => ok := VisitModule(binary, name);
      case AssertReturn(action, expected) => VisitAssertReturn(action, expected);
      case AssertReturnCanonicalNan(action) => ok := VisitAssertReturnCanonicalNan(action);
      case AssertReturnArithmeticNan(action) => VisitAssertReturnArithmeticNan(action);
      case AssertTrap(action, message) => VisitAssertTrap(action, message);
      case AssertInvalid(binary, _) => VisitAssertInvalid(binary);
      case AssertMalformed(binary, _) => VisitAssertMalformed(binary);
      case AssertUninstantiable(_, _) =>
      case AssertExhaustion(_) =>
      case AssertUnlinkable(_, _) =>
      case Register(_, _) =>
      case PerformAction(action) => VisitPerformAction(action);
    }
  
    /** The state `consume` has reached after the first `i` commands. */
    ghost predicate After(i: nat)
      reads this
    {
      && i <= |script|
      && commandNo == i
      && lastModule == ModulesIn(script[..i])
      && moduleCalls == PendingMap(script[..i])
      && buffer == Output(script[..i], fmt, disasm)
    }

    /** The body of `consume`'s loop: record the line, write its comment, visit the command. */
    method ConsumeCommand(c: Command) returns (ok: bool)
      modifies this`lastLine, this`lastModule, this`moduleCalls, this`buffer
      ensures lastLine == c.line
      ensures ok <==> !Panics(c.kind, disasm)
      ensures ok ==> lastModule == old(lastModule) + (if c.kind.Module? then 1 else 0)
      ensures ok ==> moduleCalls == NextCalls(old(moduleCalls), old(lastModule), commandNo, c)
      ensures ok ==> buffer == old(buffer) + StepCode(old(moduleCalls), old(lastModule), commandNo, c, fmt, Disassembly(c.kind, disasm))
    {
      lastLine := c.line;
      buffer := buffer + [LineComment(c.line)];
      ok := VisitCommand(c.kind);
      assert Command(lastLine, c.kind) == c;
    }

    /** One turn of `consume`'s loop, then `command_no += 1`. */
    method ConsumeOne(i: nat) returns (ok: bool)
      requires i < |script| && After(i)
      modifies this`lastLine, this`lastModule, this`moduleCalls, this`buffer, this`commandNo
      ensures ok <==> !Panics(script[i].kind, disasm)
      ensures ok ==> After(i + 1)
    {
      ghost var lm, calls, buf := lastModule, moduleCalls, buffer;
      ok := ConsumeCommand(script[i]);
      if !ok {
        return;
      }
      StepAt(script, i, fmt, disasm, lm, calls, buf, lastModule, moduleCalls, buffer);
      commandNo := commandNo + 1;
    }

    /** `consume`'s loop over the command stream; stops at the first visit that panics. */
    method ConsumeCommands() returns (ok: bool)
      requires After(0)
      modifies this`lastLine, this`lastModule, this`moduleCalls, this`buffer, this`commandNo
      ensures ok <==> Runs(script, disasm)
      ensures ok ==> After(|script|)
    {
      var i := 0;
      while i < |script|
        invariant After(i) && Runs(script[..i], disasm)
      {
        ok := ConsumeOne(i);
        if !ok {
          RunsStop(script, i, disasm);
          return;
        }
        assert script[..i + 1][..i] == script[..i];
        i := i + 1;
      }
      assert script[..i] == script;
      ok := true;
    }

    /** `for n in 1..last_module + 1 { flush_module_calls(n) }` at the end of `consume`. */
    method FlushAll()
      requires lastModule == ModulesIn(script) && moduleCalls == PendingMap(script)
      modifies this`moduleCalls, this`buffer
      ensures buffer == old(buffer) + FinalFlush(script)
      ensures moduleCalls == if lastModule >= 1 then map[] else PendingMap(script)
    {
      if lastModule >= 1 {
        RegistrationsStart(script, lastModule);
      }
      var n := 1;
      while n <= lastModule
        invariant 1 <= n <= lastModule + 1
        invariant buffer == old(buffer) + (if n > lastModule then FinalFlush(script) else [])
        invariant moduleCalls == if n > lastModule && lastModule >= 1 then map[] else PendingMap(script)
      {
        FlushModuleCalls(n);
        n := n + 1;
      }
    }

    /**
     * `consume`: the banner, then each command's line comment and visit,
     * then the final flush of modules 1 to `last_module`. `ok` is false
     * where a visit panics. On success the buffer is `Output` of the whole
     * stream followed by the last module's batch: every module defined has
     * exactly one batched test listing its registrations in order, module
     * 0's calls are batched only when a module follows them, and no name is
     * defined twice. The factories and start hooks defined are exactly
     * those of modules 1 to `last_module`, in order, and every batched call
     * and every trap test's action is a function the buffer defines.
     */
    method Consume() returns (ok: bool)
      requires Initial()
      modifies this`lastLine, this`lastModule, this`moduleCalls, this`buffer, this`commandNo
      ensures ok <==> Runs(script, disasm)
      ensures ok ==> commandNo == |script| && lastModule == ModulesIn(script)
      ensures ok ==> buffer == Output(script, fmt, disasm) + FinalFlush(script)
      ensures ok ==> moduleCalls == if lastModule == 0 then PendingMap(script) else map[]
      ensures ok ==> (IsFatTest() <==> |script| > 200)
      ensures ok ==> forall m: nat :: 1 <= m <= lastModule ==>
        CountBatches(buffer, m) == 1 && BatchTest(m, Registrations(script, m)) in buffer
      ensures ok ==> CountBatches(buffer, 0) == (if lastModule >= 1 && Registrations(script, 0) != [] then 1 else 0)
      ensures ok ==> forall m: nat :: m > lastModule ==> CountBatches(buffer, m) == 0
      ensures ok ==> forall j :: 0 <= j < |buffer| && buffer[j].BatchTest? ==>
        buffer[j].calls == Registrations(script, buffer[j].index)
      ensures ok ==> NoDuplicates(DefinedNames(buffer))
      ensures ok ==> forall m: nat :: CreateModule(m) in DefinedNames(buffer) <==> 1 <= m <= lastModule
      ensures ok ==> forall m: nat :: StartModule(m) in DefinedNames(buffer) <==> 1 <= m <= lastModule
      ensures ok ==> FactoriesInv(lastModule, buffer) && BatchesLinked(buffer) && TrapsLinked(lastModule, buffer)
      ensures ok ==> forall j :: 0 <= j < |buffer| && buffer[j].BatchTest? && buffer[j].index >= 1 ==>
        CreateModule(buffer[j].index) in DefinedNames(buffer)
      ensures ok ==> forall j :: 0 <= j < |buffer| && buffer[j].TrapTest? && buffer[j].instance >= 1 ==>
        CreateModule(buffer[j].instance) in DefinedNames(buffer)
    {
      buffer := buffer + [Banner];
      assert script[..0] == [];
      ok := ConsumeCommands();
      if !ok {
        return;
      }
      assert script[..|script|] == script;
      FlushAll();
      Consumed(script, fmt, disasm);
    }
  }
}
