/**
 * The parsed script (the command stream `wabt::script::ScriptParser`
 * yields), the names the generator gives to the functions it emits, and the
 * generated code as a sequence of structured fragments.
 */
module Script {
  import opened Wrappers
  import opened Decimal
  import opened ValueCodec

  // ---------------- input: the parsed command stream ----------------

  /** `wabt::script::Action`; `moduleRef` is the optional module name. */
  datatype Action =
    | Invoke(moduleRef: Option<string>, field: string, args: seq<Value>)
    | Get(moduleRef: Option<string>, field: string)

  /** `wabt::script::CommandKind` */
  datatype CommandKind =
    | Module(binary: seq<bv8>, name: Option<string>)
    | AssertReturn(action: Action, expected: seq<Value>)
    | AssertReturnCanonicalNan(action: Action)
    | AssertReturnArithmeticNan(action: Action)
    | AssertTrap(action: Action, message: string)
    | AssertInvalid(binary: seq<bv8>, message: string)
    | AssertMalformed(binary: seq<bv8>, message: string)
    | AssertUninstantiable(binary: seq<bv8>, message: string)
    | AssertExhaustion(action: Action)
    | AssertUnlinkable(binary: seq<bv8>, message: string)
    | Register(name: Option<string>, asName: string)
    | PerformAction(action: Action)

  /** `wabt::script::Command`: a command and the script line it starts on. */
  datatype Command = Command(line: nat, kind: CommandKind)

  // ---------------- generated names ----------------

  /** The suffix that tells the functions generated for one command apart. */
  datatype FnKind =
    | ActionInvokeFn | AssertTrapFn | ArithmeticNanFn | CanonicalNanFn | AssertInvalidFn | AssertMalformedFn

  /**
   * A generated function name: `c{command}_l{line}_{kind}` for a command's
   * own functions, `create_module_{i}`, `start_module_{i}`, `test_module_{i}`.
   */
  datatype Ident =
    | CommandFn(command: nat, line: nat, kind: FnKind)
    | CreateModule(index: nat)
    | StartModule(index: nat)
    | TestModule(index: nat)

  function FnKindText(k: FnKind): string
  {
    match k
    case ActionInvokeFn => "action_invoke"
    case AssertTrapFn => "assert_trap"
    case ArithmeticNanFn => "assert_return_arithmetic_nan"
    case CanonicalNanFn => "assert_return_canonical_nan"
    case AssertInvalidFn => "assert_invalid"
    case AssertMalformedFn => "assert_malformed"
  }

  function FnSuffix(k: FnKind): (r: string)
    ensures |r| > 1 && r[0] == '_' && r[1..] == FnKindText(k)
  {
    "_" + FnKindText(k)
  }

  /** `WastTestGenerator::command_name`: `c{command_no}_l{last_line}`. */
  function CommandName(command: nat, line: nat): (r: string)
    ensures |r| > 3 && r[0] == 'c' && IsDigit(r[1])
  {
    "c" + NatText(command) + "_l" + NatText(line)
  }

  /** The text of a generated name: a command's function starts with `c` and a digit, a module's never does. */
  function IdentText(id: Ident): (r: string)
    ensures id.CommandFn? <==> |r| > 1 && r[0] == 'c' && IsDigit(r[1])
  {
    match id
    case CommandFn(c, l, k) => CommandName(c, l) + FnSuffix(k)
    case CreateModule(i) => "create_module_" + NatText(i)
    case StartModule(i) => "start_module_" + NatText(i)
    case TestModule(i) => "test_module_" + NatText(i)
  }

  /** A number printed after a common prefix and before a non-digit is read back unambiguously. */
  lemma PrefixedDigitsSplit(p: string, n1: nat, r1: string, n2: nat, r2: string)
    requires r1 == [] || !IsDigit(r1[0])
    requires r2 == [] || !IsDigit(r2[0])
    requires p + NatText(n1) + r1 == p + NatText(n2) + r2
    ensures n1 == n2 && r1 == r2
  {
    assert (p + NatText(n1) + r1)[|p|..] == NatText(n1) + r1;
    assert (p + NatText(n2) + r2)[|p|..] == NatText(n2) + r2;
    DigitsSplit(NatText(n1), r1, NatText(n2), r2);
    NatTextInjective(n1, n2);
  }

  /** Two commands share a name prefix only if they have the same number and line. */
  lemma CommandNameInjective(c1: nat, l1: nat, x1: string, c2: nat, l2: nat, x2: string)
    requires x1 == [] || !IsDigit(x1[0])
    requires x2 == [] || !IsDigit(x2[0])
    requires CommandName(c1, l1) + x1 == CommandName(c2, l2) + x2
    ensures c1 == c2 && l1 == l2 && x1 == x2
  {
    var r1 := "_l" + NatText(l1) + x1;
    var r2 := "_l" + NatText(l2) + x2;
    assert CommandName(c1, l1) + x1 == "c" + NatText(c1) + r1;
    assert CommandName(c2, l2) + x2 == "c" + NatText(c2) + r2;
    PrefixedDigitsSplit("c", c1, r1, c2, r2);
    PrefixedDigitsSplit("_l", l1, x1, l2, x2);
  }

  lemma PrefixedNatInjective(p: string, a: nat, b: nat)
    requires p + NatText(a) == p + NatText(b)
    ensures a == b
  {
    assert (p + NatText(a))[|p|..] == NatText(a);
    assert (p + NatText(b))[|p|..] == NatText(b);
    NatTextInjective(a, b);
  }

  lemma FnKindTextInjective(k1: FnKind, k2: FnKind)
    requires FnKindText(k1) == FnKindText(k2)
    ensures k1 == k2
  {
    // the six suffixes have six different lengths
  }

  lemma CommandFnTextInjective(c1: nat, l1: nat, k1: FnKind, c2: nat, l2: nat, k2: FnKind)
    requires IdentText(CommandFn(c1, l1, k1)) == IdentText(CommandFn(c2, l2, k2))
    ensures c1 == c2 && l1 == l2 && k1 == k2
  {
    var x1 := FnSuffix(k1);
    var x2 := FnSuffix(k2);
    CommandNameInjective(c1, l1, x1, c2, l2, x2);
    FnKindTextInjective(k1, k2);
  }

  /** A command's function name never reads like a module's function name. */
  lemma CommandFnTextNotModule(a: Ident, b: Ident)
    requires a.CommandFn? && !b.CommandFn?
    ensures IdentText(a) != IdentText(b)
  {
    var s := IdentText(a);
    var t := IdentText(b);
    assert s[0] == 'c' && IsDigit(s[1]);
    match b {
      case CreateModule(_) => assert t[1] == 'r';
      case StartModule(_) => assert t[0] == 's';
      case TestModule(_) => assert t[0] == 't';
    }
  }

  lemma ModuleIdentTextInjective(a: Ident, b: Ident)
    requires !a.CommandFn? && !b.CommandFn?
    requires IdentText(a) == IdentText(b)
    ensures a == b
  {
    var s := IdentText(a);
    match a
    case CreateModule(i) =>
      assert s[0] == 'c';
      if b.CreateModule? { PrefixedNatInjective("create_module_", i, b.index); }
    case StartModule(i) =>
      assert s[0] == 's';
      if b.StartModule? { PrefixedNatInjective("start_module_", i, b.index); }
    case TestModule(i) =>
      assert s[0] == 't';
      if b.TestModule? { PrefixedNatInjective("test_module_", i, b.index); }
  }

  /** Distinct names have distinct texts: the generated Rust identifiers never clash. */
  lemma IdentTextInjective(a: Ident, b: Ident)
    requires IdentText(a) == IdentText(b)
    ensures a == b
  {
    if a.CommandFn? && b.CommandFn? {
      CommandFnTextInjective(a.command, a.line, a.kind, b.command, b.line, b.kind);
    } else if a.CommandFn? {
      CommandFnTextNotModule(a, b);
    } else if b.CommandFn? {
      CommandFnTextNotModule(b, a);
    } else {
      ModuleIdentTextInjective(a, b);
    }
  }

  // ---------------- output: the generated code as fragments ----------------

  /** The assertion inside an `..._action_invoke` function. */
  datatype Check =
    | NoCheck
      /** the result is a NaN of the expected width with the expected sign */
    | NanSignCheck(expected: string, returnType: string, pattern: string)
      /** `assert_eq!(result, <expected>)` */
    | EqCheck(expected: string)

  /** One piece of generated code, with the identifiers it carries. */
  datatype Fragment =
    | Banner
    | LineComment(line: nat)
    | ModuleFactory(index: nat, text: string)
    | StartFn(index: nat)
    | ActionFn(name: Ident, field: string, args: seq<string>, check: Check)
    | QuietNanFn(name: Ident, field: string, args: seq<string>)
    | TrapTest(name: Ident, instance: nat, action: Ident)
    | InvalidTest(name: Ident, binary: seq<bv8>)
    | MalformedTest(name: Ident, binary: seq<bv8>)
    | BatchTest(index: nat, calls: seq<Ident>)

  /** The names a fragment defines. */
  function FragmentNames(f: Fragment): seq<Ident>
  {
    match f
    case Banner => []
    case LineComment(_) => []
    case ModuleFactory(i, _) => [CreateModule(i)]
    case StartFn(i) => [StartModule(i)]
    case BatchTest(i, _) => [TestModule(i)]
    case _ => [f.name]
  }

  function DefinedNames(buf: seq<Fragment>): seq<Ident>
  {
    if buf == [] then [] else DefinedNames(buf[..|buf| - 1]) + FragmentNames(buf[|buf| - 1])
  }

  lemma {:induction false} DefinedNamesAppend(a: seq<Fragment>, b: seq<Fragment>)
    ensures DefinedNames(a + b) == DefinedNames(a) + DefinedNames(b)
  {
    if b != [] {
      assert (a + b)[..|a + b| - 1] == a + b[..|b| - 1];
      DefinedNamesAppend(a, b[..|b| - 1]);
    } else {
      assert a + b == a;
    }
  }

  /** Number of `test_module_{m}` wrappers in a buffer. */
  function CountBatches(buf: seq<Fragment>, m: nat): nat
  {
    if buf == [] then 0
    else CountBatches(buf[..|buf| - 1], m) + (if buf[|buf| - 1].BatchTest? && buf[|buf| - 1].index == m then 1 else 0)
  }

  lemma {:induction false} CountBatchesAppend(a: seq<Fragment>, b: seq<Fragment>, m: nat)
    ensures CountBatches(a + b, m) == CountBatches(a, m) + CountBatches(b, m)
  {
    if b != [] {
      assert (a + b)[..|a + b| - 1] == a + b[..|b| - 1];
      CountBatchesAppend(a, b[..|b| - 1], m);
    } else {
      assert a + b == a;
    }
  }

  predicate NoDuplicates<T(==)>(s: seq<T>)
  {
    forall i, j :: 0 <= i < j < |s| ==> s[i] != s[j]
  }

  lemma NoDuplicatesAppend<T>(a: seq<T>, b: seq<T>)
    requires NoDuplicates(a) && NoDuplicates(b)
    requires forall x :: x in a ==> x !in b
    ensures NoDuplicates(a + b)
  {
    forall i, j | 0 <= i < j < |a + b| ensures (a + b)[i] != (a + b)[j] {
      if j < |a| {
      } else if i >= |a| {
        assert (a + b)[i] == b[i - |a|] && (a + b)[j] == b[j - |a|];
      } else {
        assert (a + b)[i] in a && (a + b)[j] in b;
      }
    }
  }

  /** Distinct names stay distinct as text. */
  lemma NoDuplicateTexts(names: seq<Ident>)
    requires NoDuplicates(names)
    ensures NoDuplicates(seq(|names|, i requires 0 <= i < |names| => IdentText(names[i])))
  {
    var texts := seq(|names|, i requires 0 <= i < |names| => IdentText(names[i]));
    forall i, j | 0 <= i < j < |texts| ensures texts[i] != texts[j] {
      if texts[i] == texts[j] { IdentTextInjective(names[i], names[j]); }
    }
  }

  // ---------------- what the command stream registers ----------------

  /** Number of `Module` commands in a stream. */
  function ModulesIn(cmds: seq<Command>): nat
    ensures ModulesIn(cmds) <= |cmds|
  {
    if cmds == [] then 0
    else ModulesIn(cmds[..|cmds| - 1]) + (if cmds[|cmds| - 1].kind.Module? then 1 else 0)
  }

  /**
   * The kind of function a command registers with the current module's
   * batch, if any: assert_return, action and the two NaN asserts on an
   * `Invoke`. Traps, invalid/malformed modules and ignored kinds register none.
   */
  function CallKind(kind: CommandKind): Option<FnKind>
  {
    match kind
    case AssertReturn(Invoke(_, _, _), _) => Some(ActionInvokeFn)
    case PerformAction(Invoke(_, _, _)) => Some(ActionInvokeFn)
    case AssertReturnCanonicalNan(Invoke(_, _, _)) => Some(CanonicalNanFn)
    case AssertReturnArithmeticNan(Invoke(_, _, _)) => Some(ArithmeticNanFn)
    case _ => None
  }

  /**
   * The calls registered for module `m` by a stream, in order: the module's
   * own `start_module_m`, then one call per registering command met while
   * `m` was the last module defined. Module 0 collects the commands before
   * the first module.
   */
  function Registrations(cmds: seq<Command>, m: nat): seq<Ident>
  {
    if cmds == [] then []
    else
      var init := cmds[..|cmds| - 1];
      var c := cmds[|cmds| - 1];
      Registrations(init, m) + Registered(c, |cmds| - 1, ModulesIn(init), m)
  }

  /** What command number `k`, met while `current` was the last module, registers for `m`. */
  function Registered(c: Command, k: nat, current: nat, m: nat): seq<Ident>
  {
    if c.kind.Module? then (if m == current + 1 then [StartModule(m)] else [])
    else if CallKind(c.kind).Some? && m == current then [CommandFn(k, c.line, CallKind(c.kind).value)]
    else []
  }

  /**
   * Every registered call is the start hook of its module or a function of
   * a registering command, named after that command's number and line.
   * In particular no `assert_trap` command ever has a call in a batch.
   */
  lemma {:induction false} RegistrationsFrom(cmds: seq<Command>, m: nat)
    ensures forall id :: id in Registrations(cmds, m) ==>
      id == StartModule(m) ||
      (id.CommandFn? && id.command < |cmds| && id.line == cmds[id.command].line &&
       CallKind(cmds[id.command].kind) == Some(id.kind))
  {
    if cmds != [] {
      var init := cmds[..|cmds| - 1];
      RegistrationsFrom(init, m);
      forall id | id in Registrations(init, m) && id.CommandFn?
        ensures id.command < |cmds| && cmds[id.command] == init[id.command]
      {
      }
    }
  }

  /** Module `m` >= 1 always has its start hook, so its batch is never empty. */
  lemma {:induction false} RegistrationsStart(cmds: seq<Command>, m: nat)
    requires 1 <= m <= ModulesIn(cmds)
    ensures Registrations(cmds, m) != [] && Registrations(cmds, m)[0] == StartModule(m)
  {
    var init := cmds[..|cmds| - 1];
    if m <= ModulesIn(init) {
      RegistrationsStart(init, m);
    } else {
      assert Registrations(init, m) == [] by { RegistrationsAbove(init, m); }
    }
  }

  /** A module not yet defined has nothing registered. */
  lemma {:induction false} RegistrationsAbove(cmds: seq<Command>, m: nat)
    requires m > ModulesIn(cmds)
    ensures Registrations(cmds, m) == []
  {
    if cmds != [] {
      RegistrationsAbove(cmds[..|cmds| - 1], m);
    }
  }
}
