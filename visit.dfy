/**
 * What visiting one command does to the generator's state, stated as
 * functions of the state before the visit: the calls it registers
 * (`NextCalls`) and the code it appends (`Emitted`).
 */
module Visit {
  import opened Wrappers
  import opened ValueCodec
  import opened Script
  import opened Escape

  /** The disassembler (`wabt::wasm2wat`), an external, fallible collaborator. */
  type Disassembler = seq<bv8> -> Option<string>

  /** The pending calls of module `m` (`entry(m).or_insert(Vec::new())`). */
  function Pending(calls: map<nat, seq<Ident>>, m: nat): seq<Ident>
  {
    if m in calls then calls[m] else []
  }

  /** The literal of every argument, in order. */
  function ArgLiterals(args: seq<Value>, fmt: FloatFormat): (r: seq<string>)
    ensures |r| == |args|
  {
    seq(|args|, i requires 0 <= i < |args| => ValueLiteral(args[i], fmt))
  }

  /** Every argument literal evaluates back to its argument, in order. */
  lemma ArgLiteralsRoundTrip(args: seq<Value>, fmt: FloatFormat, rd: FloatReader)
    requires ReadsBack(fmt, rd)
    ensures forall i :: 0 <= i < |args| ==> EvalLiteral(ArgLiterals(args, fmt)[i], rd) == Some(args[i])
  {
    forall i | 0 <= i < |args|
      ensures EvalLiteral(ArgLiterals(args, fmt)[i], rd) == Some(args[i])
    {
      LiteralRoundTrip(args[i], fmt, rd);
    }
  }

  /**
   * The assertion `visit_action` builds from the expected results: none for
   * an action or a trap, a NaN-and-sign check when the first expected value
   * is a NaN, otherwise an equality against the first expected value (or
   * against no value).
   */
  function ExpectedCheck(expected: Option<seq<Value>>, fmt: FloatFormat): (r: Check)
    ensures r.NoCheck? <==> expected.None?
    ensures r.NanSignCheck? <==> expected.Some? && |expected.value| > 0 && IsNaN(expected.value[0])
  {
    match expected
    case None => NoCheck
    case Some(e) =>
      if |e| > 0 && IsNaN(e[0]) then
        NanSignCheck(ValueBare(e[0], fmt), TypeName(e[0]), TypeDestructure(e[0], "result"))
      else if |e| > 0 then EqCheck("Ok(vec![" + ValueLiteral(e[0], fmt) + "])")
      else EqCheck("Ok(vec![])")
  }

  /**
   * What the check compares against is the first expected value: a NaN
   * check reads back that NaN in its bare form, with its type's name and a
   * pattern binding `result` of its type; an equality check wraps a literal
   * that evaluates back to that value in `Ok(vec![...])`, or wraps nothing
   * when no value is expected.
   */
  lemma ExpectedCheckReadsBack(expected: Option<seq<Value>>, fmt: FloatFormat, rd: FloatReader)
    requires ReadsBack(fmt, rd)
    ensures expected.Some? && |expected.value| > 0 ==>
      var v := expected.value[0];
      var r := ExpectedCheck(expected, fmt);
      if IsNaN(v) then
        && r.NanSignCheck?
        && EvalBare(TypeOf(v), r.expected, rd) == Some(v)
        && r.returnType == TypeName(v)
        && ReadPattern(r.pattern) == Some((TypeOf(v), "result"))
      else
        && r.EqCheck?
        && |r.expected| >= 10
        && r.expected[..8] == "Ok(vec![" && r.expected[|r.expected| - 2..] == "])"
        && EvalLiteral(r.expected[8..|r.expected| - 2], rd) == Some(v)
    ensures expected == Some([]) ==> ExpectedCheck(expected, fmt) == EqCheck("Ok(vec![])")
  {
    if expected.Some? && |expected.value| > 0 {
      var v := expected.value[0];
      if IsNaN(v) {
        BareRoundTrip(v, fmt, rd);
      } else {
        var lit := ValueLiteral(v, fmt);
        var t := "Ok(vec![" + lit + "])";
        assert t[..8] == "Ok(vec![" && t[|t| - 2..] == "])" && t[8..|t| - 2] == lit;
        LiteralRoundTrip(v, fmt, rd);
      }
    }
  }

  /**
   * The commands whose visit panics: a module the disassembler rejects, and
   * an `assert_return_canonical_nan` whose field is not a promotion and that
   * has no argument (the return type is read from `args[0]`).
   */
  predicate Panics(kind: CommandKind, disasm: Disassembler): (r: bool)
    ensures r ==> kind.Module? || kind.AssertReturnCanonicalNan?
  {
    match kind
    case Module(binary, _) => disasm(binary).None?
    case AssertReturnCanonicalNan(Invoke(_, field, args)) =>
      field != "f64.promote_f32" && field != "f32.promote_f64" && |args| == 0
    case _ => false
  }

  /** The text a module command's binary disassembles to ("" for any other command). */
  function Disassembly(kind: CommandKind, disasm: Disassembler): string
  {
    if kind.Module? && disasm(kind.binary).Some? then disasm(kind.binary).value else ""
  }

  /** No command of the stream panics when visited. */
  predicate Runs(cmds: seq<Command>, disasm: Disassembler)
  {
    cmds == [] || (Runs(cmds[..|cmds| - 1], disasm) && !Panics(cmds[|cmds| - 1].kind, disasm))
  }

  /** `Runs` says that no command panics. */
  lemma {:induction false} RunsAll(cmds: seq<Command>, disasm: Disassembler)
    ensures Runs(cmds, disasm) <==> forall k :: 0 <= k < |cmds| ==> !Panics(cmds[k].kind, disasm)
  {
    if cmds != [] {
      var init := cmds[..|cmds| - 1];
      RunsAll(init, disasm);
      assert forall k :: 0 <= k < |init| ==> init[k] == cmds[k];
    }
  }

  /** One command that panics stops the whole stream. */
  lemma {:induction false} RunsStop(cmds: seq<Command>, i: nat, disasm: Disassembler)
    requires i < |cmds| && Panics(cmds[i].kind, disasm)
    ensures !Runs(cmds, disasm)
  {
    if i < |cmds| - 1 {
      RunsStop(cmds[..|cmds| - 1], i, disasm);
    }
  }

  /** The wrapper that flushing module `m` emits: one batched test, or nothing. */
  function Flushed(calls: map<nat, seq<Ident>>, m: nat): (r: seq<Fragment>)
    ensures |r| <= 1 && (r != [] <==> Pending(calls, m) != [])
  {
    if Pending(calls, m) != [] then [BatchTest(m, Pending(calls, m))] else []
  }

  /** The pending-call table after command number `k`, met while `lm` is the last module. */
  function NextCalls(calls: map<nat, seq<Ident>>, lm: nat, k: nat, c: Command): (r: map<nat, seq<Ident>>)
  {
    if c.kind.Module? then
      var flushed := calls - {lm};
      flushed[lm + 1 := Pending(flushed, lm + 1) + [StartModule(lm + 1)]]
    else if CallKind(c.kind).Some? then
      calls[lm := Pending(calls, lm) + [CommandFn(k, c.line, CallKind(c.kind).value)]]
    else calls
  }

  /**
   * Only the current module's pending calls change, and on a module the
   * new module's: a module empties the previous module's entry and starts
   * the new one with its start hook; any other command appends the call it
   * registers, if any, to the current module's.
   */
  lemma NextCallsFrame(calls: map<nat, seq<Ident>>, lm: nat, k: nat, c: Command)
    ensures var r := NextCalls(calls, lm, k, c);
      && (forall m: nat :: m != lm && m != lm + 1 ==> Pending(r, m) == Pending(calls, m))
      && (c.kind.Module? ==>
            Pending(r, lm) == [] && Pending(r, lm + 1) == Pending(calls, lm + 1) + [StartModule(lm + 1)])
      && (!c.kind.Module? ==>
            Pending(r, lm + 1) == Pending(calls, lm + 1) && Pending(r, lm) == Pending(calls, lm) + Registered(c, k, lm, lm))
  {
  }

  /** The code the visit of command number `k` appends; `wat` is a module's disassembly. */
  function Emitted(calls: map<nat, seq<Ident>>, lm: nat, k: nat, c: Command, fmt: FloatFormat, wat: string)
    : seq<Fragment>
  {
    if c.kind.Module? then ModuleCode(calls, lm, wat) else CommandCode(lm, k, c, fmt)
  }

  /** A module flushes its predecessor's batch, then gets its factory and its start hook. */
  function ModuleCode(calls: map<nat, seq<Ident>>, lm: nat, wat: string): seq<Fragment>
  {
    Flushed(calls, lm) + [ModuleFactory(lm + 1, EscapeModuleText(wat)), StartFn(lm + 1)]
  }

  /** The functions any other command gets, named after its number `k` and line. */
  function CommandCode(lm: nat, k: nat, c: Command, fmt: FloatFormat): seq<Fragment>
  {
    var l := c.line;
    match c.kind
    case AssertReturn(Invoke(_, field, args), expected) =>
      [ActionFn(CommandFn(k, l, ActionInvokeFn), field, ArgLiterals(args, fmt), ExpectedCheck(Some(expected), fmt))]
    case PerformAction(Invoke(_, field, args)) =>
      [ActionFn(CommandFn(k, l, ActionInvokeFn), field, ArgLiterals(args, fmt), NoCheck)]
    case AssertTrap(Invoke(_, field, args), _) =>
      [ActionFn(CommandFn(k, l, ActionInvokeFn), field, ArgLiterals(args, fmt), NoCheck),
       TrapTest(CommandFn(k, l, AssertTrapFn), lm, CommandFn(k, l, ActionInvokeFn))]
    case AssertReturnCanonicalNan(Invoke(_, field, args)) =>
      [QuietNanFn(CommandFn(k, l, CanonicalNanFn), field, ArgLiterals(args, fmt))]
    case AssertReturnArithmeticNan(Invoke(_, field, args)) =>
      [QuietNanFn(CommandFn(k, l, ArithmeticNanFn), field, ArgLiterals(args, fmt))]
    case AssertInvalid(binary, _) => [InvalidTest(CommandFn(k, l, AssertInvalidFn), binary)]
    case AssertMalformed(binary, _) => [MalformedTest(CommandFn(k, l, AssertMalformedFn), binary)]
    case _ => []
  }
}
