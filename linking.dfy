/**
 * What the generated code refers to: every call a batched test makes and
 * the action of every trap test is a function the buffer defines, each
 * module 1 to N gets its `create_module_N` and `start_module_N` once, and
 * the module factories appear in the order of their numbers.
 */
module Linking {
  import opened ValueCodec
  import opened Script
  import opened Visit
  import opened StreamInvariant
  import opened Escape

  /** The module factories hold numbers up to `n`, strictly increasing along the buffer. */
  ghost predicate FactoriesInv(n: nat, buf: seq<Fragment>)
  {
    && (forall j :: 0 <= j < |buf| && buf[j].ModuleFactory? ==> 1 <= buf[j].index <= n)
    && (forall i, j :: 0 <= i < j < |buf| && buf[i].ModuleFactory? && buf[j].ModuleFactory? ==>
          buf[i].index < buf[j].index)
  }

  /** Every call a batched test makes is a function the buffer defines. */
  ghost predicate BatchesLinked(buf: seq<Fragment>)
  {
    forall j, id :: 0 <= j < |buf| && buf[j].BatchTest? && id in buf[j].calls ==> id in DefinedNames(buf)
  }

  /** Every trap test runs a defined action, on a module already met. */
  ghost predicate TrapsLinked(n: nat, buf: seq<Fragment>)
  {
    forall j :: 0 <= j < |buf| && buf[j].TrapTest? ==> buf[j].action in DefinedNames(buf) && buf[j].instance <= n
  }

  /** Module `m`'s factory and start hook are defined. */
  predicate ModuleDefined(m: nat, names: seq<Ident>)
  {
    CreateModule(m) in names && StartModule(m) in names
  }

  /** What the buffer after the commands `p` defines and refers to. */
  ghost predicate LinkInv(p: seq<Command>, buf: seq<Fragment>)
  {
    && (forall m: nat :: 1 <= m <= ModulesIn(p) ==> ModuleDefined(m, DefinedNames(buf)))
    && (forall m: nat, id :: id in Registrations(p, m) ==> id in DefinedNames(buf))
    && FactoriesInv(ModulesIn(p), buf)
    && BatchesLinked(buf)
    && TrapsLinked(ModulesIn(p), buf)
  }

  // ---------------- what one step defines ----------------

  /** A step defines exactly what its visit defines: the line comment defines nothing. */
  lemma StepNamesOf(calls: map<nat, seq<Ident>>, lm: nat, k: nat, c: Command, fmt: FloatFormat, wat: string)
    ensures DefinedNames(StepCode(calls, lm, k, c, fmt, wat)) == DefinedNames(Emitted(calls, lm, k, c, fmt, wat))
  {
    CommentDefinesNothing(c.line, Emitted(calls, lm, k, c, fmt, wat));
  }

  lemma CommentDefinesNothing(line: nat, em: seq<Fragment>)
    ensures DefinedNames([LineComment(line)] + em) == DefinedNames(em)
  {
    DefinedNamesSingle(LineComment(line));
    DefinedNamesAppend([LineComment(line)], em);
  }

  /** Any other command defines the function it registers, and a trap's action function. */
  lemma CommandCodeDefines(lm: nat, k: nat, c: Command, fmt: FloatFormat)
    requires !c.kind.Module?
    ensures var names := DefinedNames(CommandCode(lm, k, c, fmt));
      && (CallKind(c.kind).Some? ==> CommandFn(k, c.line, CallKind(c.kind).value) in names)
      && (c.kind.AssertTrap? && c.kind.action.Invoke? ==> CommandFn(k, c.line, ActionInvokeFn) in names)
  {
    var em := CommandCode(lm, k, c, fmt);
    if c.kind.AssertTrap? && c.kind.action.Invoke? {
      DefinedNamesPair(em[0], em[1]);
    } else if em != [] {
      DefinedNamesSingle(em[0]);
    }
  }

  /** The only trap test a step emits belongs to an `assert_trap` on an invoke and runs its action. */
  lemma StepTrap(calls: map<nat, seq<Ident>>, lm: nat, k: nat, c: Command, fmt: FloatFormat, wat: string, j: nat)
    requires j < |StepCode(calls, lm, k, c, fmt, wat)| && StepCode(calls, lm, k, c, fmt, wat)[j].TrapTest?
    ensures c.kind.AssertTrap? && c.kind.action.Invoke?
    ensures StepCode(calls, lm, k, c, fmt, wat)[j] ==
      TrapTest(CommandFn(k, c.line, AssertTrapFn), lm, CommandFn(k, c.line, ActionInvokeFn))
  {
  }

  /** The only factory a step emits is the new module's, second to last. */
  lemma StepFactory(calls: map<nat, seq<Ident>>, lm: nat, k: nat, c: Command, fmt: FloatFormat, wat: string, j: nat)
    requires j < |StepCode(calls, lm, k, c, fmt, wat)| && StepCode(calls, lm, k, c, fmt, wat)[j].ModuleFactory?
    ensures c.kind.Module? && StepCode(calls, lm, k, c, fmt, wat)[j].index == lm + 1
    ensures j == |StepCode(calls, lm, k, c, fmt, wat)| - 2
  {
    var e := StepCode(calls, lm, k, c, fmt, wat);
    if c.kind.Module? {
      var f := Flushed(calls, lm);
      assert e == [LineComment(c.line)] + f + [ModuleFactory(lm + 1, EscapeModuleText(wat)), StartFn(lm + 1)];
    }
  }

  /** Where a step's factory is, if any. */
  lemma StepFactories(calls: map<nat, seq<Ident>>, lm: nat, k: nat, c: Command, fmt: FloatFormat, wat: string)
    ensures FactoryLast(lm, c.kind.Module?, StepCode(calls, lm, k, c, fmt, wat))
  {
    var e := StepCode(calls, lm, k, c, fmt, wat);
    forall j | 0 <= j < |e| && e[j].ModuleFactory?
      ensures c.kind.Module? && e[j].index == lm + 1 && j == |e| - 2
    {
      StepFactory(calls, lm, k, c, fmt, wat, j);
    }
  }

  /** A step's trap test runs a function the same step defines, on the current module. */
  lemma StepTraps(calls: map<nat, seq<Ident>>, lm: nat, k: nat, c: Command, fmt: FloatFormat, wat: string)
    ensures TrapsOn(lm, StepCode(calls, lm, k, c, fmt, wat))
  {
    var e := StepCode(calls, lm, k, c, fmt, wat);
    forall j | 0 <= j < |e| && e[j].TrapTest?
      ensures e[j].action in DefinedNames(e) && e[j].instance == lm
    {
      StepTrap(calls, lm, k, c, fmt, wat, j);
      StepNamesOf(calls, lm, k, c, fmt, wat);
      CommandCodeDefines(lm, k, c, fmt);
    }
  }

  /** A step's wrapper, if any, lists the current module's pending calls. */
  lemma StepBatchCalls(calls: map<nat, seq<Ident>>, lm: nat, k: nat, c: Command, fmt: FloatFormat, wat: string)
    ensures BatchesList(Pending(calls, lm), StepCode(calls, lm, k, c, fmt, wat))
  {
    EmittedBatches(calls, lm, k, c, fmt, wat, 0);
  }

  /** A module's step defines the new module's factory and start hook. */
  lemma StepModule(calls: map<nat, seq<Ident>>, lm: nat, k: nat, c: Command, fmt: FloatFormat, wat: string)
    ensures NewModuleDefined(lm, c.kind.Module?, StepCode(calls, lm, k, c, fmt, wat))
  {
    if c.kind.Module? {
      StepNamesOf(calls, lm, k, c, fmt, wat);
      EmittedNamesModule(calls, lm, k, c, fmt, wat);
    }
  }

  /** Whatever a step registers, the same step defines. */
  lemma StepRegistered(calls: map<nat, seq<Ident>>, lm: nat, k: nat, c: Command, fmt: FloatFormat, wat: string)
    ensures RegisteredDefined(c, k, lm, StepCode(calls, lm, k, c, fmt, wat))
  {
    StepNamesOf(calls, lm, k, c, fmt, wat);
    if c.kind.Module? {
      EmittedNamesModule(calls, lm, k, c, fmt, wat);
    } else {
      CommandCodeDefines(lm, k, c, fmt);
    }
  }

  // ---------------- appending code keeps the invariant ----------------

  lemma AppendModules(buf: seq<Fragment>, e: seq<Fragment>, n: nat, grow: bool)
    requires forall m: nat :: 1 <= m <= n ==> ModuleDefined(m, DefinedNames(buf))
    requires grow ==> ModuleDefined(n + 1, DefinedNames(e))
    ensures forall m: nat :: 1 <= m <= n + (if grow then 1 else 0) ==> ModuleDefined(m, DefinedNames(buf + e))
  {
    DefinedNamesAppend(buf, e);
    ModulesGrow(DefinedNames(buf), DefinedNames(e), n, grow);
  }

  lemma ModulesGrow(a: seq<Ident>, b: seq<Ident>, n: nat, grow: bool)
    requires forall m: nat :: 1 <= m <= n ==> ModuleDefined(m, a)
    requires grow ==> ModuleDefined(n + 1, b)
    ensures forall m: nat :: 1 <= m <= n + (if grow then 1 else 0) ==> ModuleDefined(m, a + b)
  {
    forall m: nat | 1 <= m <= n + (if grow then 1 else 0)
      ensures ModuleDefined(m, a + b)
    {
      if m <= n {
        assert ModuleDefined(m, a);
      } else {
        assert ModuleDefined(m, b);
      }
    }
  }

  lemma AppendRegistrations(p: seq<Command>, c: Command, buf: seq<Fragment>, e: seq<Fragment>)
    requires forall m: nat, id :: id in Registrations(p, m) ==> id in DefinedNames(buf)
    requires forall m: nat, id :: id in Registered(c, |p|, ModulesIn(p), m) ==> id in DefinedNames(e)
    ensures forall m: nat, id :: id in Registrations(p + [c], m) ==> id in DefinedNames(buf + e)
  {
    DefinedNamesAppend(buf, e);
    forall m: nat, id | id in Registrations(p + [c], m)
      ensures id in DefinedNames(buf) + DefinedNames(e)
    {
      Snoc(p, c, m);
    }
  }

  lemma AppendFactories(buf: seq<Fragment>, e: seq<Fragment>, n: nat, grow: bool)
    requires FactoriesInv(n, buf)
    requires forall j :: 0 <= j < |e| && e[j].ModuleFactory? ==> grow && e[j].index == n + 1 && j == |e| - 2
    ensures FactoriesInv(n + (if grow then 1 else 0), buf + e)
  {
    var nb := buf + e;
    forall j | 0 <= j < |nb| && nb[j].ModuleFactory?
      ensures 1 <= nb[j].index <= n + (if grow then 1 else 0)
    {
      if j < |buf| {
        assert nb[j] == buf[j];
      } else {
        assert nb[j] == e[j - |buf|];
      }
    }
    forall i, j | 0 <= i < j < |nb| && nb[i].ModuleFactory? && nb[j].ModuleFactory?
      ensures nb[i].index < nb[j].index
    {
      if j < |buf| {
        assert nb[i] == buf[i] && nb[j] == buf[j];
      } else if i < |buf| {
        assert nb[i] == buf[i] && nb[j] == e[j - |buf|];
      }
    }
  }

  lemma AppendBatches(buf: seq<Fragment>, e: seq<Fragment>, r: seq<Ident>)
    requires BatchesLinked(buf)
    requires forall id :: id in r ==> id in DefinedNames(buf)
    requires forall j :: 0 <= j < |e| && e[j].BatchTest? ==> e[j].calls == r
    ensures BatchesLinked(buf + e)
  {
    var nb := buf + e;
    DefinedNamesAppend(buf, e);
    forall j, id | 0 <= j < |nb| && nb[j].BatchTest? && id in nb[j].calls
      ensures id in DefinedNames(buf) + DefinedNames(e)
    {
      if j < |buf| {
        assert nb[j] == buf[j];
      } else {
        assert nb[j] == e[j - |buf|];
      }
    }
  }

  lemma AppendTraps(buf: seq<Fragment>, e: seq<Fragment>, n: nat, n': nat)
    requires TrapsLinked(n, buf) && n <= n'
    requires forall j :: 0 <= j < |e| && e[j].TrapTest? ==> e[j].action in DefinedNames(e) && e[j].instance <= n'
    ensures TrapsLinked(n', buf + e)
  {
    var nb := buf + e;
    DefinedNamesAppend(buf, e);
    forall j | 0 <= j < |nb| && nb[j].TrapTest?
      ensures nb[j].action in DefinedNames(buf) + DefinedNames(e) && nb[j].instance <= n'
    {
      if j < |buf| {
        assert nb[j] == buf[j];
      } else {
        assert nb[j] == e[j - |buf|];
      }
    }
  }

  // ---------------- the step and the whole stream ----------------

  /** On a module, the code `e` defines the new module's factory and start hook. */
  predicate NewModuleDefined(lm: nat, isModule: bool, e: seq<Fragment>)
  {
    isModule ==> ModuleDefined(lm + 1, DefinedNames(e))
  }

  /** The code `e` defines whatever command number `k` registers. */
  ghost predicate RegisteredDefined(c: Command, k: nat, lm: nat, e: seq<Fragment>)
  {
    forall m: nat, id :: id in Registered(c, k, lm, m) ==> id in DefinedNames(e)
  }

  /** A factory in the code `e` is the new module's, second to last, and only a module has one. */
  ghost predicate FactoryLast(lm: nat, isModule: bool, e: seq<Fragment>)
  {
    forall j :: 0 <= j < |e| && e[j].ModuleFactory? ==> isModule && e[j].index == lm + 1 && j == |e| - 2
  }

  /** Every batched test in the code `e` lists the calls `r`. */
  ghost predicate BatchesList(r: seq<Ident>, e: seq<Fragment>)
  {
    forall j :: 0 <= j < |e| && e[j].BatchTest? ==> e[j].calls == r
  }

  /** Every trap test in the code `e` runs a function `e` defines, on module `lm`. */
  ghost predicate TrapsOn(lm: nat, e: seq<Fragment>)
  {
    forall j :: 0 <= j < |e| && e[j].TrapTest? ==> e[j].action in DefinedNames(e) && e[j].instance == lm
  }

  /** What the code `e` of the command `c`, after the commands `p`, defines and refers to. */
  ghost predicate StepLinks(p: seq<Command>, c: Command, e: seq<Fragment>)
  {
    && NewModuleDefined(ModulesIn(p), c.kind.Module?, e)
    && RegisteredDefined(c, |p|, ModulesIn(p), e)
    && FactoryLast(ModulesIn(p), c.kind.Module?, e)
    && BatchesList(Registrations(p, ModulesIn(p)), e)
    && TrapsOn(ModulesIn(p), e)
  }

  /** Appending code with the facts a step's code has keeps the invariant. */
  lemma LinkAppend(p: seq<Command>, c: Command, buf: seq<Fragment>, e: seq<Fragment>)
    requires LinkInv(p, buf) && StepLinks(p, c, e)
    ensures LinkInv(p + [c], buf + e)
  {
    var lm := ModulesIn(p);
    var grow := c.kind.Module?;
    ModulesInSnoc(p, c);
    AppendModules(buf, e, lm, grow);
    AppendRegistrations(p, c, buf, e);
    AppendFactories(buf, e, lm, grow);
    AppendBatches(buf, e, Registrations(p, lm));
    AppendTraps(buf, e, lm, ModulesIn(p + [c]));
  }

  /** One command keeps what the buffer defines and refers to in step. */
  lemma LinkStep(p: seq<Command>, buf: seq<Fragment>, c: Command, fmt: FloatFormat, wat: string)
    requires LinkInv(p, buf)
    ensures LinkInv(p + [c], buf + StepCode(PendingMap(p), ModulesIn(p), |p|, c, fmt, wat))
  {
    StepLinksHold(p, c, fmt, wat);
    LinkAppend(p, c, buf, StepCode(PendingMap(p), ModulesIn(p), |p|, c, fmt, wat));
  }

  /** A step's code has those facts. */
  lemma StepLinksHold(p: seq<Command>, c: Command, fmt: FloatFormat, wat: string)
    ensures StepLinks(p, c, StepCode(PendingMap(p), ModulesIn(p), |p|, c, fmt, wat))
  {
    assert Pending(PendingMap(p), ModulesIn(p)) == Registrations(p, ModulesIn(p));
    StepLinksOf(p, PendingMap(p), ModulesIn(p), |p|, c, fmt, wat);
  }

  lemma StepLinksOf(p: seq<Command>, calls: map<nat, seq<Ident>>, lm: nat, k: nat, c: Command, fmt: FloatFormat, wat: string)
    requires lm == ModulesIn(p) && k == |p| && Pending(calls, lm) == Registrations(p, lm)
    ensures StepLinks(p, c, StepCode(calls, lm, k, c, fmt, wat))
  {
    StepModule(calls, lm, k, c, fmt, wat);
    StepRegistered(calls, lm, k, c, fmt, wat);
    StepFactories(calls, lm, k, c, fmt, wat);
    StepBatchCalls(calls, lm, k, c, fmt, wat);
    StepTraps(calls, lm, k, c, fmt, wat);
  }

  /** The invariant holds of `consume`'s buffer after every prefix of the stream. */
  lemma {:induction false} OutputLinked(p: seq<Command>, fmt: FloatFormat, disasm: Disassembler)
    ensures LinkInv(p, Output(p, fmt, disasm))
  {
    if p == [] {
      assert DefinedNames([Banner]) == [] by { DefinedNamesSingle(Banner); }
    } else {
      var init := p[..|p| - 1];
      var c := p[|p| - 1];
      OutputLinked(init, fmt, disasm);
      LinkSnoc(init, c, fmt, disasm);
      assert init + [c] == p;
    }
  }

  lemma LinkSnoc(p: seq<Command>, c: Command, fmt: FloatFormat, disasm: Disassembler)
    requires LinkInv(p, Output(p, fmt, disasm))
    ensures LinkInv(p + [c], Output(p + [c], fmt, disasm))
  {
    OutputSnoc(p, c, fmt, disasm);
    LinkStep(p, Output(p, fmt, disasm), c, fmt, Disassembly(c.kind, disasm));
  }

  /** What the final flush appends: at most the last module's wrapper. */
  lemma FinalFlushFacts(p: seq<Command>)
    ensures var f := FinalFlush(p);
      && DefinedNames(f) == (if ModulesIn(p) >= 1 then [TestModule(ModulesIn(p))] else [])
      && (forall j :: 0 <= j < |f| ==> f[j] == BatchTest(ModulesIn(p), Registrations(p, ModulesIn(p))))
  {
    if ModulesIn(p) >= 1 {
      DefinedNamesSingle(FinalFlush(p)[0]);
    }
  }

  /** The final flush defines only the last module's wrapper, whose calls are already defined. */
  lemma FinalLinked(p: seq<Command>, buf: seq<Fragment>, f: seq<Fragment>)
    requires LinkInv(p, buf)
    requires DefinedNames(f) == (if ModulesIn(p) >= 1 then [TestModule(ModulesIn(p))] else [])
    requires forall j :: 0 <= j < |f| ==> f[j] == BatchTest(ModulesIn(p), Registrations(p, ModulesIn(p)))
    ensures DefinedNames(buf + f) == DefinedNames(buf) + (if ModulesIn(p) >= 1 then [TestModule(ModulesIn(p))] else [])
    ensures FactoriesInv(ModulesIn(p), buf + f)
    ensures BatchesLinked(buf + f)
    ensures TrapsLinked(ModulesIn(p), buf + f)
  {
    var n := ModulesIn(p);
    DefinedNamesAppend(buf, f);
    AppendFactories(buf, f, n, false);
    AppendBatches(buf, f, Registrations(p, n));
    AppendTraps(buf, f, n, n);
  }

  /** Only `1..n` have factories and start hooks, when every name is below `n` modules and the rest are wrappers. */
  lemma ModulesExactly(names: seq<Ident>, extra: seq<Ident>, k: nat, n: nat)
    requires forall id :: id in names ==> NameBelow(id, k, n)
    requires forall m: nat :: 1 <= m <= n ==> ModuleDefined(m, names)
    requires forall id :: id in extra ==> id.TestModule?
    ensures forall m: nat :: CreateModule(m) in names + extra <==> 1 <= m <= n
    ensures forall m: nat :: StartModule(m) in names + extra <==> 1 <= m <= n
  {
    forall m: nat ensures CreateModule(m) in names + extra <==> 1 <= m <= n {
      if CreateModule(m) in names + extra {
        assert CreateModule(m) in names;
        assert NameBelow(CreateModule(m), k, n);
      }
      if 1 <= m <= n {
        assert ModuleDefined(m, names);
      }
    }
    forall m: nat ensures StartModule(m) in names + extra <==> 1 <= m <= n {
      if StartModule(m) in names + extra {
        assert StartModule(m) in names;
        assert NameBelow(StartModule(m), k, n);
      }
      if 1 <= m <= n {
        assert ModuleDefined(m, names);
      }
    }
  }

  /**
   * `consume`'s whole buffer: module `m`'s `create_module_m` and
   * `start_module_m` are defined exactly for 1 <= m <= N, the factories
   * come in increasing order, every call of every batched test and the
   * action of every trap test is defined, and a trap test runs on a module
   * already met. Module 0 is never defined, so the batch of calls made
   * before the first module, and a trap test before it, name the missing
   * `create_module_0`.
   */
  lemma Linked(p: seq<Command>, fmt: FloatFormat, disasm: Disassembler)
    ensures var out := Output(p, fmt, disasm) + FinalFlush(p);
      && (forall m: nat :: CreateModule(m) in DefinedNames(out) <==> 1 <= m <= ModulesIn(p))
      && (forall m: nat :: StartModule(m) in DefinedNames(out) <==> 1 <= m <= ModulesIn(p))
      && FactoriesInv(ModulesIn(p), out)
      && BatchesLinked(out)
      && TrapsLinked(ModulesIn(p), out)
  {
    var n := ModulesIn(p);
    var buf := Output(p, fmt, disasm);
    OutputLinked(p, fmt, disasm);
    OutputInv(p, fmt, disasm);
    FinalFlushFacts(p);
    FinalLinked(p, buf, FinalFlush(p));
    ModulesExactly(DefinedNames(buf), if n >= 1 then [TestModule(n)] else [], |p|, n);
  }

  /**
   * Everything `consume`'s buffer satisfies once the whole stream has run:
   * the batch counts and contents of `Finish`, distinct names, and the
   * module numbering and references of `Linked`. In particular every
   * `create_module_m` that a batched test or a trap test calls is defined,
   * except `create_module_0`.
   */
  lemma Consumed(p: seq<Command>, fmt: FloatFormat, disasm: Disassembler)
    ensures var out := Output(p, fmt, disasm) + FinalFlush(p);
      && (forall m: nat :: 1 <= m <= ModulesIn(p) ==>
            CountBatches(out, m) == 1 && BatchTest(m, Registrations(p, m)) in out)
      && CountBatches(out, 0) == (if ModulesIn(p) >= 1 && Registrations(p, 0) != [] then 1 else 0)
      && (forall m: nat :: m > ModulesIn(p) ==> CountBatches(out, m) == 0)
      && (forall j :: 0 <= j < |out| && out[j].BatchTest? ==> out[j].calls == Registrations(p, out[j].index))
      && NoDuplicates(DefinedNames(out))
      && (forall m: nat :: CreateModule(m) in DefinedNames(out) <==> 1 <= m <= ModulesIn(p))
      && (forall m: nat :: StartModule(m) in DefinedNames(out) <==> 1 <= m <= ModulesIn(p))
      && FactoriesInv(ModulesIn(p), out) && BatchesLinked(out) && TrapsLinked(ModulesIn(p), out)
      && (forall j :: 0 <= j < |out| && out[j].BatchTest? && out[j].index >= 1 ==>
            CreateModule(out[j].index) in DefinedNames(out))
      && (forall j :: 0 <= j < |out| && out[j].TrapTest? && out[j].instance >= 1 ==>
            CreateModule(out[j].instance) in DefinedNames(out))
  {
    var out := Output(p, fmt, disasm) + FinalFlush(p);
    OutputInv(p, fmt, disasm);
    Finish(p, Output(p, fmt, disasm));
    Linked(p, fmt, disasm);
    forall m: nat | 1 <= m <= ModulesIn(p)
      ensures BatchTest(m, Registrations(p, m)) in out
    {
      CountBatchesPositive(out, m);
    }
  }
}
