/**
 * The invariant `consume` keeps over the command stream: after the first
 * `|p|` commands `p`, the pending-call table holds exactly the current
 * module's registrations, every earlier module with registrations has
 * exactly one batched wrapper listing them in order, and every name defined
 * so far is distinct and stamped with a command or module number already seen.
 */
module StreamInvariant {
  import opened Wrappers
  import opened ValueCodec
  import opened Script
  import opened Visit
  import opened Escape

  /** The pending-call table expected after the commands `p`. */
  function PendingMap(p: seq<Command>): map<nat, seq<Ident>>
  {
    var m := ModulesIn(p);
    if Registrations(p, m) == [] then map[] else map[m := Registrations(p, m)]
  }

  /** A name defined once `commands` commands and `modules` modules have been seen. */
  predicate NameBelow(id: Ident, commands: nat, modules: nat)
  {
    match id
    case CommandFn(k, _, _) => k < commands
    case CreateModule(m) => 1 <= m <= modules
    case StartModule(m) => 1 <= m <= modules
    case TestModule(m) => m < modules
  }

  ghost predicate BatchesInv(p: seq<Command>, buf: seq<Fragment>)
  {
    && (forall m: nat :: m < ModulesIn(p) ==>
          CountBatches(buf, m) == (if Registrations(p, m) == [] then 0 else 1))
    && (forall m: nat :: m >= ModulesIn(p) ==> CountBatches(buf, m) == 0)
    && (forall j :: 0 <= j < |buf| && buf[j].BatchTest? ==>
          buf[j].index < ModulesIn(p) && buf[j].calls == Registrations(p, buf[j].index))
  }

  ghost predicate NamesInv(p: seq<Command>, buf: seq<Fragment>)
  {
    && NoDuplicates(DefinedNames(buf))
    && (forall id :: id in DefinedNames(buf) ==> NameBelow(id, |p|, ModulesIn(p)))
  }

  ghost predicate Inv(p: seq<Command>, calls: map<nat, seq<Ident>>, buf: seq<Fragment>)
  {
    calls == PendingMap(p) && BatchesInv(p, buf) && NamesInv(p, buf)
  }

  // ---------------- small facts about one more command ----------------

  lemma Snoc(p: seq<Command>, c: Command, m: nat)
    ensures ModulesIn(p + [c]) == ModulesIn(p) + (if c.kind.Module? then 1 else 0)
    ensures Registrations(p + [c], m) == Registrations(p, m) + Registered(c, |p|, ModulesIn(p), m)
  {
    assert (p + [c])[..|p|] == p;
  }

  lemma ModulesInSnoc(p: seq<Command>, c: Command)
    ensures ModulesIn(p + [c]) == ModulesIn(p) + (if c.kind.Module? then 1 else 0)
  {
    assert (p + [c])[..|p|] == p;
  }

  lemma CountBatchesNone(s: seq<Fragment>, m: nat)
    requires forall j :: 0 <= j < |s| ==> !s[j].BatchTest?
    ensures CountBatches(s, m) == 0
  {
    if s != [] {
      CountBatchesNone(s[..|s| - 1], m);
    }
  }

  lemma DefinedNamesSingle(f: Fragment)
    ensures DefinedNames([f]) == FragmentNames(f)
  {
    assert [f][..0] == [];
  }

  // ---------------- the step ----------------

  /** The table `NextCalls` computes is the one expected after one more command. */
  lemma StepPendingMap(p: seq<Command>, c: Command)
    ensures NextCalls(PendingMap(p), ModulesIn(p), |p|, c) == PendingMap(p + [c])
  {
    if c.kind.Module? {
      StepPendingModule(p, c);
    } else if CallKind(c.kind).Some? {
      StepPendingCall(p, c);
    } else {
      StepPendingOther(p, c);
    }
  }

  lemma StepPendingOther(p: seq<Command>, c: Command)
    requires !c.kind.Module? && CallKind(c.kind).None?
    ensures NextCalls(PendingMap(p), ModulesIn(p), |p|, c) == PendingMap(p + [c])
  {
    var lm := ModulesIn(p);
    Snoc(p, c, lm);
    assert Registered(c, |p|, lm, lm) == [];
    assert ModulesIn(p + [c]) == lm;
    assert Registrations(p + [c], lm) == Registrations(p, lm);
  }

  lemma StepPendingModule(p: seq<Command>, c: Command)
    requires c.kind.Module?
    ensures NextCalls(PendingMap(p), ModulesIn(p), |p|, c) == PendingMap(p + [c])
  {
    NextCallsAtModule(p, c);
    SnocModule(p, c);
  }

  lemma NextCallsAtModule(p: seq<Command>, c: Command)
    requires c.kind.Module?
    ensures NextCalls(PendingMap(p), ModulesIn(p), |p|, c) == map[ModulesIn(p) + 1 := [StartModule(ModulesIn(p) + 1)]]
  {
    var lm := ModulesIn(p);
    var calls := PendingMap(p);
    PendingMapOf(p, lm, Registrations(p, lm));
    assert calls.Keys <= {lm};
    NextCallsModule(calls, lm, |p|, c);
  }

  /** A module drops a table holding at most the current module's entry and starts the next one. */
  lemma NextCallsModule(calls: map<nat, seq<Ident>>, lm: nat, k: nat, c: Command)
    requires c.kind.Module? && calls.Keys <= {lm}
    ensures NextCalls(calls, lm, k, c) == map[lm + 1 := [StartModule(lm + 1)]]
  {
    var flushed := calls - {lm};
    assert flushed == map[];
    assert Pending(flushed, lm + 1) + [StartModule(lm + 1)] == [StartModule(lm + 1)];
  }

  lemma SnocModule(p: seq<Command>, c: Command)
    requires c.kind.Module?
    ensures PendingMap(p + [c]) == map[ModulesIn(p) + 1 := [StartModule(ModulesIn(p) + 1)]]
  {
    SnocModuleFacts(p, c);
    PendingMapOf(p + [c], ModulesIn(p) + 1, [StartModule(ModulesIn(p) + 1)]);
  }

  lemma SnocModuleFacts(p: seq<Command>, c: Command)
    requires c.kind.Module?
    ensures ModulesIn(p + [c]) == ModulesIn(p) + 1
    ensures Registrations(p + [c], ModulesIn(p) + 1) == [StartModule(ModulesIn(p) + 1)]
  {
    var lm := ModulesIn(p);
    Snoc(p, c, lm + 1);
    RegistrationsAbove(p, lm + 1);
    assert Registered(c, |p|, lm, lm + 1) == [StartModule(lm + 1)];
  }

  /** `PendingMap` once the last module and its registrations are known. */
  lemma PendingMapOf(p: seq<Command>, m: nat, r: seq<Ident>)
    requires ModulesIn(p) == m && Registrations(p, m) == r
    ensures PendingMap(p) == if r == [] then map[] else map[m := r]
  {
  }

  lemma StepPendingCall(p: seq<Command>, c: Command)
    requires !c.kind.Module? && CallKind(c.kind).Some?
    ensures NextCalls(PendingMap(p), ModulesIn(p), |p|, c) == PendingMap(p + [c])
  {
    NextCallsAtCall(p, c);
    SnocCall(p, c);
  }

  lemma NextCallsAtCall(p: seq<Command>, c: Command)
    requires !c.kind.Module? && CallKind(c.kind).Some?
    ensures NextCalls(PendingMap(p), ModulesIn(p), |p|, c) ==
      map[ModulesIn(p) := Registrations(p, ModulesIn(p)) + [CommandFn(|p|, c.line, CallKind(c.kind).value)]]
  {
    var lm := ModulesIn(p);
    var r := Registrations(p, lm);
    PendingMapOf(p, lm, r);
    NextCallsCall(PendingMap(p), lm, |p|, c, r);
  }

  /** A registering command appends its function to the current module's entry. */
  lemma NextCallsCall(calls: map<nat, seq<Ident>>, lm: nat, k: nat, c: Command, r: seq<Ident>)
    requires !c.kind.Module? && CallKind(c.kind).Some?
    requires calls == if r == [] then map[] else map[lm := r]
    ensures NextCalls(calls, lm, k, c) == map[lm := r + [CommandFn(k, c.line, CallKind(c.kind).value)]]
  {
    assert Pending(calls, lm) == r;
    UpdateSingleton(calls, lm, r + [CommandFn(k, c.line, CallKind(c.kind).value)]);
  }

  lemma UpdateSingleton(m: map<nat, seq<Ident>>, k: nat, v: seq<Ident>)
    requires m.Keys <= {k}
    ensures m[k := v] == map[k := v]
  {
  }

  lemma SnocCall(p: seq<Command>, c: Command)
    requires !c.kind.Module? && CallKind(c.kind).Some?
    ensures PendingMap(p + [c]) ==
      map[ModulesIn(p) := Registrations(p, ModulesIn(p)) + [CommandFn(|p|, c.line, CallKind(c.kind).value)]]
  {
    Snoc(p, c, ModulesIn(p));
  }

  /** The code one step appends: the command's line comment, then what its visit emits. */
  function StepCode(calls: map<nat, seq<Ident>>, lm: nat, k: nat, c: Command, fmt: FloatFormat, wat: string)
    : seq<Fragment>
  {
    [LineComment(c.line)] + Emitted(calls, lm, k, c, fmt, wat)
  }

  /** Where the wrappers of one step's code are, and what they list. */
  lemma EmittedBatches(calls: map<nat, seq<Ident>>, lm: nat, k: nat, c: Command, fmt: FloatFormat, wat: string, m: nat)
    ensures var e := StepCode(calls, lm, k, c, fmt, wat);
      && CountBatches(e, m) == (if c.kind.Module? && m == lm && Pending(calls, lm) != [] then 1 else 0)
      && (forall j :: 0 <= j < |e| && e[j].BatchTest? ==>
            c.kind.Module? && e[j] == BatchTest(lm, Pending(calls, lm)))
  {
    var e := StepCode(calls, lm, k, c, fmt, wat);
    var head := [LineComment(c.line)];
    CountBatchesNone(head, m);
    if c.kind.Module? {
      var f := Flushed(calls, lm);
      var tail := [ModuleFactory(lm + 1, EscapeModuleText(wat)), StartFn(lm + 1)];
      assert e == head + f + tail;
      CountBatchesNone(tail, m);
      CountBatchesAppend(head, f, m);
      CountBatchesAppend(head + f, tail, m);
      if f != [] {
        assert f[..0] == [];
      }
    } else {
      CountBatchesNone(e, m);
    }
  }

  lemma DefinedNamesPair(x: Fragment, y: Fragment)
    ensures DefinedNames([x, y]) == FragmentNames(x) + FragmentNames(y)
  {
    assert [x, y][..1] == [x];
    DefinedNamesSingle(x);
  }

  lemma FlushedNames(calls: map<nat, seq<Ident>>, lm: nat)
    ensures DefinedNames(Flushed(calls, lm)) == (if Pending(calls, lm) != [] then [TestModule(lm)] else [])
  {
    if Pending(calls, lm) != [] {
      DefinedNamesSingle(BatchTest(lm, Pending(calls, lm)));
    }
  }

  /** A module's step defines its predecessor's wrapper (if flushed) and its own two functions. */
  lemma EmittedNamesModule(calls: map<nat, seq<Ident>>, lm: nat, k: nat, c: Command, fmt: FloatFormat, wat: string)
    requires c.kind.Module?
    ensures DefinedNames(Emitted(calls, lm, k, c, fmt, wat))
         == (if Pending(calls, lm) != [] then [TestModule(lm)] else []) + [CreateModule(lm + 1), StartModule(lm + 1)]
  {
    var f := Flushed(calls, lm);
    var tail := [ModuleFactory(lm + 1, EscapeModuleText(wat)), StartFn(lm + 1)];
    assert Emitted(calls, lm, k, c, fmt, wat) == f + tail;
    DefinedNamesAppend(f, tail);
    DefinedNamesPair(tail[0], tail[1]);
    FlushedNames(calls, lm);
  }

  /** Any other step defines only functions named after its own command, each of a different kind. */
  lemma EmittedNamesCommand(calls: map<nat, seq<Ident>>, lm: nat, k: nat, c: Command, fmt: FloatFormat, wat: string)
    requires !c.kind.Module?
    ensures var names := DefinedNames(Emitted(calls, lm, k, c, fmt, wat));
      && NoDuplicates(names)
      && forall id :: id in names ==> id.CommandFn? && id.command == k
  {
    var em := CommandCode(lm, k, c, fmt);
    assert Emitted(calls, lm, k, c, fmt, wat) == em;
    if c.kind.AssertTrap? && c.kind.action.Invoke? {
      DefinedNamesPair(em[0], em[1]);
    } else {
      CommandCodeSingle(lm, k, c, fmt);
    }
  }

  lemma CommandCodeSingle(lm: nat, k: nat, c: Command, fmt: FloatFormat)
    requires !c.kind.Module? && !(c.kind.AssertTrap? && c.kind.action.Invoke?)
    ensures var names := DefinedNames(CommandCode(lm, k, c, fmt));
      |names| <= 1 && forall id :: id in names ==> id.CommandFn? && id.command == k
  {
    var em := CommandCode(lm, k, c, fmt);
    if em != [] {
      assert |em| == 1;
      DefinedNamesSingle(em[0]);
    }
  }

  /** The names one step defines: distinct, and new (stamped with this command or the next module). */
  lemma EmittedNames(calls: map<nat, seq<Ident>>, lm: nat, k: nat, c: Command, fmt: FloatFormat, wat: string)
    ensures var names := DefinedNames(StepCode(calls, lm, k, c, fmt, wat));
      && NoDuplicates(names)
      && (forall id :: id in names ==>
            NameBelow(id, k + 1, lm + (if c.kind.Module? then 1 else 0)) && !NameBelow(id, k, lm))
  {
    var em := Emitted(calls, lm, k, c, fmt, wat);
    DefinedNamesSingle(LineComment(c.line));
    DefinedNamesAppend([LineComment(c.line)], em);
    assert DefinedNames(StepCode(calls, lm, k, c, fmt, wat)) == DefinedNames(em);
    EmittedNamesFresh(calls, lm, k, c, fmt, wat);
  }

  lemma EmittedNamesFresh(calls: map<nat, seq<Ident>>, lm: nat, k: nat, c: Command, fmt: FloatFormat, wat: string)
    ensures var names := DefinedNames(Emitted(calls, lm, k, c, fmt, wat));
      && NoDuplicates(names)
      && (forall id :: id in names ==>
            NameBelow(id, k + 1, lm + (if c.kind.Module? then 1 else 0)) && !NameBelow(id, k, lm))
  {
    var names := DefinedNames(Emitted(calls, lm, k, c, fmt, wat));
    if c.kind.Module? {
      EmittedNamesModule(calls, lm, k, c, fmt, wat);
      forall id | id in names
        ensures NameBelow(id, k + 1, lm + 1) && !NameBelow(id, k, lm)
      {
        assert id == TestModule(lm) || id == CreateModule(lm + 1) || id == StartModule(lm + 1);
      }
    } else {
      EmittedNamesCommand(calls, lm, k, c, fmt, wat);
    }
  }

  /** Registrations of modules up to the current one after one more command. */
  lemma SnocRegistrations(p: seq<Command>, c: Command, m: nat)
    requires m <= ModulesIn(p)
    ensures Registrations(p + [c], m) == Registrations(p, m) +
      (if m == ModulesIn(p) && !c.kind.Module? && CallKind(c.kind).Some?
       then [CommandFn(|p|, c.line, CallKind(c.kind).value)] else [])
  {
    Snoc(p, c, m);
  }

  /** The number of wrappers for module `m` after one more command. */
  lemma StepCount(p: seq<Command>, buf: seq<Fragment>, c: Command, fmt: FloatFormat, wat: string, m: nat)
    requires BatchesInv(p, buf)
    ensures CountBatches(buf + StepCode(PendingMap(p), ModulesIn(p), |p|, c, fmt, wat), m)
         == (if m < ModulesIn(p + [c]) && Registrations(p + [c], m) != [] then 1 else 0)
  {
    var lm := ModulesIn(p);
    var e := StepCode(PendingMap(p), lm, |p|, c, fmt, wat);
    Snoc(p, c, m);
    CountBatchesAppend(buf, e, m);
    EmittedBatches(PendingMap(p), lm, |p|, c, fmt, wat, m);
    assert Pending(PendingMap(p), lm) == Registrations(p, lm);
    if m <= lm {
      SnocRegistrations(p, c, m);
    }
  }

  /** Every wrapper after one more command lists its module's registrations. */
  lemma StepBatchContents(p: seq<Command>, buf: seq<Fragment>, c: Command, fmt: FloatFormat, wat: string, j: nat)
    requires BatchesInv(p, buf)
    requires var nb := buf + StepCode(PendingMap(p), ModulesIn(p), |p|, c, fmt, wat);
      j < |nb| && nb[j].BatchTest?
    ensures var nb := buf + StepCode(PendingMap(p), ModulesIn(p), |p|, c, fmt, wat);
      nb[j].index < ModulesIn(p + [c]) && nb[j].calls == Registrations(p + [c], nb[j].index)
  {
    var lm := ModulesIn(p);
    var e := StepCode(PendingMap(p), lm, |p|, c, fmt, wat);
    Snoc(p, c, 0);
    if j < |buf| {
      assert (buf + e)[j] == buf[j];
      SnocRegistrations(p, c, buf[j].index);
    } else {
      assert (buf + e)[j] == e[j - |buf|];
      EmittedBatches(PendingMap(p), lm, |p|, c, fmt, wat, 0);
      assert Pending(PendingMap(p), lm) == Registrations(p, lm);
      SnocRegistrations(p, c, lm);
    }
  }

  lemma StepBatches(p: seq<Command>, buf: seq<Fragment>, c: Command, fmt: FloatFormat, wat: string)
    requires BatchesInv(p, buf)
    ensures BatchesInv(p + [c], buf + StepCode(PendingMap(p), ModulesIn(p), |p|, c, fmt, wat))
  {
    var nb := buf + StepCode(PendingMap(p), ModulesIn(p), |p|, c, fmt, wat);
    forall m: nat
      ensures CountBatches(nb, m) == (if m < ModulesIn(p + [c]) && Registrations(p + [c], m) != [] then 1 else 0)
    {
      StepCount(p, buf, c, fmt, wat, m);
    }
    forall j | 0 <= j < |nb| && nb[j].BatchTest?
      ensures nb[j].index < ModulesIn(p + [c]) && nb[j].calls == Registrations(p + [c], nb[j].index)
    {
      StepBatchContents(p, buf, c, fmt, wat, j);
    }
  }

  lemma StepNames(p: seq<Command>, calls: map<nat, seq<Ident>>, buf: seq<Fragment>, c: Command, fmt: FloatFormat, wat: string)
    requires NamesInv(p, buf)
    ensures NamesInv(p + [c], buf + StepCode(calls, ModulesIn(p), |p|, c, fmt, wat))
  {
    var lm := ModulesIn(p);
    var old_ := DefinedNames(buf);
    var fresh_ := DefinedNames(StepCode(calls, lm, |p|, c, fmt, wat));
    Snoc(p, c, 0);
    EmittedNames(calls, lm, |p|, c, fmt, wat);
    DefinedNamesAppend(buf, StepCode(calls, lm, |p|, c, fmt, wat));
    forall id | id in old_ ensures id !in fresh_ && NameBelow(id, |p| + 1, ModulesIn(p + [c])) {
      assert NameBelow(id, |p|, lm);
    }
    NoDuplicatesAppend(old_, fresh_);
    forall id | id in old_ + fresh_ ensures NameBelow(id, |p| + 1, ModulesIn(p + [c])) {
      if id in old_ {} else { assert id in fresh_; }
    }
  }

  /** One command keeps the invariant. */
  lemma Step(p: seq<Command>, calls: map<nat, seq<Ident>>, buf: seq<Fragment>, c: Command, fmt: FloatFormat, wat: string)
    requires Inv(p, calls, buf)
    ensures Inv(p + [c], NextCalls(calls, ModulesIn(p), |p|, c),
                buf + StepCode(calls, ModulesIn(p), |p|, c, fmt, wat))
  {
    StepPendingMap(p, c);
    StepBatches(p, buf, c, fmt, wat);
    StepNames(p, calls, buf, c, fmt, wat);
  }

  // ---------------- the whole stream ----------------

  /** The code `consume` has written after the banner and the commands `p`. */
  function Output(p: seq<Command>, fmt: FloatFormat, disasm: Disassembler): (r: seq<Fragment>)
    ensures |r| > 0 && r[0] == Banner
  {
    if p == [] then [Banner]
    else
      var init := p[..|p| - 1];
      var c := p[|p| - 1];
      Output(init, fmt, disasm) + StepCode(PendingMap(init), ModulesIn(init), |init|, c, fmt, Disassembly(c.kind, disasm))
  }

  lemma OutputSnoc(p: seq<Command>, c: Command, fmt: FloatFormat, disasm: Disassembler)
    ensures Output(p + [c], fmt, disasm) ==
      Output(p, fmt, disasm) + StepCode(PendingMap(p), ModulesIn(p), |p|, c, fmt, Disassembly(c.kind, disasm))
  {
    assert (p + [c])[..|p|] == p;
  }

  /** One visit takes `consume`'s state after `p` to its state after `p + [c]`. */
  lemma StepOutput(p: seq<Command>, c: Command, fmt: FloatFormat, disasm: Disassembler,
                   calls: map<nat, seq<Ident>>, buf: seq<Fragment>, calls': map<nat, seq<Ident>>, buf': seq<Fragment>)
    requires calls == PendingMap(p) && buf == Output(p, fmt, disasm)
    requires calls' == NextCalls(calls, ModulesIn(p), |p|, c)
    requires buf' == buf + StepCode(calls, ModulesIn(p), |p|, c, fmt, Disassembly(c.kind, disasm))
    ensures calls' == PendingMap(p + [c]) && buf' == Output(p + [c], fmt, disasm)
  {
    OutputSnoc(p, c, fmt, disasm);
    StepPendingMap(p, c);
  }

  /** `StepOutput` for the command at index `i` of a stream, with the module count. */
  lemma StepAt(s: seq<Command>, i: nat, fmt: FloatFormat, disasm: Disassembler, lm: nat,
               calls: map<nat, seq<Ident>>, buf: seq<Fragment>,
               lm': nat, calls': map<nat, seq<Ident>>, buf': seq<Fragment>)
    requires i < |s| && lm == ModulesIn(s[..i])
    requires calls == PendingMap(s[..i]) && buf == Output(s[..i], fmt, disasm)
    requires lm' == lm + (if s[i].kind.Module? then 1 else 0)
    requires calls' == NextCalls(calls, lm, i, s[i])
    requires buf' == buf + StepCode(calls, lm, i, s[i], fmt, Disassembly(s[i].kind, disasm))
    ensures lm' == ModulesIn(s[..i + 1])
    ensures calls' == PendingMap(s[..i + 1]) && buf' == Output(s[..i + 1], fmt, disasm)
  {
    TakeSnoc(s, i);
    StepOutput(s[..i], s[i], fmt, disasm, calls, buf, calls', buf');
    ModulesInSnoc(s[..i], s[i]);
  }

  lemma TakeSnoc(s: seq<Command>, i: nat)
    requires i < |s|
    ensures s[..i] + [s[i]] == s[..i + 1]
  {
  }

  /** The invariant holds of `consume`'s state after every prefix of the stream. */
  lemma {:induction false} OutputInv(p: seq<Command>, fmt: FloatFormat, disasm: Disassembler)
    ensures Inv(p, PendingMap(p), Output(p, fmt, disasm))
  {
    if p == [] {
      Start();
    } else {
      var init := p[..|p| - 1];
      var c := p[|p| - 1];
      OutputInv(init, fmt, disasm);
      InvLast(p, fmt, disasm);
    }
  }

  /** The last command of a non-empty stream keeps the invariant of `consume`'s state. */
  lemma InvLast(p: seq<Command>, fmt: FloatFormat, disasm: Disassembler)
    requires p != [] && Inv(p[..|p| - 1], PendingMap(p[..|p| - 1]), Output(p[..|p| - 1], fmt, disasm))
    ensures Inv(p, PendingMap(p), Output(p, fmt, disasm))
  {
    var init := p[..|p| - 1];
    var c := p[|p| - 1];
    var calls := PendingMap(init);
    var buf := Output(init, fmt, disasm);
    var e := StepCode(calls, ModulesIn(init), |init|, c, fmt, Disassembly(c.kind, disasm));
    assert init + [c] == p;
    assert Output(p, fmt, disasm) == buf + e;
    StepPendingMap(init, c);
    Step(init, calls, buf, c, fmt, Disassembly(c.kind, disasm));
  }

  // ---------------- the ends of the stream ----------------

  /** Before any command: only the banner, nothing pending. */
  lemma Start()
    ensures Inv([], map[], [Banner])
  {
    assert [Banner][..0] == [];
    forall m: nat ensures CountBatches([Banner], m) == 0 {
      CountBatchesNone([Banner], m);
    }
    assert DefinedNames([Banner]) == [];
  }

  /** What the final loop `for n in 1..=last_module` appends: the last module's batch. */
  function FinalFlush(p: seq<Command>): seq<Fragment>
  {
    var n := ModulesIn(p);
    if n >= 1 then [BatchTest(n, Registrations(p, n))] else []
  }

  /** A module counted once has its wrapper in the buffer. */
  lemma {:induction false} CountBatchesPositive(buf: seq<Fragment>, m: nat)
    requires CountBatches(buf, m) > 0
    ensures exists j :: 0 <= j < |buf| && buf[j].BatchTest? && buf[j].index == m
  {
    var last := |buf| - 1;
    if !(buf[last].BatchTest? && buf[last].index == m) {
      CountBatchesPositive(buf[..last], m);
      var j :| 0 <= j < last && buf[..last][j].BatchTest? && buf[..last][j].index == m;
      assert buf[j] == buf[..last][j];
    }
  }

  lemma FinishCount(p: seq<Command>, buf: seq<Fragment>, m: nat)
    requires BatchesInv(p, buf)
    ensures CountBatches(buf + FinalFlush(p), m) ==
      if 1 <= m <= ModulesIn(p) then 1
      else if m == 0 && ModulesIn(p) >= 1 && Registrations(p, 0) != [] then 1
      else 0
  {
    var n := ModulesIn(p);
    var f := FinalFlush(p);
    CountBatchesAppend(buf, f, m);
    if n >= 1 {
      assert f[..0] == [];
      assert CountBatches(f, m) == (if m == n then 1 else 0);
    }
    if 1 <= m < n {
      RegistrationsStart(p, m);
    }
  }

  lemma FinishContents(p: seq<Command>, buf: seq<Fragment>, j: nat)
    requires BatchesInv(p, buf)
    requires j < |buf + FinalFlush(p)| && (buf + FinalFlush(p))[j].BatchTest?
    ensures var out := buf + FinalFlush(p);
      out[j].index <= ModulesIn(p) && out[j].calls == Registrations(p, out[j].index)
  {
    if j < |buf| {
      assert (buf + FinalFlush(p))[j] == buf[j];
    }
  }

  lemma FinishNames(p: seq<Command>, buf: seq<Fragment>)
    requires NamesInv(p, buf)
    ensures NoDuplicates(DefinedNames(buf + FinalFlush(p)))
  {
    var n := ModulesIn(p);
    var f := FinalFlush(p);
    if n >= 1 {
      DefinedNamesSingle(f[0]);
      DefinedNamesAppend(buf, f);
      assert !NameBelow(TestModule(n), |p|, n);
      NoDuplicatesAppend(DefinedNames(buf), [TestModule(n)]);
    } else {
      assert buf + f == buf;
    }
  }

  /**
   * After the whole stream and the final flush: every module from 1 up has
   * exactly one wrapper, module 0 has one only if it had calls and a module
   * followed, every wrapper lists its module's registrations, and all
   * defined names are distinct.
   */
  lemma Finish(p: seq<Command>, buf: seq<Fragment>)
    requires Inv(p, PendingMap(p), buf)
    ensures var out := buf + FinalFlush(p);
      && (forall m: nat :: 1 <= m <= ModulesIn(p) ==> CountBatches(out, m) == 1)
      && CountBatches(out, 0) == (if ModulesIn(p) >= 1 && Registrations(p, 0) != [] then 1 else 0)
      && (forall m: nat :: m > ModulesIn(p) ==> CountBatches(out, m) == 0)
      && (forall j :: 0 <= j < |out| && out[j].BatchTest? ==>
            out[j].index <= ModulesIn(p) && out[j].calls == Registrations(p, out[j].index))
      && NoDuplicates(DefinedNames(out))
  {
    var out := buf + FinalFlush(p);
    forall m: nat ensures CountBatches(out, m) ==
      if 1 <= m <= ModulesIn(p) then 1
      else if m == 0 && ModulesIn(p) >= 1 && Registrations(p, 0) != [] then 1
      else 0
    {
      FinishCount(p, buf, m);
    }
    forall j | 0 <= j < |out| && out[j].BatchTest?
      ensures out[j].index <= ModulesIn(p) && out[j].calls == Registrations(p, out[j].index)
    {
      FinishContents(p, buf, j);
    }
    FinishNames(p, buf);
  }
}
