/**
 * `build` and `generate_spectest`: one generated test module per script
 * that is not too large, appended to the output file after the common
 * preamble, and named after the script's file name.
 */
module Build {
  import opened Wrappers
  import opened ValueCodec
  import opened Script
  import opened Visit
  import opened StreamInvariant
  import opened Generator

  // ---------------- the test name ----------------

  /** `split(sep).last()`: what follows the last `sep`, or all of `s` when there is none. */
  function AfterLast(s: string, sep: char): (r: string)
    ensures |r| <= |s| && sep !in r
  {
    if s == [] then []
    else if s[|s| - 1] == sep then []
    else AfterLast(s[..|s| - 1], sep) + [s[|s| - 1]]
  }

  /** `split(sep).next()`: what precedes the first `sep`, or all of `s` when there is none. */
  function BeforeFirst(s: string, sep: char): (r: string)
    ensures |r| <= |s| && sep !in r
  {
    if s == [] then []
    else if s[0] == sep then []
    else [s[0]] + BeforeFirst(s[1..], sep)
  }

  /** The name `build` gives a script's test module: its file name up to the first dot, holding neither `/` nor `.`. */
  function TestName(path: string): (r: string)
    ensures '/' !in r && '.' !in r
  {
    BeforeFirstSpec(AfterLast(path, '/'), '.');
    BeforeFirst(AfterLast(path, '/'), '.')
  }

  /** `AfterLast` is the longest suffix free of `sep`: it is preceded by `sep` or the start of `s`. */
  lemma {:induction false} AfterLastSpec(s: string, sep: char)
    ensures var r := AfterLast(s, sep);
      && r == s[|s| - |r|..]
      && (|r| < |s| ==> s[|s| - |r| - 1] == sep)
  {
    if s != [] && s[|s| - 1] != sep {
      var init := s[..|s| - 1];
      AfterLastSpec(init, sep);
      var r := AfterLast(init, sep);
      assert s[|s| - |r| - 1..] == init[|init| - |r|..] + [s[|s| - 1]];
      if |r| < |init| {
        assert s[|s| - |r| - 2] == init[|init| - |r| - 1];
      }
    }
  }

  /** `BeforeFirst` is the longest prefix free of `sep`: it is followed by `sep` or the end of `s`. */
  lemma {:induction false} BeforeFirstSpec(s: string, sep: char)
    ensures var r := BeforeFirst(s, sep);
      && r == s[..|r|]
      && (|r| < |s| ==> s[|r|] == sep)
  {
    if s != [] && s[0] != sep {
      BeforeFirstSpec(s[1..], sep);
      var r := BeforeFirst(s[1..], sep);
      assert s[..|r| + 1] == [s[0]] + s[1..][..|r|];
    }
  }

  /** A suffix of `s` without `sep`, preceded by `sep` or the start of `s`, is `AfterLast`. */
  lemma AfterLastUnique(s: string, sep: char, r: string)
    requires |r| <= |s| && r == s[|s| - |r|..] && sep !in r
    requires |r| < |s| ==> s[|s| - |r| - 1] == sep
    ensures r == AfterLast(s, sep)
  {
    AfterLastSpec(s, sep);
  }

  /** A prefix of `s` without `sep`, followed by `sep` or the end of `s`, is `BeforeFirst`. */
  lemma BeforeFirstUnique(s: string, sep: char, r: string)
    requires |r| <= |s| && r == s[..|r|] && sep !in r
    requires |r| < |s| ==> s[|r|] == sep
    ensures r == BeforeFirst(s, sep)
  {
    BeforeFirstSpec(s, sep);
  }

  /** A path of the form `<dir>/<name>.<ext>` gets the name `<name>`. */
  lemma TestNameOf(dir: string, name: string, ext: string)
    requires '/' !in name && '.' !in name && '/' !in ext
    ensures TestName(dir + "/" + name + "." + ext) == name
  {
    var path := dir + "/" + name + "." + ext;
    var file := name + "." + ext;
    assert path[|path| - |file|..] == file;
    assert path[|path| - |file| - 1] == '/';
    AfterLastUnique(path, '/', file);
    assert file[..|name|] == name;
    BeforeFirstUnique(file, '.', name);
  }

  // ---------------- the output file ----------------

  /** What `build` writes: the common preamble, then `mod test_<name> { use super::*; <body> }`. */
  datatype Chunk = Common | TestMod(name: string, body: seq<Fragment>)

  /** One entry of `TESTS`, with the command stream its script parses to. */
  datatype SpecTest = SpecTest(path: string, script: seq<Command>)

  /** The output file, as the sequence of chunks written to it. */
  class OutFile {
    var chunks: seq<Chunk>

    constructor ()
      ensures chunks == []
    {
      chunks := [];
    }
  }

  /** What a successful `consume` of `script` leaves in the generator's buffer. */
  function Generated(script: seq<Command>, fmt: FloatFormat, disasm: Disassembler): seq<Fragment>
  {
    Output(script, fmt, disasm) + FinalFlush(script)
  }

  /** The chunk `generate_spectest` writes for one script whose code is `body`: none for a fat test. */
  function ChunksFor(name: string, script: seq<Command>, body: seq<Fragment>): seq<Chunk>
  {
    if |script| > 200 then [] else [TestMod(name, body)]
  }

  /**
   * The chunks `build` writes after the preamble for the scripts `tests`,
   * where `code` gives each script's generated code.
   */
  function AllChunks(tests: seq<SpecTest>, code: seq<Command> -> seq<Fragment>): seq<Chunk>
  {
    if tests == [] then []
    else
      var t := tests[|tests| - 1];
      AllChunks(tests[..|tests| - 1], code) + ChunksFor(TestName(t.path), t.script, code(t.script))
  }

  lemma AllChunksSnoc(tests: seq<SpecTest>, i: nat, code: seq<Command> -> seq<Fragment>)
    requires i < |tests|
    ensures AllChunks(tests[..i + 1], code) ==
      AllChunks(tests[..i], code) + ChunksFor(TestName(tests[i].path), tests[i].script, code(tests[i].script))
  {
    assert tests[..i + 1][..i] == tests[..i];
  }

  /** Every script runs to the end without a panic. */
  ghost predicate AllRun(tests: seq<SpecTest>, disasm: Disassembler)
  {
    forall k :: 0 <= k < |tests| ==> Runs(tests[k].script, disasm)
  }

  lemma AllRunSnoc(tests: seq<SpecTest>, i: nat, disasm: Disassembler)
    requires i < |tests| && AllRun(tests[..i], disasm) && Runs(tests[i].script, disasm)
    ensures AllRun(tests[..i + 1], disasm)
  {
    var q := tests[..i + 1];
    forall k | 0 <= k < |q|
      ensures Runs(q[k].script, disasm)
    {
      if k < i {
        assert q[k] == tests[..i][k];
      }
    }
  }

  /**
   * `generate_spectest`: consume the script, then append its test module
   * unless it is a fat test. `ok` is false where `consume` panics.
   */
  method GenerateSpectest(out: OutFile, testName: string, script: seq<Command>,
                          fmt: FloatFormat, disasm: Disassembler) returns (ok: bool)
    modifies out
    ensures ok <==> Runs(script, disasm)
    ensures ok ==> out.chunks == old(out.chunks) + ChunksFor(testName, script, Generated(script, fmt, disasm))
  {
    var generator := new WastTestGenerator(script, fmt, disasm);
    ok := generator.Consume();
    if !ok {
      return;
    }
    var generated := generator.buffer;
    if !generator.IsFatTest() {
      out.chunks := out.chunks + [TestMod(testName, generated)];
    }
  }

  /** `build`: the preamble, then one `generate_spectest` per entry of `TESTS`, in order. */
  method BuildAll(tests: seq<SpecTest>, fmt: FloatFormat, disasm: Disassembler) returns (ok: bool, out: OutFile)
    ensures ok <==> AllRun(tests, disasm)
    ensures ok ==> out.chunks == [Common] + AllChunks(tests, s => Generated(s, fmt, disasm))
  {
    ghost var code := s => Generated(s, fmt, disasm);
    out := new OutFile();
    out.chunks := out.chunks + [Common];
    var i := 0;
    while i < |tests|
      invariant i <= |tests|
      invariant AllRun(tests[..i], disasm)
      invariant out.chunks == [Common] + AllChunks(tests[..i], code)
    {
      var t := tests[i];
      ok := GenerateSpectest(out, TestName(t.path), t.script, fmt, disasm);
      if !ok {
        return;
      }
      AllChunksSnoc(tests, i, code);
      AllRunSnoc(tests, i, disasm);
      i := i + 1;
    }
    assert tests[..i] == tests;
    ok := true;
  }

  // ---------------- what the output holds ----------------

  /** Each test module written is a script that is not fat, under that script's name, with its code. */
  lemma {:induction false} AllChunksMember(tests: seq<SpecTest>, code: seq<Command> -> seq<Fragment>, ch: Chunk)
    ensures ch in AllChunks(tests, code) <==>
      exists k :: 0 <= k < |tests| && |tests[k].script| <= 200 &&
        ch == TestMod(TestName(tests[k].path), code(tests[k].script))
  {
    if tests != [] {
      var init := tests[..|tests| - 1];
      AllChunksMember(init, code, ch);
      if ch in AllChunks(init, code) {
        var k :| 0 <= k < |init| && |init[k].script| <= 200 &&
          ch == TestMod(TestName(init[k].path), code(init[k].script));
        assert tests[k] == init[k];
      }
      if exists k :: 0 <= k < |tests| && |tests[k].script| <= 200 &&
           ch == TestMod(TestName(tests[k].path), code(tests[k].script))
      {
        var k :| 0 <= k < |tests| && |tests[k].script| <= 200 &&
          ch == TestMod(TestName(tests[k].path), code(tests[k].script));
        if k < |init| {
          assert init[k] == tests[k];
        }
      }
    }
  }

  /** The indices of the scripts that are not fat. */
  function Kept(tests: seq<SpecTest>): set<nat>
  {
    set k: nat | k < |tests| && |tests[k].script| <= 200
  }

  lemma KeptSnoc(tests: seq<SpecTest>)
    requires tests != []
    ensures var n := |tests| - 1;
      Kept(tests) == Kept(tests[..n]) + (if |tests[n].script| <= 200 then {n} else {})
      && n !in Kept(tests[..n])
  {
    var n := |tests| - 1;
    var init := tests[..n];
    forall k: nat | k < n
      ensures tests[k] == init[k]
    {
    }
  }

  /** The output holds one test module per script that is not fat, and nothing else. */
  lemma {:induction false} AllChunksCount(tests: seq<SpecTest>, code: seq<Command> -> seq<Fragment>)
    ensures |AllChunks(tests, code)| == |Kept(tests)|
  {
    if tests != [] {
      AllChunksCount(tests[..|tests| - 1], code);
      KeptSnoc(tests);
    }
  }
}
