/**
 * Embedding the disassembled module text in a Rust string literal
 * (`create_module_N`): newlines are indented by four spaces, then every
 * backslash is doubled, then every double quote is escaped.
 */
module Escape {
  import opened Wrappers

  /** `str::replace` with a one-character pattern. */
  function ReplaceChar(s: string, c: char, rep: string): (r: string)
    ensures c !in s ==> r == s
  {
    if s == [] then [] else (if s[0] == c then rep else [s[0]]) + ReplaceChar(s[1..], c, rep)
  }

  lemma {:induction false} ReplaceCharAppend(a: string, b: string, c: char, rep: string)
    ensures ReplaceChar(a + b, c, rep) == ReplaceChar(a, c, rep) + ReplaceChar(b, c, rep)
  {
    if a != [] {
      var head := if a[0] == c then rep else [a[0]];
      calc {
        ReplaceChar(a + b, c, rep);
        { assert (a + b)[0] == a[0] && (a + b)[1..] == a[1..] + b; }
        head + ReplaceChar(a[1..] + b, c, rep);
        { ReplaceCharAppend(a[1..], b, c, rep); }
        head + (ReplaceChar(a[1..], c, rep) + ReplaceChar(b, c, rep));
        (head + ReplaceChar(a[1..], c, rep)) + ReplaceChar(b, c, rep);
      }
    } else {
      assert a + b == b;
    }
  }

  /** Every occurrence of `c` grows into `rep`; nothing else changes length. */
  lemma {:induction false} ReplaceCharLength(s: string, c: char, rep: string)
    ensures |ReplaceChar(s, c, rep)| == |s| + (|rep| - 1) * Occurrences(s, c)
  {
    if s != [] {
      ReplaceCharLength(s[1..], c, rep);
      if s[0] == c {
        MulSucc(|rep| - 1, Occurrences(s[1..], c));
      }
    }
  }

  lemma MulSucc(d: int, k: nat)
    ensures d * (k + 1) == d * k + d
  {
  }

  function Occurrences(s: string, c: char): nat
  {
    if s == [] then 0 else (if s[0] == c then 1 else 0) + Occurrences(s[1..], c)
  }

  function Indent(s: string): string { ReplaceChar(s, '\n', "\n    ") }
  function DoubleBackslashes(s: string): string { ReplaceChar(s, '\\', "\\\\") }
  function EscapeQuotes(s: string): string { ReplaceChar(s, '"', "\\\"") }

  /** The text placed between the quotes of `let module_str = "…";`. */
  function EscapeModuleText(wat: string): (r: string)
    ensures '\n' !in wat && '\\' !in wat && '"' !in wat ==> r == wat
  {
    EscapeQuotes(DoubleBackslashes(Indent(wat)))
  }

  /**
   * What rustc makes of the body of a `"…"` literal, for the two escapes
   * the generator writes: `\\` and `\"`. None: the body would end early at
   * an unescaped quote, or holds an escape outside these two.
   */
  function Unescape(s: string): Option<string>
  {
    if s == [] then Some([])
    else if s[0] == '"' then None
    else if s[0] == '\\' then
      if |s| >= 2 && (s[1] == '\\' || s[1] == '"') then
        match Unescape(s[2..])
        case Some(t) => Some([s[1]] + t)
        case None => None
      else None
    else
      match Unescape(s[1..])
      case Some(t) => Some([s[0]] + t)
      case None => None
  }

  function EscapeChar(c: char): string
  {
    if c == '\\' then "\\\\" else if c == '"' then "\\\"" else [c]
  }

  lemma EscapeHead(t: string)
    requires t != []
    ensures EscapeQuotes(DoubleBackslashes(t)) == EscapeChar(t[0]) + EscapeQuotes(DoubleBackslashes(t[1..]))
  {
    var head := if t[0] == '\\' then "\\\\" else [t[0]];
    assert DoubleBackslashes(t) == head + DoubleBackslashes(t[1..]);
    ReplaceCharAppend(head, DoubleBackslashes(t[1..]), '"', "\\\"");
  }

  /** Backslashes are doubled before quotes are escaped, so rustc reads back the text. */
  lemma {:induction false} UnescapeEscape(t: string)
    ensures Unescape(EscapeQuotes(DoubleBackslashes(t))) == Some(t)
  {
    if t != [] {
      EscapeHead(t);
      UnescapeEscape(t[1..]);
      var rest := EscapeQuotes(DoubleBackslashes(t[1..]));
      var e := EscapeChar(t[0]) + rest;
      if t[0] == '\\' || t[0] == '"' {
        assert e[2..] == rest;
      } else {
        assert e[1..] == rest;
      }
      assert t == [t[0]] + t[1..];
    }
  }

  /** Undoes the indentation: every newline followed by four spaces loses the spaces. */
  function Dedent(s: string): string
  {
    if s == [] then []
    else if |s| >= 5 && s[..5] == "\n    " then "\n" + Dedent(s[5..])
    else [s[0]] + Dedent(s[1..])
  }

  /** Indenting changes nothing but the newlines: every other character is kept, in order. */
  lemma {:induction false} DedentIndent(s: string)
    ensures Dedent(Indent(s)) == s
  {
    if s != [] {
      DedentIndent(s[1..]);
      var i := Indent(s);
      if s[0] == '\n' {
        assert i == "\n    " + Indent(s[1..]);
        assert i[..5] == "\n    " && i[5..] == Indent(s[1..]);
      } else {
        assert i == [s[0]] + Indent(s[1..]);
        assert i[1..] == Indent(s[1..]);
      }
      assert s == [s[0]] + s[1..];
    }
  }

  /**
   * The embedded literal evaluates to the indented module text, and
   * removing the indentation gives back the disassembly unchanged.
   */
  lemma ModuleTextRoundTrip(wat: string)
    ensures Unescape(EscapeModuleText(wat)) == Some(Indent(wat))
    ensures Dedent(Unescape(EscapeModuleText(wat)).value) == wat
  {
    UnescapeEscape(Indent(wat));
    DedentIndent(wat);
  }
}
