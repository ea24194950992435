/** Splitting a stream of text into lines, whole or a chunk at a time. */
module SseText {
  import opened Common

  /** The complete lines of a text, without their newlines. */
  function Lines(s: string): seq<string> {
    if s == [] then []
    else if s[|s| - 1] == '\n' then Lines(s[..|s| - 1]) + [Rest(s[..|s| - 1])]
    else Lines(s[..|s| - 1])
  }

  /** What follows the last newline. */
  function Rest(s: string): string {
    if s == [] || s[|s| - 1] == '\n' then [] else Rest(s[..|s| - 1]) + [s[|s| - 1]]
  }

  /** JavaScript's `text.split("\n")`: the complete lines and then the rest. */
  function Split(s: string): (pieces: seq<string>)
    ensures |pieces| >= 1
  {
    Lines(s) + [Rest(s)]
  }

  /** Lines put back together, each with its newline. */
  function Unlines(lines: seq<string>): string {
    if lines == [] then [] else Cat(Unlines(lines[..|lines| - 1]), lines[|lines| - 1] + "\n")
  }

  predicate OneLine(s: string) {
    '\n' !in s
  }

  lemma {:induction false} UnlinesSnoc(lines: seq<string>, line: string)
    ensures Unlines(lines + [line]) == Unlines(lines) + (line + "\n")
  {
    assert (lines + [line])[..|lines|] == lines;
    CatIsAppend(Unlines(lines), line + "\n");
  }

  lemma {:induction false} SplitLossless(s: string)
    ensures Unlines(Lines(s)) + Rest(s) == s
    ensures OneLine(Rest(s)) && forall l :: l in Lines(s) ==> OneLine(l)
  {
    if s != [] {
      var init, c := s[..|s| - 1], s[|s| - 1];
      SplitLossless(init);
      InitLast(s);
      if c == '\n' {
        UnlinesSnoc(Lines(init), Rest(init));
        Regroup(Unlines(Lines(init)), Rest(init), "\n");
      } else {
        Regroup(Unlines(Lines(init)), Rest(init), [c]);
      }
    }
  }

  /** A chunk that arrives later continues the unfinished line and nothing else. */
  lemma {:induction false} SplitAppend(x: string, y: string)
    ensures Lines(x + y) == Cat(Lines(x), Lines(Rest(x) + y))
    ensures Rest(x + y) == Rest(Rest(x) + y)
  {
    if y == [] {
      assert x + y == x && Rest(x) + y == Rest(x);
      RestIsOneLine(x);
      OneLineSplit(Rest(x));
    } else {
      InitLast(y);
      SplitAppend(x, y[..|y| - 1]);
      SplitAppendStep(x, y[..|y| - 1], y[|y| - 1]);
    }
  }

  lemma {:induction false} SplitAppendStep(x: string, y: string, c: char)
    requires Lines(x + y) == Cat(Lines(x), Lines(Rest(x) + y)) && Rest(x + y) == Rest(Rest(x) + y)
    ensures Lines(x + (y + [c])) == Cat(Lines(x), Lines(Rest(x) + (y + [c])))
    ensures Rest(x + (y + [c])) == Rest(Rest(x) + (y + [c]))
  {
    Regroup(x, y, [c]);
    Regroup(Rest(x), y, [c]);
  }

  lemma {:induction false} RestIsOneLine(x: string)
    ensures OneLine(Rest(x))
  {
    SplitLossless(x);
  }

  lemma {:induction false} OneLineSplit(s: string)
    requires OneLine(s)
    ensures Lines(s) == [] && Rest(s) == s
  {
    if s != [] {
      assert s == s[..|s| - 1] + [s[|s| - 1]];
      OneLineSplit(s[..|s| - 1]);
    }
  }

  /** A finished line after text that ended in a newline. */
  lemma {:induction false} LineAppended(x: string, line: string)
    requires Rest(x) == [] && OneLine(line)
    ensures Lines(x + (line + "\n")) == Lines(x) + [line] && Rest(x + (line + "\n")) == []
  {
    SplitAppend(x, line + "\n");
    assert (line + "\n")[..|line|] == line;
    OneLineSplit(line);
    assert Rest(x) + (line + "\n") == line + "\n";
  }

  /** There is only one way to cut a text into newline-free lines and a newline-free rest. */
  lemma {:induction false} SplitUnique(lines: seq<string>, rest: string)
    requires OneLine(rest) && forall l :: l in lines ==> OneLine(l)
    ensures Lines(Unlines(lines) + rest) == lines && Rest(Unlines(lines) + rest) == rest
  {
    UnlinesSplit(lines);
    SplitAppend(Unlines(lines), rest);
    assert [] + rest == rest;
    OneLineSplit(rest);
  }

  lemma {:induction false} UnlinesSplit(lines: seq<string>)
    requires forall l :: l in lines ==> OneLine(l)
    ensures Lines(Unlines(lines)) == lines && Rest(Unlines(lines)) == []
  {
    if lines != [] {
      var init, last := lines[..|lines| - 1], lines[|lines| - 1];
      assert lines == init + [last];
      UnlinesSplit(init);
      UnlinesSnoc(init, last);
      LineAppended(Unlines(init), last);
    }
  }

  // ----- Trimming -----

  /** White space and line terminators of ECMAScript. */
  predicate IsSpace(c: char) {
    var n := c as int;
    9 <= n <= 13 || n == 32 || n == 160 || n == 0x1680 || 0x2000 <= n <= 0x200a ||
    n == 0x2028 || n == 0x2029 || n == 0x202f || n == 0x205f || n == 0x3000 || n == 0xfeff
  }

  function TrimStart(s: string): string {
    if s != [] && IsSpace(s[0]) then TrimStart(s[1..]) else s
  }

  function TrimEnd(s: string): string {
    if s != [] && IsSpace(s[|s| - 1]) then TrimEnd(s[..|s| - 1]) else s
  }

  function Trim(s: string): string {
    TrimEnd(TrimStart(s))
  }

  function Concat(chunks: seq<string>): string {
    if chunks == [] then [] else chunks[0] + Concat(chunks[1..])
  }
}
