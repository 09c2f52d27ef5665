/** The whitespace normalizer, written twice: a push and pop loop (editor/formatting.rs, normalize_source) and a chain
    of replacements (lib/editorBridge.ts, formatDocument). */
module Normalizer {
  import opened Seqs

  predicate IsBlank(c: char) {
    c == ' ' || c == '\t'
  }

  predicate IsSpace(c: char) {
    IsBlank(c) || c == '\r' || c == '\n'
  }

  // ---------- the chain ----------

  /** Every carriage return becomes a newline, together with a newline right after it. */
  function Unified(s: string): string {
    if s == [] then []
    else if s[0] != '\r' then [s[0]] + Unified(s[1..])
    else if |s| > 1 && s[1] == '\n' then ['\n'] + Unified(s[2..])
    else ['\n'] + Unified(s[1..])
  }

  /** A line without the tabs and spaces at its end. */
  function TrimEnd(line: string): (t: string)
    ensures t <= line
  {
    if line != [] && IsBlank(line[|line| - 1]) then TrimEnd(line[..|line| - 1]) else line
  }

  function TrimAll(lines: seq<string>): (t: seq<string>)
    ensures |t| == |lines|
  {
    seq(|lines|, i requires 0 <= i < |lines| => TrimEnd(lines[i]))
  }

  /** The lines with newlines between them. */
  function Join(lines: seq<string>): string {
    if lines == [] then [] else if |lines| == 1 then lines[0] else lines[0] + "\n" + Join(lines[1..])
  }

  function WithoutNewlines(s: string): (t: string)
    ensures t <= s
  {
    if s != [] && s[|s| - 1] == '\n' then WithoutNewlines(s[..|s| - 1]) else s
  }

  /** The chain of formatDocument; its last step puts one newline in the place of those at the end. */
  function Normalized(content: string): string {
    WithoutNewlines(Join(TrimAll(Split('\n', Unified(content))))) + "\n"
  }

  // ---------- the loop ----------

  /** Every carriage return with a newline after it becomes that newline. */
  function WithoutPairs(s: string): string {
    if s == [] then []
    else if |s| > 1 && s[0] == '\r' && s[1] == '\n' then ['\n'] + WithoutPairs(s[2..])
    else [s[0]] + WithoutPairs(s[1..])
  }

  /** Every carriage return becomes a newline. */
  function WithoutReturns(s: string): string {
    if s == [] then [] else [if s[0] == '\r' then '\n' else s[0]] + WithoutReturns(s[1..])
  }

  /** Rust's `lines`: what follows the last newline counts only when there is something. */
  function LinesOf(s: string): seq<string> {
    var all := Split('\n', s);
    if all[|all| - 1] == "" then all[..|all| - 1] else all
  }

  lemma {:induction false} TwoReplacements(s: string)
    ensures WithoutReturns(WithoutPairs(s)) == Unified(s)
  {
    if s != [] {
      if |s| > 1 && s[0] == '\r' && s[1] == '\n' { TwoReplacements(s[2..]); } else { TwoReplacements(s[1..]); }
    }
  }

  lemma {:induction false} JoinOneMore(lines: seq<string>, line: string)
    requires lines != []
    ensures Join(lines + [line]) == Join(lines) + "\n" + line
  {
    var all := lines + [line];
    if |lines| == 1 {
      assert all[1..] == [line];
    } else {
      JoinOneMore(lines[1..], line);
      assert all[1..] == lines[1..] + [line];
    }
  }

  lemma EmptyLineJoined(lines: seq<string>)
    ensures WithoutNewlines(Join(lines + [""])) == WithoutNewlines(Join(lines))
  {
    if lines != [] {
      var text := Join(lines);
      JoinOneMore(lines, "");
      assert (text + "\n" + "")[..|text|] == text;
    }
  }

  lemma TrimAllLast(lines: seq<string>, line: string)
    ensures TrimAll(lines + [line]) == TrimAll(lines) + [TrimEnd(line)]
  {
  }

  /** A last empty line adds nothing but newlines at the end. */
  lemma LastEmptyLine(s: string)
    ensures WithoutNewlines(Join(TrimAll(LinesOf(s)))) == WithoutNewlines(Join(TrimAll(Split('\n', s))))
  {
    var all := Split('\n', s);
    if all[|all| - 1] == "" {
      LastApart(all);
      TrimAllLast(LinesOf(s), "");
      EmptyLineJoined(TrimAll(LinesOf(s)));
    }
  }

  /** normalize_source gives what formatDocument gives, on every input. */
  method NormalizeSource(content: string) returns (output: string)
    ensures output == Normalized(content)
  {
    var normalizedNewlines := WithoutReturns(WithoutPairs(content));
    TwoReplacements(content);
    var lines := LinesOf(normalizedNewlines);
    output := "";
    for index := 0 to |lines|
      invariant output == Join(TrimAll(lines[..index]))
    {
      assert TrimAll(lines[..index + 1]) == TrimAll(lines[..index]) + [TrimEnd(lines[index])];
      if index > 0 {
        JoinOneMore(TrimAll(lines[..index]), TrimEnd(lines[index]));
        output := output + "\n";
      }
      output := output + TrimEnd(lines[index]);
    }
    assert lines[..|lines|] == lines;
    LastEmptyLine(normalizedNewlines);
    while output != "" && output[|output| - 1] == '\n'
      invariant WithoutNewlines(output) == WithoutNewlines(Join(TrimAll(lines)))
      decreases |output|
    {
      output := output[..|output| - 1];
    }
    output := output + "\n";
  }

  // ---------- what a normal text is ----------

  /** No blank before a newline or at the end. */
  ghost predicate NoTrailingBlank(s: string) {
    && (forall i :: 0 < i < |s| && s[i] == '\n' ==> !IsBlank(s[i - 1]))
    && (s != [] ==> !IsBlank(s[|s| - 1]))
  }

  ghost predicate NoReturn(s: string) {
    forall i :: 0 <= i < |s| ==> s[i] != '\r'
  }

  /** No carriage return, no blank at the end of a line, and one newline after the last line that is not empty. */
  ghost predicate IsNormal(s: string) {
    && NoReturn(s) && NoTrailingBlank(s)
    && s != [] && s[|s| - 1] == '\n' && (|s| > 1 ==> s[|s| - 2] != '\n')
  }

  lemma {:induction false} UnifiedHasNoReturn(s: string)
    ensures NoReturn(Unified(s))
  {
    if s != [] {
      UnifiedHasNoReturn(if s[0] == '\r' && |s| > 1 && s[1] == '\n' then s[2..] else s[1..]);
    }
  }

  /** Lines have no newline, and no carriage return when the text has none. */
  lemma {:induction false} SplitLines(s: string)
    requires NoReturn(s)
    ensures forall i :: 0 <= i < |Split('\n', s)| ==> '\n' !in Split('\n', s)[i] && NoReturn(Split('\n', s)[i])
  {
    if s != [] { SplitLines(s[1..]); }
  }

  lemma {:induction false} TrimEndLeavesNoBlank(line: string)
    ensures TrimEnd(line) != [] ==> !IsBlank(TrimEnd(line)[|TrimEnd(line)| - 1])
  {
    if line != [] && IsBlank(line[|line| - 1]) { TrimEndLeavesNoBlank(line[..|line| - 1]); }
  }

  ghost predicate IsTrimmedLine(line: string) {
    '\n' !in line && NoReturn(line) && (line != [] ==> !IsBlank(line[|line| - 1]))
  }

  lemma {:induction false} JoinedLines(lines: seq<string>)
    requires forall i :: 0 <= i < |lines| ==> IsTrimmedLine(lines[i])
    ensures NoReturn(Join(lines)) && NoTrailingBlank(Join(lines))
  {
    if |lines| > 1 {
      JoinedLines(lines[1..]);
      LineBefore(lines[0], Join(lines[1..]));
    } else if |lines| == 1 {
      assert IsTrimmedLine(lines[0]);
      assert forall i :: 0 <= i < |lines[0]| ==> lines[0][i] in lines[0];
    }
  }

  lemma LineBefore(line: string, rest: string)
    requires IsTrimmedLine(line) && NoReturn(rest) && NoTrailingBlank(rest)
    ensures NoReturn(line + "\n" + rest) && NoTrailingBlank(line + "\n" + rest)
  {
    var all := line + "\n" + rest;
    assert forall i :: 0 <= i < |line| ==> line[i] in line;
    assert forall i :: 0 <= i < |all| ==>
      all[i] == if i < |line| then line[i] else if i == |line| then '\n' else rest[i - |line| - 1];
  }

  lemma {:induction false} StrippedStaysTrimmed(s: string)
    requires NoReturn(s) && NoTrailingBlank(s)
    ensures NoReturn(WithoutNewlines(s)) && NoTrailingBlank(WithoutNewlines(s))
    ensures WithoutNewlines(s) != [] ==> WithoutNewlines(s)[|WithoutNewlines(s)| - 1] != '\n'
  {
    if s != [] && s[|s| - 1] == '\n' { StrippedStaysTrimmed(s[..|s| - 1]); }
  }

  /** The result is always normal. */
  lemma NormalizedIsNormal(content: string)
    ensures IsNormal(Normalized(content))
  {
    var unified := Unified(content);
    UnifiedHasNoReturn(content);
    SplitLines(unified);
    var lines := TrimAll(Split('\n', unified));
    forall i | 0 <= i < |lines| ensures IsTrimmedLine(lines[i]) {
      TrimEndLeavesNoBlank(Split('\n', unified)[i]);
      assert forall c :: c in lines[i] ==> c in Split('\n', unified)[i];
    }
    JoinedLines(lines);
    StrippedStaysTrimmed(Join(lines));
    LastNewline(WithoutNewlines(Join(lines)));
  }

  lemma LastNewline(s: string)
    requires NoReturn(s) && NoTrailingBlank(s) && (s != [] ==> s[|s| - 1] != '\n')
    ensures IsNormal(s + "\n")
  {
  }

  // ---------- normal texts stay as they are ----------

  lemma {:induction false} UnifiedKeeps(s: string)
    requires NoReturn(s)
    ensures Unified(s) == s
  {
    if s != [] { UnifiedKeeps(s[1..]); }
  }

  lemma {:induction false} JoinInvertsSplit(s: string)
    ensures Join(Split('\n', s)) == s
  {
    if s != [] {
      JoinInvertsSplit(s[1..]);
      var rest := Split('\n', s[1..]);
      if s[0] == '\n' {
        assert ([""] + rest)[1..] == rest;
        assert "" + "\n" + Join(rest) == ['\n'] + s[1..] == s;
      } else {
        assert ([[s[0]] + rest[0]] + rest[1..])[1..] == rest[1..];
        assert [s[0]] + Join(rest) == s;
      }
    }
  }

  ghost predicate EachTrimmed(lines: seq<string>) {
    forall i :: 0 <= i < |lines| ==> TrimEnd(lines[i]) == lines[i]
  }

  lemma TrimmedStay(lines: seq<string>)
    requires EachTrimmed(lines)
    ensures TrimAll(lines) == lines
  {
  }

  lemma OneLineMore(line: string, lines: seq<string>)
    requires TrimEnd(line) == line && EachTrimmed(lines)
    ensures EachTrimmed([line] + lines)
  {
  }

  lemma {:induction false} SplitIsTrimmed(s: string)
    requires NoTrailingBlank(s)
    ensures EachTrimmed(Split('\n', s))
  {
    if s != [] {
      SplitIsTrimmed(s[1..]);
      var rest := Split('\n', s[1..]);
      if s[0] == '\n' {
        OneLineMore("", rest);
      } else {
        FirstLine(s[1..]);
        OneCharacterMore(s[0], rest[0], |s| > 1 && s[1] != '\n');
        OneLineMore([s[0]] + rest[0], rest[1..]);
      }
    }
  }

  lemma OneCharacterMore(c: char, line: string, more: bool)
    requires TrimEnd(line) == line && (line == [] <==> !more) && (!more ==> !IsBlank(c))
    ensures TrimEnd([c] + line) == [c] + line
  {
    var all := [c] + line;
    assert all[|all| - 1] == if line == [] then c else line[|line| - 1];
    TrimEndLeavesNoBlank(line);
  }

  lemma FirstLine(s: string)
    ensures Split('\n', s)[0] == [] <==> s == [] || s[0] == '\n'
  {
  }

  /** A text is left as it is exactly when it is normal; so normalizing twice is normalizing once. */
  lemma FixedWhenNormal(s: string)
    ensures Normalized(s) == s <==> IsNormal(s)
  {
    NormalizedIsNormal(s);
    if IsNormal(s) {
      UnifiedKeeps(s);
      SplitIsTrimmed(s);
      TrimmedStay(Split('\n', s));
      JoinInvertsSplit(s);
      var body := s[..|s| - 1];
      assert s == body + "\n";
      assert WithoutNewlines(body) == body;
    }
  }

  lemma NormalizedTwice(content: string)
    ensures Normalized(Normalized(content)) == Normalized(content)
  {
    NormalizedIsNormal(content);
    FixedWhenNormal(Normalized(content));
  }

  // ---------- nothing visible is lost ----------

  ghost function Visible(s: string): string {
    if s == [] then [] else (if IsSpace(s[0]) then [] else [s[0]]) + Visible(s[1..])
  }

  lemma HeadOfBoth<T>(a: seq<T>, b: seq<T>)
    requires a != []
    ensures (a + b)[0] == a[0] && (a + b)[1..] == a[1..] + b
  {
  }

  lemma {:induction false} VisibleConcat(a: string, b: string)
    ensures Visible(a + b) == Visible(a) + Visible(b)
  {
    if a == [] {
      assert a + b == b;
    } else {
      var first := if IsSpace(a[0]) then [] else [a[0]];
      var rest := a[1..];
      VisibleConcat(rest, b);
      HeadOfBoth(a, b);
      Associative(first, Visible(rest), Visible(b));
    }
  }

  lemma VisibleLast(s: string)
    requires s != [] && IsSpace(s[|s| - 1])
    ensures Visible(s[..|s| - 1]) == Visible(s)
  {
    VisibleConcat(s[..|s| - 1], [s[|s| - 1]]);
    assert s == s[..|s| - 1] + [s[|s| - 1]];
    assert Visible([s[|s| - 1]]) == [];
  }

  lemma {:induction false} VisibleUnified(s: string)
    ensures Visible(Unified(s)) == Visible(s)
  {
    if s != [] {
      if s[0] == '\r' && |s| > 1 && s[1] == '\n' {
        VisibleUnified(s[2..]);
        assert s[1..][1..] == s[2..];
      } else {
        VisibleUnified(s[1..]);
      }
    }
  }

  lemma {:induction false} VisibleTrimEnd(s: string)
    ensures Visible(TrimEnd(s)) == Visible(s)
  {
    if s != [] && IsBlank(s[|s| - 1]) {
      VisibleTrimEnd(s[..|s| - 1]);
      VisibleLast(s);
    }
  }

  lemma {:induction false} VisibleWithoutNewlines(s: string)
    ensures Visible(WithoutNewlines(s)) == Visible(s)
  {
    if s != [] && s[|s| - 1] == '\n' {
      VisibleWithoutNewlines(s[..|s| - 1]);
      VisibleLast(s);
    }
  }

  lemma {:induction false} VisibleJoin(lines: seq<string>)
    ensures Visible(Join(TrimAll(lines))) == Visible(Join(lines))
  {
    if lines != [] {
      VisibleTrimEnd(lines[0]);
      if |lines| > 1 {
        assert TrimAll(lines)[1..] == TrimAll(lines[1..]);
        VisibleJoin(lines[1..]);
        VisibleParts(lines[0], Join(lines[1..]));
        VisibleParts(TrimEnd(lines[0]), Join(TrimAll(lines[1..])));
      }
    }
  }

  lemma VisibleParts(line: string, rest: string)
    ensures Visible(line + "\n" + rest) == Visible(line) + Visible(rest)
  {
    VisibleConcat(line + "\n", rest);
    VisibleLast(line + "\n");
    assert (line + "\n")[..|line|] == line;
  }

  /** Every character that is not white space is kept, in its order. */
  lemma VisibleKept(content: string)
    ensures Visible(Normalized(content)) == Visible(content)
  {
    var unified := Unified(content);
    VisibleUnified(content);
    JoinInvertsSplit(unified);
    VisibleJoin(Split('\n', unified));
    VisibleWithoutNewlines(Join(TrimAll(Split('\n', unified))));
    VisibleLast(Normalized(content));
  }

  // ---------- lines stay, one for one ----------

  predicate IsBreak(c: char) {
    c == '\n' || c == '\r'
  }

  /** The place of the first newline or carriage return from `from` on, or the length. */
  function BreakFrom(s: string, from: nat): (k: nat)
    requires from <= |s|
    ensures from <= k <= |s|
    decreases |s| - from
  {
    if from == |s| || IsBreak(s[from]) then from else BreakFrom(s, from + 1)
  }

  lemma {:induction false} BreakFromIs(s: string, from: nat, k: nat)
    requires from <= k <= |s|
    ensures k == BreakFrom(s, from) <==> (k < |s| ==> IsBreak(s[k])) && forall i :: from <= i < k ==> !IsBreak(s[i])
    decreases |s| - from
  {
    if from < |s| && !IsBreak(s[from]) && from < k { BreakFromIs(s, from + 1, k); }
  }

  /** A line break is a newline, a carriage return with a newline after it, or a carriage return alone. */
  function AfterBreak(s: string, k: nat): (next: nat)
    requires k < |s|
    ensures k < next <= |s|
  {
    if s[k] == '\r' && k + 1 < |s| && s[k + 1] == '\n' then k + 2 else k + 1
  }

  /** What lies between line breaks from `from` on. */
  function LinesFrom(s: string, from: nat): (lines: seq<string>)
    requires from <= |s|
    ensures lines != []
    decreases |s| - from
  {
    var k := BreakFrom(s, from);
    [s[from..k]] + if k == |s| then [] else LinesFrom(s, AfterBreak(s, k))
  }


  function LinesIn(s: string): (lines: seq<string>)
    ensures lines != []
  {
    LinesFrom(s, 0)
  }

  ghost predicate IsOneLine(line: string) {
    forall i :: 0 <= i < |line| ==> !IsBreak(line[i])
  }

  /** Lines hold no line breaks. */
  lemma {:induction false} LinesHaveNoBreak(s: string, from: nat)
    requires from <= |s|
    ensures forall i :: 0 <= i < |LinesFrom(s, from)| ==> IsOneLine(LinesFrom(s, from)[i])
    decreases |s| - from
  {
    var k := BreakFrom(s, from);
    BreakFromIs(s, from, k);
    if k < |s| { LinesHaveNoBreak(s, AfterBreak(s, k)); }
  }

  lemma ConsApart<T>(x: T, q: seq<T>)
    ensures ([x] + q)[0] == x && ([x] + q)[1..] == q
  {
  }

  lemma LinesOfFirst(s: string, from: nat)
    requires from < |s| && !IsBreak(s[from])
    ensures var later := LinesFrom(s, from + 1); LinesFrom(s, from) == [[s[from]] + later[0]] + later[1..]
  {
    var k := BreakFrom(s, from + 1);
    var rest := if k == |s| then [] else LinesFrom(s, AfterBreak(s, k));
    ConsApart(s[from + 1..k], rest);
    SliceApart(s, from, k);
  }

  lemma SliceApart<T>(q: seq<T>, i: nat, j: nat)
    requires i < j <= |q|
    ensures q[i..j] == [q[i]] + q[i + 1..j]
  {
  }

  lemma DropOne(s: string, from: nat)
    requires from < |s|
    ensures s[from..] != [] && s[from..][0] == s[from] && s[from..][1..] == s[from + 1..]
    ensures from + 1 < |s| ==> s[from..][1] == s[from + 1] && s[from..][2..] == s[from + 2..]
  {
  }

  lemma {:induction false} SplitUnifiedIsLines(s: string, from: nat)
    requires from <= |s|
    ensures Split('\n', Unified(s[from..])) == LinesFrom(s, from)
    decreases |s| - from
  {
    if from < |s| {
      DropOne(s, from);
      if IsBreak(s[from]) {
        var next := AfterBreak(s, from);
        SplitUnifiedIsLines(s, next);
        assert Unified(s[from..]) == ['\n'] + Unified(s[next..]);
        ConsApart('\n', Unified(s[next..]));
        assert s[from..from] == [];
      } else {
        SplitUnifiedIsLines(s, from + 1);
        ConsApart(s[from], Unified(s[from + 1..]));
        LinesOfFirst(s, from);
      }
    } else {
      assert s[from..] == [] && s[from..from] == [];
    }
  }

  /** A line without the tabs and spaces at its end, and otherwise unchanged. */
  ghost predicate IsWithoutBlanks(t: string, line: string) {
    && t <= line
    && (forall i :: |t| <= i < |line| ==> line[i] == ' ' || line[i] == '\t')
    && (t != [] ==> t[|t| - 1] != ' ' && t[|t| - 1] != '\t')
  }

  lemma {:induction false} TrimEndIsWithoutBlanks(line: string)
    ensures IsWithoutBlanks(TrimEnd(line), line)
  {
    if line != [] && IsBlank(line[|line| - 1]) { TrimEndIsWithoutBlanks(line[..|line| - 1]); }
  }

  ghost predicate HoldsText(line: string) {
    exists i :: 0 <= i < |line| && line[i] != ' ' && line[i] != '\t'
  }

  lemma HoldsTextWhenTrimmed(t: string, line: string)
    requires IsWithoutBlanks(t, line)
    ensures HoldsText(line) <==> t != []
  {
    if t != [] { assert line[|t| - 1] == t[|t| - 1]; }
  }

  lemma {:induction false} SplitJoined(lines: seq<string>)
    requires lines != [] && forall i :: 0 <= i < |lines| ==> '\n' !in lines[i]
    ensures Split('\n', Join(lines)) == lines
  {
    if |lines| > 1 {
      SplitJoined(lines[1..]);
      SplitFirst('\n', lines[0], Join(lines[1..]));
      Associative(lines[0], "\n", Join(lines[1..]));
    } else {
      SplitNone('\n', lines[0]);
    }
  }

  lemma JoinedHasItsLines(lines: seq<string>)
    requires lines != [] && forall i :: 0 <= i < |lines| ==> IsTrimmedLine(lines[i])
    ensures LinesIn(Join(lines)) == lines
  {
    var text := Join(lines);
    JoinedLines(lines);
    UnifiedKeeps(text);
    SplitJoined(lines);
    SplitUnifiedIsLines(text, 0);
    assert text[0..] == text;
  }

  lemma {:induction false} JoinEnds(lines: seq<string>)
    requires lines != [] && lines[|lines| - 1] != [] && IsTrimmedLine(lines[|lines| - 1])
    ensures Join(lines) != [] && Join(lines)[|Join(lines)| - 1] != '\n'
  {
    if |lines| > 1 { JoinEnds(lines[1..]); }
  }

  /** Newlines at the end are empty lines at the end. */
  lemma {:induction false} StrippedLines(lines: seq<string>) returns (n: nat)
    requires forall i :: 0 <= i < |lines| ==> IsTrimmedLine(lines[i])
    ensures n <= |lines| && WithoutNewlines(Join(lines)) == Join(lines[..n])
    ensures (n > 0 ==> lines[n - 1] != []) && forall i :: n <= i < |lines| ==> lines[i] == []
  {
    n := |lines|;
    if lines != [] && lines[n - 1] == [] {
      n := StrippedLines(lines[..n - 1]);
      LastApart(lines);
      EmptyLineJoined(lines[..|lines| - 1]);
      TakeTwice(lines, |lines| - 1, n);
    } else {
      if lines != [] { JoinEnds(lines); }
      TakeAll(lines);
    }
  }

  lemma TrimmedIs(line: string)
    requires IsOneLine(line)
    ensures var t := TrimEnd(line);
      IsTrimmedLine(t) && IsWithoutBlanks(t, line) && (HoldsText(line) <==> t != [])
  {
    TrimEndIsWithoutBlanks(line);
    HoldsTextWhenTrimmed(TrimEnd(line), line);
    assert '\n' !in line && '\r' !in line;
  }

  /** A line and what is left of it. */
  ghost predicate AreTrimmed(trimmed: seq<string>, lines: seq<string>) {
    && |trimmed| == |lines|
    && forall i :: 0 <= i < |lines| ==>
         && IsTrimmedLine(trimmed[i]) && IsWithoutBlanks(trimmed[i], lines[i])
         && (HoldsText(lines[i]) <==> trimmed[i] != [])
  }

  lemma TrimAllIs(lines: seq<string>)
    requires forall i :: 0 <= i < |lines| ==> IsOneLine(lines[i])
    ensures AreTrimmed(TrimAll(lines), lines)
  {
    forall i | 0 <= i < |lines|
      ensures var t := TrimAll(lines)[i];
        IsTrimmedLine(t) && IsWithoutBlanks(t, lines[i]) && (HoldsText(lines[i]) <==> t != [])
    {
      TrimmedIs(lines[i]);
    }
  }

  lemma BodyHasItsLines(trimmed: seq<string>, lines: seq<string>, n: nat)
    requires AreTrimmed(trimmed, lines) && 0 < n <= |lines|
    ensures var body := Join(trimmed[..n]);
      |LinesIn(body)| == n && forall i :: 0 <= i < n ==> IsWithoutBlanks(LinesIn(body)[i], lines[i])
  {
    JoinedHasItsLines(trimmed[..n]);
  }

  /** The lines of the result are the lines of the content, one for one, each without the blanks at its end, up to the
      last line that holds anything else; and every one of them ends in one newline. */
  lemma LinesStay(content: string) returns (n: nat, body: string)
    ensures Normalized(content) == body + "\n" && n <= |LinesIn(content)|
    ensures if n == 0 then body == "" else
      |LinesIn(body)| == n && forall i :: 0 <= i < n ==> IsWithoutBlanks(LinesIn(body)[i], LinesIn(content)[i])
    ensures n > 0 ==> HoldsText(LinesIn(content)[n - 1])
    ensures forall i :: n <= i < |LinesIn(content)| ==> !HoldsText(LinesIn(content)[i])
  {
    var lines := LinesIn(content);
    var trimmed := TrimAll(lines);
    SplitUnifiedIsLines(content, 0);
    assert content[0..] == content;
    LinesHaveNoBreak(content, 0);
    TrimAllIs(lines);
    n := StrippedLines(trimmed);
    body := Join(trimmed[..n]);
    if n > 0 { BodyHasItsLines(trimmed, lines, n); }
  }
}
