/** Fenced regions (analyzer/document_structure.rs). The loops carry one piece of state from line to line;
    the specification says of each line on its own whether it lies in a fenced block: section 4.5 of
    CommonMark 0.31.2 for code fences, `[source]` blocks for AsciiDoc. */
module Fences {
  import opened Options
  import SourceText
  import Lines

  predicate IsAsciiWhite(c: char) {
    c == ' ' || c == '\t' || c == '\n' || c == '\r' || c == '\U{000C}'
  }

  /** How many times c stands in a row from `at`, before `end`. */
  function RunLength(line: string, at: nat, end: nat, c: char): (n: nat)
    requires at <= end <= |line|
    ensures at + n <= end
    ensures forall k :: at <= k < at + n ==> line[k] == c
    ensures at + n < end ==> line[at + n] != c
    decreases end - at
  {
    if at < end && line[at] == c then 1 + RunLength(line, at + 1, end, c) else 0
  }

  datatype Fence = Fence(marker: char, length: nat, closing: bool)

  /** At most three spaces, then at least three backticks or tildes; `closing` when only blanks follow. */
  function MarkdownFence(line: string): Option<Fence> {
    var indent := RunLength(line, 0, |line|, ' ');
    if indent > 3 || indent == |line| || (line[indent] != '`' && line[indent] != '~') then None
    else
      var length := RunLength(line, indent, |line|, line[indent]);
      if length < 3 then None
      else Some(Fence(line[indent], length, forall k :: indent + length <= k < |line| ==> IsAsciiWhite(line[k])))
  }

  /** The line closes a block opened by f: same marker, at least as long, nothing after it. */
  predicate Closes(line: string, f: Fence) {
    var g := MarkdownFence(line);
    g.Some? && g.value.marker == f.marker && g.value.length >= f.length && g.value.closing
  }

  // ---------- one line, as CommonMark has it ----------

  /** A run of at least three backticks or tildes after at most three spaces, as long as it goes. */
  ghost predicate IsFenceRun(line: string, indent: nat, length: nat) {
    && indent <= 3 && length >= 3 && indent + length <= |line|
    && (forall k :: 0 <= k < indent ==> line[k] == ' ')
    && (line[indent] == '`' || line[indent] == '~')
    && (forall k :: indent <= k < indent + length ==> line[k] == line[indent])
    && (indent + length < |line| ==> line[indent + length] != line[indent])
  }

  /** An opening fence: the info string after backticks holds no backtick. */
  ghost predicate IsOpening(line: string, indent: nat, length: nat) {
    IsFenceRun(line, indent, length) && (line[indent] == '`' ==> '`' !in line[indent + length..])
  }

  /** A closing fence for a block: same marker, at least as long, and then only spaces and tabs. */
  ghost predicate IsClosing(line: string, marker: char, atLeast: nat, indent: nat, length: nat) {
    && IsFenceRun(line, indent, length) && line[indent] == marker && length >= atLeast
    && forall k :: indent + length <= k < |line| ==> line[k] == ' ' || line[k] == '\t'
  }

  lemma FenceRunUnique(line: string, indent: nat, length: nat)
    requires IsFenceRun(line, indent, length)
    ensures MarkdownFence(line).Some?
    ensures MarkdownFence(line).value.marker == line[indent] && MarkdownFence(line).value.length == length
    ensures MarkdownFence(line).value.closing <==> forall k :: indent + length <= k < |line| ==> IsAsciiWhite(line[k])
  {
    var spaces := RunLength(line, 0, |line|, ' ');
    assert spaces == indent by { assert line[indent] != ' '; }
    var run := RunLength(line, indent, |line|, line[indent]);
    assert run == length;
  }

  /** The code takes a line for a fence exactly when it has a fence run; that is an opening fence of CommonMark unless a
      backtick follows a run of backticks. */
  lemma OpeningAgainstCommonMark(line: string)
    ensures MarkdownFence(line).Some? <==> exists indent: nat, length: nat :: IsFenceRun(line, indent, length)
    ensures (exists indent: nat, length: nat :: IsOpening(line, indent, length)) <==>
      MarkdownFence(line).Some? && !(MarkdownFence(line).value.marker == '`' && BacktickAfterRun(line))
  {
    if MarkdownFence(line).Some? {
      var indent := RunLength(line, 0, |line|, ' ');
      var length := MarkdownFence(line).value.length;
      assert IsFenceRun(line, indent, length);
      assert IsOpening(line, indent, length) <==> !(line[indent] == '`' && BacktickAfterRun(line));
    }
    forall indent: nat, length: nat | IsFenceRun(line, indent, length)
      ensures MarkdownFence(line).Some?
      ensures indent == RunLength(line, 0, |line|, ' ') && length == MarkdownFence(line).value.length
    {
      FenceRunUnique(line, indent, length);
      assert line[indent] != ' ';
    }
  }

  /** After the run that begins a fence there is another backtick. */
  predicate BacktickAfterRun(line: string)
    requires MarkdownFence(line).Some?
  {
    '`' in line[RunLength(line, 0, |line|, ' ') + MarkdownFence(line).value.length..]
  }

  /** The code closes a block at every closing fence of CommonMark, and besides only where other ASCII white space
      follows. */
  lemma ClosingAgainstCommonMark(line: string, f: Fence)
    ensures (exists indent: nat, length: nat :: IsClosing(line, f.marker, f.length, indent, length)) <==>
      Closes(line, f) && forall k ::
        RunLength(line, 0, |line|, ' ') + MarkdownFence(line).value.length <= k < |line| ==>
          line[k] == ' ' || line[k] == '\t'
  {
    OpeningAgainstCommonMark(line);
    if MarkdownFence(line).Some? {
      var indent := RunLength(line, 0, |line|, ' ');
      var length := MarkdownFence(line).value.length;
      assert IsFenceRun(line, indent, length);
      assert IsClosing(line, f.marker, f.length, indent, length) <==>
        Closes(line, f) && forall k :: indent + length <= k < |line| ==> line[k] == ' ' || line[k] == '\t';
    }
    forall indent: nat, length: nat | IsFenceRun(line, indent, length)
      ensures indent == RunLength(line, 0, |line|, ' ') && length == MarkdownFence(line).value.length
    {
      FenceRunUnique(line, indent, length);
      assert line[indent] != ' ';
    }
  }

  /** A line where they differ. */
  lemma InfoStringWithBacktick()
    ensures MarkdownFence("```a`").Some? && !exists indent: nat, length: nat :: IsOpening("```a`", indent, length)
  {
    var line := "```a`";
    assert IsFenceRun(line, 0, 3);
    FenceRunUnique(line, 0, 3);
    assert line[4] == '`' && line[3..][1] == '`';
    assert RunLength(line, 0, |line|, ' ') == 0;
    OpeningAgainstCommonMark(line);
  }

  /** A line that closes a block in the code and not in CommonMark. */
  lemma FormFeedAfterFence()
    ensures Closes("```\U{000C}", Fence('`', 3, true))
    ensures !exists indent: nat, length: nat :: IsClosing("```\U{000C}", '`', 3, indent, length)
  {
    var line := "```\U{000C}";
    assert line[3] == '\U{000C}';
    assert IsFenceRun(line, 0, 3);
    FenceRunUnique(line, 0, 3);
    assert RunLength(line, 0, |line|, ' ') == 0;
    ClosingAgainstCommonMark(line, Fence('`', 3, true));
  }

  // ---------- Markdown ----------

  /** No line after o and before j closes the fence of o. */
  ghost predicate OpenUntil(texts: seq<string>, o: nat, j: nat)
    requires o < |texts| && j <= |texts|
  {
    MarkdownFence(texts[o]).Some? && forall k :: o < k < j ==> !Closes(texts[k], MarkdownFence(texts[o]).value)
  }

  /** The line is a fence, and no earlier fenced block still reaches it. */
  ghost predicate Opens(texts: seq<string>, o: nat)
    requires o < |texts|
    decreases o
  {
    MarkdownFence(texts[o]).Some? && !exists p :: 0 <= p < o && Opens(texts, p) && OpenUntil(texts, p, o)
  }

  /** The line belongs to a fenced block, fences included; an unclosed block runs to the end. */
  ghost predicate Fenced(texts: seq<string>, j: nat)
    requires j < |texts|
  {
    exists o :: 0 <= o <= j && Opens(texts, o) && OpenUntil(texts, o, j)
  }

  // ---------- whole documents, as CommonMark has them ----------

  ghost predicate StandardOpening(line: string) {
    exists indent: nat, length: nat :: IsOpening(line, indent, length)
  }

  ghost predicate StandardCloses(line: string, marker: char, atLeast: nat) {
    exists indent: nat, length: nat :: IsClosing(line, marker, atLeast, indent, length)
  }

  /** No line after o and before j is a closing fence for the opening fence o. */
  ghost predicate StandardUntil(texts: seq<string>, o: nat, j: nat)
    requires o < |texts| && j <= |texts|
  {
    exists indent: nat, length: nat ::
      && IsOpening(texts[o], indent, length)
      && forall k :: o < k < j ==> !StandardCloses(texts[k], texts[o][indent], length)
  }

  ghost predicate StandardOpens(texts: seq<string>, o: nat)
    requires o < |texts|
    decreases o
  {
    && StandardOpening(texts[o])
    && !exists p :: 0 <= p < o && StandardOpens(texts, p) && StandardUntil(texts, p, o)
  }

  /** The line belongs to a fenced code block of CommonMark; an unclosed block runs to the end. */
  ghost predicate StandardFenced(texts: seq<string>, j: nat)
    requires j < |texts|
  {
    exists o :: 0 <= o <= j && StandardOpens(texts, o) && StandardUntil(texts, o, j)
  }

  /** The line is no fence with a backtick behind backticks, nor one with white space behind it besides spaces and
      tabs. */
  ghost predicate IsCommon(line: string) {
    MarkdownFence(line).Some? ==>
      && !(MarkdownFence(line).value.marker == '`' && BacktickAfterRun(line))
      && (MarkdownFence(line).value.closing ==> forall k ::
            RunLength(line, 0, |line|, ' ') + MarkdownFence(line).value.length <= k < |line| ==>
              line[k] == ' ' || line[k] == '\t')
  }

  lemma SameOpening(line: string)
    requires IsCommon(line)
    ensures MarkdownFence(line).Some? <==> StandardOpening(line)
  {
    OpeningAgainstCommonMark(line);
  }

  lemma SameClosing(line: string, f: Fence)
    requires IsCommon(line)
    ensures Closes(line, f) <==> StandardCloses(line, f.marker, f.length)
  {
    ClosingAgainstCommonMark(line, f);
  }

  lemma SameUntil(texts: seq<string>, o: nat, j: nat)
    requires o < |texts| && j <= |texts| && forall i :: 0 <= i < |texts| ==> IsCommon(texts[i])
    ensures OpenUntil(texts, o, j) <==> StandardUntil(texts, o, j)
  {
    SameOpening(texts[o]);
    if MarkdownFence(texts[o]).Some? {
      var f := MarkdownFence(texts[o]).value;
      forall k | o < k < j ensures Closes(texts[k], f) <==> StandardCloses(texts[k], f.marker, f.length) {
        SameClosing(texts[k], f);
      }
      forall indent: nat, length: nat | IsOpening(texts[o], indent, length)
        ensures texts[o][indent] == f.marker && length == f.length
      {
        FenceRunUnique(texts[o], indent, length);
      }
    }
  }

  lemma {:induction false} SameOpens(texts: seq<string>, o: nat)
    requires o < |texts| && forall i :: 0 <= i < |texts| ==> IsCommon(texts[i])
    ensures Opens(texts, o) <==> StandardOpens(texts, o)
    decreases o
  {
    SameOpening(texts[o]);
    forall p | 0 <= p < o
      ensures Opens(texts, p) && OpenUntil(texts, p, o) <==> StandardOpens(texts, p) && StandardUntil(texts, p, o)
    {
      SameOpens(texts, p);
      SameUntil(texts, p, o);
    }
  }

  /** In a document without such lines exactly the lines of CommonMark's fenced code blocks are fenced. */
  lemma FencedAsCommonMark(texts: seq<string>, j: nat)
    requires j < |texts| && forall i :: 0 <= i < |texts| ==> IsCommon(texts[i])
    ensures Fenced(texts, j) <==> StandardFenced(texts, j)
  {
    forall o | 0 <= o <= j
      ensures Opens(texts, o) && OpenUntil(texts, o, j) <==> StandardOpens(texts, o) && StandardUntil(texts, o, j)
    {
      SameOpens(texts, o);
      SameUntil(texts, o, j);
    }
  }

  // ---------- the loop over a Markdown document ----------

  /** The loop's state before line i: which opening fence, if any, is still open. */
  ghost predicate Active(texts: seq<string>, i: nat, active: Option<Fence>, opener: nat)
    requires i <= |texts|
  {
    if active.Some? then
      && opener < i && Opens(texts, opener) && OpenUntil(texts, opener, i)
      && MarkdownFence(texts[opener]) == active
    else forall o :: 0 <= o < i && Opens(texts, o) ==> !OpenUntil(texts, o, i)
  }

  /** Two blocks are never open at once. */
  lemma OnlyOneOpen(texts: seq<string>, o: nat, p: nat, i: nat)
    requires o < i <= |texts| && p < i && Opens(texts, p) && OpenUntil(texts, p, i)
    ensures Opens(texts, o) && OpenUntil(texts, o, i) ==> o == p
  {
    assert OpenUntil(texts, o, i) && o < p ==> OpenUntil(texts, o, p);
    assert p < o ==> OpenUntil(texts, p, o);
  }

  lemma InsideBlock(texts: seq<string>, i: nat, f: Fence, opener: nat)
    requires i < |texts| && Active(texts, i, Some(f), opener)
    ensures Fenced(texts, i)
    ensures Active(texts, i + 1, if Closes(texts[i], f) then None else Some(f), opener)
  {
    if Closes(texts[i], f) {
      forall o | 0 <= o <= i && Opens(texts, o) ensures !OpenUntil(texts, o, i + 1) {
        if o < i { OnlyOneOpen(texts, o, opener, i); }
      }
    }
  }

  lemma OutsideBlock(texts: seq<string>, i: nat)
    requires i < |texts| && Active(texts, i, None, 0)
    ensures Fenced(texts, i) <==> MarkdownFence(texts[i]).Some?
    ensures Active(texts, i + 1, MarkdownFence(texts[i]), i)
  {
    assert MarkdownFence(texts[i]).Some? ==> Opens(texts, i) && OpenUntil(texts, i, i);
    forall o | 0 <= o < i && Opens(texts, o) ensures !OpenUntil(texts, o, i + 1) {
      assert OpenUntil(texts, o, i + 1) ==> OpenUntil(texts, o, i);
    }
  }

  ghost predicate LinesOf(source: string, lines: seq<Lines.LineSpan>, texts: seq<string>) {
    && |lines| == |texts|
    && forall i :: 0 <= i < |lines| ==>
         lines[i].start <= lines[i].end <= |source| && source[lines[i].start..lines[i].end] == texts[i]
  }

  /** The lines with those marked among the first i excluded, besides lines excluded before. */
  ghost predicate Flagged(lines: seq<Lines.LineSpan>, before: seq<Lines.LineSpan>, marked: seq<bool>, i: nat) {
    && |lines| == |before| == |marked|
    && forall k :: 0 <= k < |lines| ==> lines[k] == before[k].(excluded := before[k].excluded || (k < i && marked[k]))
  }

  lemma FlaggedMore(lines: seq<Lines.LineSpan>, before: seq<Lines.LineSpan>, marked: seq<bool>, i: nat)
    requires i < |lines| && Flagged(lines, before, marked, i)
    ensures Flagged(if marked[i] then lines[i := lines[i].(excluded := true)] else lines, before, marked, i + 1)
    ensures before[i].start == lines[i].start && before[i].end == lines[i].end
  {
  }

  /** Excludes exactly the lines of fenced code blocks, besides those excluded before. */
  method MarkMarkdownFences(source: string, lines: array<Lines.LineSpan>, ghost texts: seq<string>)
    requires LinesOf(source, lines[..], texts)
    modifies lines
    ensures forall i :: 0 <= i < lines.Length ==>
      lines[i] == old(lines[i]).(excluded := old(lines[i].excluded) || Fenced(texts, i))
  {
    var active: Option<Fence> := None;
    ghost var opener: nat, before := 0, lines[..];
    ghost var inside := seq(|texts|, k requires 0 <= k < |texts| => Fenced(texts, k));
    for i := 0 to lines.Length
      invariant Active(texts, i, active, opener) && Flagged(lines[..], before, inside, i)
    {
      var line := lines[i];
      FlaggedMore(lines[..], before, inside, i);
      assert before[i].start == line.start && before[i].end == line.end;
      var text := source[line.start..line.end];
      if active.Some? {
        InsideBlock(texts, i, active.value, opener);
        lines[i] := line.(excluded := true);
        if Closes(text, active.value) { active := None; }
      } else {
        OutsideBlock(texts, i);
        active := MarkdownFence(text);
        if active.Some? {
          lines[i] := line.(excluded := true);
          opener := i;
        }
      }
    }
    assert forall i :: 0 <= i < lines.Length ==>
      lines[..][i] == before[i].(excluded := before[i].excluded || inside[i]);
  }

  // ---------- AsciiDoc ----------

  function Trimmed(line: string): string {
    var p := SourceText.TrimmedSpan(line, 0, |line|);
    if p.Some? then line[p.value.start..p.value.end] else ""
  }

  predicate IsSourceAttribute(t: string) {
    "[source" <= t && t[|t| - 1] == ']'
  }

  predicate IsDelimiter(t: string) {
    t == "----" || t == "...."
  }

  lemma SourceAttributeMeaning(t: string)
    ensures IsSourceAttribute(t) <==> exists style :: t == "[source" + style + "]"
  {
    var head := "[source";
    assert |head| == 7 && head[6] == 'e';
    if IsSourceAttribute(t) {
      assert t[6] == 'e';
      var style := t[7..|t| - 1];
      assert t[..7] == head && t == t[..7] + style + [t[|t| - 1]];
      assert t == "[source" + style + "]";
    }
    if style :| t == "[source" + style + "]" { assert t[..7] == head && t[|t| - 1] == ']'; }
  }

  lemma DelimiterMeaning(t: string)
    ensures IsDelimiter(t) <==> |t| == 4 && (t[0] == '-' || t[0] == '.') && forall k :: 0 <= k < 4 ==> t[k] == t[0]
  {
  }

  /** No line after o and before j repeats the delimiter of o. */
  ghost predicate BlockUntil(trimmed: seq<string>, o: nat, j: nat)
    requires o < |trimmed| && j <= |trimmed|
  {
    forall k :: o < k < j ==> trimmed[k] != trimmed[o]
  }

  /** An earlier source block reaches the line. */
  ghost predicate Inside(trimmed: seq<string>, j: nat)
    requires j <= |trimmed|
    decreases j, 0
  {
    exists o :: 0 <= o < j && OpensBlock(trimmed, o) && BlockUntil(trimmed, o, j)
  }

  /** A source attribute stands before the line, outside any block, with only blank lines in between. */
  ghost predicate Announced(trimmed: seq<string>, j: nat)
    requires j <= |trimmed|
    decreases j, 1
  {
    exists a :: 0 <= a < j && IsSourceAttribute(trimmed[a]) && !Inside(trimmed, a)
                && forall k :: a < k < j ==> trimmed[k] == ""
  }

  ghost predicate OpensBlock(trimmed: seq<string>, o: nat)
    requires o < |trimmed|
    decreases o, 2
  {
    IsDelimiter(trimmed[o]) && !Inside(trimmed, o) && Announced(trimmed, o)
  }

  /** The line belongs to a source block, delimiters included, or is a source attribute outside one. */
  ghost predicate InSourceBlock(trimmed: seq<string>, j: nat)
    requires j < |trimmed|
  {
    Inside(trimmed, j) || OpensBlock(trimmed, j) || IsSourceAttribute(trimmed[j])
  }

  ghost predicate BlockState(trimmed: seq<string>, i: nat, delimiter: Option<string>, pending: bool, opener: nat)
    requires i <= |trimmed|
  {
    if delimiter.Some? then
      && opener < i && OpensBlock(trimmed, opener) && BlockUntil(trimmed, opener, i)
      && trimmed[opener] == delimiter.value && !pending
    else !Inside(trimmed, i) && (pending <==> Announced(trimmed, i))
  }

  lemma InsideNext(trimmed: seq<string>, i: nat)
    requires i < |trimmed|
    ensures !Inside(trimmed, i) && !OpensBlock(trimmed, i) ==> !Inside(trimmed, i + 1)
    ensures Announced(trimmed, i + 1) <==>
      (Announced(trimmed, i) && trimmed[i] == "") || (IsSourceAttribute(trimmed[i]) && !Inside(trimmed, i))
  {
    assert forall o :: 0 <= o < i && BlockUntil(trimmed, o, i + 1) ==> BlockUntil(trimmed, o, i);
    if Announced(trimmed, i + 1) {
      var a :| 0 <= a < i + 1 && IsSourceAttribute(trimmed[a]) && !Inside(trimmed, a)
               && forall k :: a < k < i + 1 ==> trimmed[k] == "";
      assert a < i ==> trimmed[i] == "";
    }
  }

  lemma DelimiterIsPlain(t: string)
    ensures IsDelimiter(t) ==> !IsSourceAttribute(t) && t != ""
  {
    if IsDelimiter(t) { assert t[0] != "[source"[0]; }
  }

  lemma BlockReaches(trimmed: seq<string>, o: nat, p: nat, i: nat)
    requires o < p <= i <= |trimmed| && OpensBlock(trimmed, o) && BlockUntil(trimmed, o, i)
    ensures Inside(trimmed, p)
  {
    assert BlockUntil(trimmed, o, p);
  }

  lemma {:induction false} OnlyOneBlock(trimmed: seq<string>, o: nat, p: nat, i: nat)
    requires o < i <= |trimmed| && p < i && OpensBlock(trimmed, p) && BlockUntil(trimmed, p, i)
    ensures OpensBlock(trimmed, o) && BlockUntil(trimmed, o, i) ==> o == p
  {
    if OpensBlock(trimmed, o) && BlockUntil(trimmed, o, i) {
      if o < p { BlockReaches(trimmed, o, p, i); }
      if p < o { BlockReaches(trimmed, p, o, i); }
    }
  }

  lemma InsideStep(trimmed: seq<string>, i: nat, delimiter: string, opener: nat)
    requires i < |trimmed| && BlockState(trimmed, i, Some(delimiter), false, opener)
    ensures InSourceBlock(trimmed, i)
    ensures BlockState(trimmed, i + 1, if trimmed[i] == delimiter then None else Some(delimiter), false, opener)
  {
    assert Inside(trimmed, i);
    if trimmed[i] == delimiter {
      DelimiterIsPlain(delimiter);
      InsideNext(trimmed, i);
      forall o | 0 <= o < i + 1 && OpensBlock(trimmed, o) ensures !BlockUntil(trimmed, o, i + 1) {
        if o < i { OnlyOneBlock(trimmed, o, opener, i); }
      }
    }
  }

  lemma OutsideStep(trimmed: seq<string>, i: nat, pending: bool)
    requires i < |trimmed| && BlockState(trimmed, i, None, pending, 0)
    ensures var t := trimmed[i];
      if IsSourceAttribute(t) then InSourceBlock(trimmed, i) && BlockState(trimmed, i + 1, None, true, 0)
      else if pending && IsDelimiter(t) then InSourceBlock(trimmed, i) && BlockState(trimmed, i + 1, Some(t), false, i)
      else !InSourceBlock(trimmed, i) && BlockState(trimmed, i + 1, None, pending && t == "", 0)
  {
    DelimiterIsPlain(trimmed[i]);
    InsideNext(trimmed, i);
  }

  ghost predicate TrimmedLinesOf(source: string, lines: seq<Lines.LineSpan>, trimmed: seq<string>) {
    && |lines| == |trimmed|
    && forall i :: 0 <= i < |lines| ==>
         lines[i].start <= lines[i].end <= |source| && Trimmed(source[lines[i].start..lines[i].end]) == trimmed[i]
  }

  /** The loop body: whether line i is excluded, and the state after it. */
  method HandleAsciiDocLine(ghost trimmed: seq<string>, ghost i: nat, text: string, delimiter: Option<string>,
                            pendingSource: bool, ghost opener: nat)
    returns (exclude: bool, delimiter': Option<string>, pendingSource': bool, ghost opener': nat)
    requires i < |trimmed| && text == trimmed[i] && BlockState(trimmed, i, delimiter, pendingSource, opener)
    ensures BlockState(trimmed, i + 1, delimiter', pendingSource', opener') && exclude == InSourceBlock(trimmed, i)
  {
    exclude, delimiter', pendingSource', opener' := false, delimiter, pendingSource, 0;
    if delimiter.Some? {
      InsideStep(trimmed, i, delimiter.value, opener);
      exclude, opener' := true, opener;
      if text == delimiter.value { delimiter' := None; }
    } else {
      OutsideStep(trimmed, i, pendingSource);
      if IsSourceAttribute(text) {
        exclude, pendingSource' := true, true;
      } else if pendingSource && IsDelimiter(text) {
        exclude, delimiter', pendingSource', opener' := true, Some(text), false, i;
      } else if text != "" {
        pendingSource' := false;
      }
    }
  }

  /** Excludes exactly the source blocks and the attribute lines that announce them, besides lines excluded before. */
  method MarkAsciiDocFences(source: string, lines: array<Lines.LineSpan>, ghost trimmed: seq<string>)
    requires TrimmedLinesOf(source, lines[..], trimmed)
    modifies lines
    ensures forall i :: 0 <= i < lines.Length ==>
      lines[i] == old(lines[i]).(excluded := old(lines[i].excluded) || InSourceBlock(trimmed, i))
  {
    var pendingSource := false;
    var delimiter: Option<string> := None;
    ghost var opener: nat := 0;
    ghost var inside := seq(|trimmed|, k requires 0 <= k < |trimmed| => InSourceBlock(trimmed, k));
    ghost var before := lines[..];
    for i := 0 to lines.Length
      invariant BlockState(trimmed, i, delimiter, pendingSource, opener) && Flagged(lines[..], before, inside, i)
    {
      var line := lines[i];
      FlaggedMore(lines[..], before, inside, i);
      var text := Trimmed(source[line.start..line.end]);
      var exclude;
      exclude, delimiter, pendingSource, opener := HandleAsciiDocLine(trimmed, i, text, delimiter, pendingSource,
                                                                      opener);
      if exclude { lines[i] := line.(excluded := true); }
    }
    assert forall i :: 0 <= i < lines.Length ==>
      lines[..][i] == before[i].(excluded := before[i].excluded || inside[i]);
  }
}
