/** The lines of a document (analyzer/document_structure.rs, line_spans). */
module Lines {
  import SourceText

  const MAX_DOCUMENT_LINES_PER_FILE: nat := 250_000

  datatype LineSpan = LineSpan(start: nat, end: nat, excluded: bool)

  function NewlineFrom(source: string, from: nat): (r: nat)
    requires from <= |source|
    ensures from <= r <= |source|
    ensures forall k :: from <= k < r ==> source[k] != '\n'
    ensures r < |source| ==> source[r] == '\n'
    decreases |source| - from
  {
    if from == |source| || source[from] == '\n' then from else NewlineFrom(source, from + 1)
  }

  /** The line that begins at `from`: it stops before the newline, and before a carriage return in front of that. */
  function LineAt(source: string, from: nat): (r: LineSpan)
    requires from <= |source|
    ensures from == r.start <= r.end <= NewlineFrom(source, from)
    ensures forall k :: r.end <= k < NewlineFrom(source, from) ==> source[k] == '\r'
  {
    var end := NewlineFrom(source, from);
    LineSpan(from, if from < end && source[end - 1] == '\r' then end - 1 else end, false)
  }

  function NextLine(source: string, from: nat): (r: nat)
    requires from < |source|
    ensures from < r <= |source|
  {
    var end := NewlineFrom(source, from);
    if end < |source| then end + 1 else end
  }

  function LinesFrom(source: string, from: nat): seq<LineSpan>
    requires from <= |source|
    decreases |source| - from
  {
    if from == |source| then [] else [LineAt(source, from)] + LinesFrom(source, NextLine(source, from))
  }

  /** All lines; the empty source has one empty line. */
  function AllLines(source: string): seq<LineSpan> {
    if source == "" then [LineSpan(0, 0, false)] else LinesFrom(source, 0)
  }

  ghost predicate LinesInOrder(source: string, lines: seq<LineSpan>, from: nat) {
    && (forall i :: 0 <= i < |lines| ==> from <= lines[i].start <= lines[i].end <= |source|)
    && (forall i, j :: 0 <= i < j < |lines| ==> lines[i].end <= lines[j].start)
  }

  /** Lines lie one after the other, and every character that is not white is on one of them. */
  lemma {:induction false} LinesCover(source: string, from: nat)
    requires from <= |source|
    ensures LinesInOrder(source, LinesFrom(source, from), from)
    ensures forall k {:trigger source[k]} :: from <= k < |source| && !SourceText.IsWhite(source[k]) ==>
      exists i ::
        0 <= i < |LinesFrom(source, from)| && LinesFrom(source, from)[i].start <= k < LinesFrom(source, from)[i].end
    decreases |source| - from
  {
    if from < |source| {
      var next := NextLine(source, from);
      LinesCover(source, next);
      var rest, all := LinesFrom(source, next), LinesFrom(source, from);
      assert forall i :: 0 < i < |all| ==> all[i] == rest[i - 1];
      forall k | from <= k < |source| && !SourceText.IsWhite(source[k])
        ensures exists i :: 0 <= i < |all| && all[i].start <= k < all[i].end
      {
        if k < next {
          assert all[0].start <= k < all[0].end;
        } else {
          var i :| 0 <= i < |rest| && rest[i].start <= k < rest[i].end;
          assert all[i + 1] == rest[i];
        }
      }
    }
  }

  /** A line stops before the newline at the end of its part of the source, if there is one, and before a carriage
      return in front of that; its part has no other newline. */
  ghost predicate IsLineOf(source: string, line: LineSpan, next: nat)
    requires next <= |source|
  {
    line.start < next && !line.excluded
    && var stop := if source[next - 1] == '\n' then next - 1 else next;
      && (stop == next ==> next == |source|)
      && (forall k :: line.start <= k < stop ==> source[k] != '\n')
      && line.end == if line.start < stop && source[stop - 1] == '\r' then stop - 1 else stop
  }

  /** Where the part of line i ends: where the next line begins, or with the source. */
  ghost function PartEnd(source: string, lines: seq<LineSpan>, i: nat): int
    requires i < |lines|
  {
    if i + 1 < |lines| then lines[i + 1].start else |source|
  }

  ghost predicate LineFits(source: string, lines: seq<LineSpan>, i: nat)
    requires i < |lines|
  {
    0 <= PartEnd(source, lines, i) <= |source| && IsLineOf(source, lines[i], PartEnd(source, lines, i))
  }

  ghost predicate Tile(source: string, lines: seq<LineSpan>, from: nat) {
    && (lines == [] <==> from == |source|) && (lines != [] ==> lines[0].start == from)
    && forall i :: 0 <= i < |lines| ==> LineFits(source, lines, i)
  }

  lemma FirstLineFits(source: string, from: nat)
    requires from < |source|
    ensures IsLineOf(source, LineAt(source, from), NextLine(source, from))
  {
  }

  lemma TileMore(source: string, line: LineSpan, rest: seq<LineSpan>, next: nat)
    requires next <= |source| && Tile(source, rest, next) && IsLineOf(source, line, next)
    ensures Tile(source, [line] + rest, line.start)
  {
    var all := [line] + rest;
    forall i | 0 <= i < |all| ensures LineFits(source, all, i) {
      if i == 0 {
        assert PartEnd(source, all, 0) == next;
      } else {
        assert LineFits(source, rest, i - 1);
        assert PartEnd(source, all, i) == PartEnd(source, rest, i - 1);
      }
    }
  }

  /** Lines leave nothing of the source out: each begins where the newline of the one before it is passed, empty lines
      included. */
  lemma {:induction false} LinesTile(source: string, from: nat)
    requires from <= |source|
    ensures Tile(source, LinesFrom(source, from), from)
    decreases |source| - from
  {
    if from < |source| {
      var next := NextLine(source, from);
      LinesTile(source, next);
      FirstLineFits(source, from);
      TileMore(source, LineAt(source, from), LinesFrom(source, next), next);
    }
  }

  /** The first 250,000 lines, and whether there are more. */
  method LineSpans(source: string) returns (lines: seq<LineSpan>, truncated: bool)
    ensures truncated <==> |AllLines(source)| > MAX_DOCUMENT_LINES_PER_FILE
    ensures lines == if truncated then AllLines(source)[..MAX_DOCUMENT_LINES_PER_FILE] else AllLines(source)
  {
    lines, truncated := [], false;
    var start := 0;
    while start < |source|
      invariant start <= |source| && |lines| <= MAX_DOCUMENT_LINES_PER_FILE
      invariant LinesFrom(source, 0) == lines + LinesFrom(source, start)
    {
      if |lines| >= MAX_DOCUMENT_LINES_PER_FILE {
        truncated := true;
        break;
      }
      var line, rest := LineAt(source, start), NextLine(source, start);
      assert lines + ([line] + LinesFrom(source, rest)) == (lines + [line]) + LinesFrom(source, rest);
      lines := lines + [line];
      start := rest;
    }
    if source == "" { lines := lines + [LineSpan(0, 0, false)]; }
  }

  ghost function Texts(source: string, lines: seq<LineSpan>): (t: seq<string>)
    requires forall i :: 0 <= i < |lines| ==> lines[i].start <= lines[i].end <= |source|
    ensures |t| == |lines|
  {
    seq(|lines|, i requires 0 <= i < |lines| => source[lines[i].start..lines[i].end])
  }
}
