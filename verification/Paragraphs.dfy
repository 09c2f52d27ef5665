/** What the segments of a document are, line by line: headings, and the sentences of paragraphs, which are the longest
    runs of text lines (analyzer/document.rs, the loop over the lines). */
module Paragraphs {
  import opened Options
  import opened SourceText
  import opened Lines
  import opened Headings
  import opened DocumentSegments
  import Seqs

  /** The first line from k on that is not text. */
  ghost function RunEnd(roles: seq<LineRole>, k: nat): (e: nat)
    requires k <= |roles|
    ensures k <= e <= |roles| && (e < |roles| ==> !roles[e].TextLine?)
    ensures forall l :: k <= l < e ==> roles[l].TextLine?
    decreases |roles| - k
  {
    if k == |roles| || !roles[k].TextLine? then k else RunEnd(roles, k + 1)
  }

  /** A text line after none begins a paragraph. */
  ghost predicate BeginsParagraph(roles: seq<LineRole>, k: nat)
    requires k < |roles|
  {
    roles[k].TextLine? && (k > 0 ==> !roles[k - 1].TextLine?)
  }

  /** From the first text line of a paragraph to its last. */
  ghost function ParagraphAt(roles: seq<LineRole>, k: nat): Span
    requires k < |roles| && BeginsParagraph(roles, k)
  {
    var e := RunEnd(roles, k);
    Span(roles[k].text.start, roles[e - 1].text.end)
  }

  /** What a line gives: its heading, or the sentences of the paragraph that it begins. */
  ghost function PieceAt(splitter: Splitter, roles: seq<LineRole>, k: nat): seq<Segment>
    requires k < |roles|
  {
    if roles[k].HeadingLine? then [Segment(HeadingSegment(roles[k].heading.level, roles[k].heading.style),
                                           Span(roles[k].heading.start, roles[k].heading.end))]
    else if BeginsParagraph(roles, k) then AsSentences(splitter(ParagraphAt(roles, k)))
    else []
  }

  ghost function PiecesFrom(splitter: Splitter, roles: seq<LineRole>, k: nat): seq<Segment>
    requires k <= |roles|
    decreases |roles| - k
  {
    if k == |roles| then [] else PieceAt(splitter, roles, k) + PiecesFrom(splitter, roles, k + 1)
  }

  lemma {:induction false} RestOfRunGivesNothing(splitter: Splitter, roles: seq<LineRole>, k: nat, e: nat)
    requires 0 < k <= e <= |roles| && forall l :: k - 1 <= l < e ==> roles[l].TextLine?
    ensures PiecesFrom(splitter, roles, k) == PiecesFrom(splitter, roles, e)
    decreases e - k
  {
    if k < e {
      RestOfRunGivesNothing(splitter, roles, k + 1, e);
      assert PieceAt(splitter, roles, k) == [];
    }
  }

  lemma {:induction false} RunEndIs(roles: seq<LineRole>, k: nat, e: nat)
    requires k <= e <= |roles| && (e < |roles| ==> !roles[e].TextLine?) && forall l :: k <= l < e ==> roles[l].TextLine?
    ensures RunEnd(roles, k) == e
  {
  }

  lemma ParagraphGivesSentences(splitter: Splitter, roles: seq<LineRole>, b: nat, e: nat)
    requires b < e <= |roles| && BeginsParagraph(roles, b) && forall l :: b <= l < e ==> roles[l].TextLine?
    requires e < |roles| ==> !roles[e].TextLine?
    ensures PiecesFrom(splitter, roles, b) ==
      AsSentences(splitter(Span(roles[b].text.start, roles[e - 1].text.end))) + PiecesFrom(splitter, roles, e)
  {
    var piece, rest :=
      AsSentences(splitter(Span(roles[b].text.start, roles[e - 1].text.end))), PiecesFrom(splitter, roles, e);
    ParagraphPiece(splitter, roles, b, e);
    RestOfRunGivesNothing(splitter, roles, b + 1, e);
    FirstGives(splitter, roles, b, piece, rest);
  }

  lemma FirstGives(splitter: Splitter, roles: seq<LineRole>, k: nat, piece: seq<Segment>, rest: seq<Segment>)
    requires k < |roles| && PieceAt(splitter, roles, k) == piece && PiecesFrom(splitter, roles, k + 1) == rest
    ensures PiecesFrom(splitter, roles, k) == piece + rest
  {
  }

  lemma ParagraphPiece(splitter: Splitter, roles: seq<LineRole>, b: nat, e: nat)
    requires b < e <= |roles| && BeginsParagraph(roles, b) && forall l :: b <= l < e ==> roles[l].TextLine?
    requires e < |roles| ==> !roles[e].TextLine?
    ensures PieceAt(splitter, roles, b) ==
      AsSentences(splitter(Span(roles[b].text.start, roles[e - 1].text.end)))
  {
    RunEndIs(roles, b, e);
  }

  /** The paragraph that is running before line i began with line b. */
  ghost predicate RunsSince(roles: seq<LineRole>, b: nat, i: nat, paragraph: Option<Span>)
    requires b <= i <= |roles|
  {
    && (forall l :: b <= l < i ==> roles[l].TextLine?) && (b > 0 ==> !roles[b - 1].TextLine?)
    && paragraph == if b == i then None else Some(Span(roles[b].text.start, roles[i - 1].text.end))
  }

  ghost predicate HeadingsNotEmpty(roles: seq<LineRole>) {
    forall k :: 0 <= k < |roles| && roles[k].HeadingLine? ==> roles[k].heading.start < roles[k].heading.end
  }

  lemma BreakGives(splitter: Splitter, roles: seq<LineRole>, b: nat, i: nat, paragraph: Option<Span>)
    requires b <= i < |roles| && RunsSince(roles, b, i, paragraph) && !roles[i].TextLine? && HeadingsNotEmpty(roles)
    ensures PiecesFrom(splitter, roles, b) ==
      Prose(splitter, paragraph) + OwnHeading(roles[i]) + PiecesFrom(splitter, roles, i + 1)
  {
    assert PieceAt(splitter, roles, i) == OwnHeading(roles[i]);
    if b < i {
      ParagraphGivesSentences(splitter, roles, b, i);
      Seqs.Associative(Prose(splitter, paragraph), OwnHeading(roles[i]), PiecesFrom(splitter, roles, i + 1));
    }
  }

  lemma RunsOn(roles: seq<LineRole>, b: nat, i: nat, paragraph: Option<Span>)
    requires b <= i < |roles| && RunsSince(roles, b, i, paragraph) && roles[i].TextLine?
    ensures RunsSince(roles, b, i + 1, Some(Joined(paragraph, roles[i].text)))
  {
  }

  lemma EndGives(splitter: Splitter, roles: seq<LineRole>, b: nat, paragraph: Option<Span>)
    requires b <= |roles| && RunsSince(roles, b, |roles|, paragraph)
    ensures PiecesFrom(splitter, roles, b) == Prose(splitter, paragraph)
  {
    if b < |roles| {
      ParagraphGivesSentences(splitter, roles, b, |roles|);
      assert PiecesFrom(splitter, roles, |roles|) == [];
    }
  }

  lemma SegmentsAtBreak(splitter: Splitter, roles: seq<LineRole>, i: nat, paragraph: Option<Span>, rest: seq<Segment>)
    requires i < |roles| && !roles[i].TextLine? && SegmentsFrom(splitter, roles, i + 1, None) == rest
    ensures SegmentsFrom(splitter, roles, i, paragraph) == Prose(splitter, paragraph) + OwnHeading(roles[i]) + rest
  {
  }

  lemma SegmentsAtText(splitter: Splitter, roles: seq<LineRole>, i: nat, paragraph: Option<Span>, rest: seq<Segment>)
    requires i < |roles| && roles[i].TextLine?
    requires SegmentsFrom(splitter, roles, i + 1, Some(Joined(paragraph, roles[i].text))) == rest
    ensures SegmentsFrom(splitter, roles, i, paragraph) == rest
  {
  }

  /** The segments from a line on are what the lines give from the beginning of the running paragraph on. */
  lemma {:induction false} SegmentsArePieces(splitter: Splitter, roles: seq<LineRole>, b: nat, i: nat,
                                             paragraph: Option<Span>)
    requires b <= i <= |roles| && RunsSince(roles, b, i, paragraph) && HeadingsNotEmpty(roles)
    ensures SegmentsFrom(splitter, roles, i, paragraph) == PiecesFrom(splitter, roles, b)
    decreases |roles| - i
  {
    if i == |roles| {
      EndGives(splitter, roles, b, paragraph);
    } else if roles[i].TextLine? {
      RunsOn(roles, b, i, paragraph);
      SegmentsArePieces(splitter, roles, b, i + 1, Some(Joined(paragraph, roles[i].text)));
      SegmentsAtText(splitter, roles, i, paragraph, PiecesFrom(splitter, roles, b));
    } else {
      SegmentsArePieces(splitter, roles, i + 1, i + 1, None);
      SegmentsAtBreak(splitter, roles, i, paragraph, PiecesFrom(splitter, roles, i + 1));
      BreakGives(splitter, roles, b, i, paragraph);
    }
  }

  /** So a document's segments are its headings and the sentences of its paragraphs, in the order of its lines; blank,
      fenced, underline and heading lines end a paragraph and nothing else does. */
  lemma DocumentIsItsPieces(source: string, splitter: Splitter, lines: seq<LineSpan>, roles: seq<LineRole>)
    requires Roles(source, lines, roles)
    ensures SegmentsFrom(splitter, roles, 0, None) == PiecesFrom(splitter, roles, 0)
  {
    forall k | 0 <= k < |roles| && roles[k].HeadingLine? ensures roles[k].heading.start < roles[k].heading.end {
      assert Fits(source, lines[k], roles[k]);
    }
    SegmentsArePieces(splitter, roles, 0, 0, None);
  }
}
