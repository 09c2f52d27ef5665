/** The full list of segments of a document, without any cap: what analyzer/document.rs emits line by line. */
module DocumentSegments {
  import opened Options
  import opened SourceText
  import opened Lines
  import opened Headings
  import S = Sentences

  datatype SegmentKind = HeadingSegment(level: nat, style: HeadingStyle) | SentenceSegment

  datatype Segment = Segment(kind: SegmentKind, span: Span)

  /** What one line contributes: a heading, nothing (passed over or blank), or text for the running paragraph. */
  datatype LineRole = HeadingLine(heading: HeadingSpan) | BreakLine | TextLine(text: Span)

  function RoleOf(source: string, line: LineSpan, heading: Option<HeadingSpan>): LineRole
    requires OnSource(source, line)
  {
    if heading.Some? then HeadingLine(heading.value)
    else if line.excluded || TrimmedSpan(source, line.start, line.end) == None then BreakLine
    else TextLine(TrimmedSpan(source, line.start, line.end).value)
  }

  function HeadingSegmentOf(h: HeadingSpan): Segment
    requires h.start < h.end
  {
    Segment(HeadingSegment(h.level, h.style), Span(h.start, h.end))
  }

  function AsSentences(spans: seq<Span>): (r: seq<Segment>)
    ensures |r| == |spans|
  {
    seq(|spans|, i requires 0 <= i < |spans| => Segment(SentenceSegment, spans[i]))
  }

  /** How a paragraph is split into sentences. */
  type Splitter = Span -> seq<Span>

  /** The splitter in use. A span outside the source, which no paragraph is, has no sentences. */
  function SentenceSplitter(abbreviation: S.Abbreviation, source: string): Splitter {
    (p: Span) => if p.start <= p.end <= |source| then S.Sentences(abbreviation, source, p.start, p.end) else []
  }

  /** The sentences of a paragraph, if one is running. */
  function Prose(splitter: Splitter, paragraph: Option<Span>): seq<Segment> {
    match paragraph
    case None => []
    case Some(p) => AsSentences(splitter(p))
  }

  function OwnHeading(role: LineRole): seq<Segment> {
    if role.HeadingLine? && role.heading.start < role.heading.end then [HeadingSegmentOf(role.heading)] else []
  }

  function Joined(paragraph: Option<Span>, text: Span): Span {
    if paragraph.Some? then Span(paragraph.value.start, text.end) else text
  }

  /** All segments from line i on, with the paragraph that is running there. */
  ghost function SegmentsFrom(splitter: Splitter, roles: seq<LineRole>, i: nat, paragraph: Option<Span>): seq<Segment>
    requires i <= |roles|
    decreases |roles| - i
  {
    if i == |roles| then Prose(splitter, paragraph)
    else if roles[i].TextLine? then SegmentsFrom(splitter, roles, i + 1, Some(Joined(paragraph, roles[i].text)))
    else Prose(splitter, paragraph) + OwnHeading(roles[i]) + SegmentsFrom(splitter, roles, i + 1, None)
  }

  // ---------- where segments lie ----------

  /** Tight, in source order, not overlapping, within bounds. */
  ghost predicate Layout(source: string, segments: seq<Segment>, from: nat, to: nat) {
    && (forall i :: 0 <= i < |segments| ==>
          from <= segments[i].span.start && segments[i].span.end <= to && Tight(source, segments[i].span))
    && (forall i, j :: 0 <= i < j < |segments| ==> segments[i].span.end <= segments[j].span.start)
  }

  ghost predicate InSentence(segments: seq<Segment>, m: nat, k: nat) {
    m < |segments| && segments[m].kind == SentenceSegment && segments[m].span.start <= k < segments[m].span.end
  }

  /** Every character of the span that is not white is in a sentence. */
  ghost predicate Held(source: string, segments: seq<Segment>, p: Span) {
    forall k :: p.start <= k < p.end && k < |source| && !IsWhite(source[k]) ==> exists m :: InSentence(segments, m, k)
  }

  ghost predicate SplitsWell(source: string, splitter: Splitter, p: Span) {
    Layout(source, AsSentences(splitter(p)), p.start, p.end) && Held(source, AsSentences(splitter(p)), p)
  }

  /** The splitter lays the sentences of any paragraph out inside it and leaves no visible character out. */
  ghost predicate Splitting(source: string, splitter: Splitter) {
    forall p {:trigger SplitsWell(source, splitter, p)} :: Tight(source, p) ==> SplitsWell(source, splitter, p)
  }

  lemma SentenceAt(source: string, spans: seq<Span>, p: Span, k: nat)
    requires p.start <= k < p.end <= |source| && !IsWhite(source[k]) && S.Splits(source, spans, p.start, p.end)
    ensures exists m :: InSentence(AsSentences(spans), m, k)
  {
    var m := S.HoldingSpan(source, spans, p.start, p.end, k);
    assert InSentence(AsSentences(spans), m, k);
  }

  lemma SentencesLaidOut(source: string, spans: seq<Span>, p: Span)
    requires p.start <= p.end <= |source| && S.Splits(source, spans, p.start, p.end)
    ensures Layout(source, AsSentences(spans), p.start, p.end)
  {
    assert forall i :: 0 <= i < |spans| ==> AsSentences(spans)[i].span == spans[i];
  }

  lemma SentencesHeld(source: string, spans: seq<Span>, p: Span)
    requires p.start <= p.end <= |source| && S.Splits(source, spans, p.start, p.end)
    ensures Held(source, AsSentences(spans), p)
  {
    forall k | p.start <= k < p.end && !IsWhite(source[k]) ensures exists m :: InSentence(AsSentences(spans), m, k) {
      SentenceAt(source, spans, p, k);
    }
  }

  lemma SentenceSplitterSplits(abbreviation: S.Abbreviation, source: string)
    ensures Splitting(source, SentenceSplitter(abbreviation, source))
  {
    forall p | Tight(source, p) ensures SplitsWell(source, SentenceSplitter(abbreviation, source), p) {
      SplitterSplits(abbreviation, source, p);
    }
  }

  lemma SplitterSplits(abbreviation: S.Abbreviation, source: string, p: Span)
    requires Tight(source, p)
    ensures SplitsWell(source, SentenceSplitter(abbreviation, source), p)
  {
    ParagraphSplits(abbreviation, source, p);
    SplitterAt(abbreviation, source, p);
    SplitsWellBy(source, SentenceSplitter(abbreviation, source), p,
                 S.Sentences(abbreviation, source, p.start, p.end));
  }

  lemma SplitterAt(abbreviation: S.Abbreviation, source: string, p: Span)
    requires p.start <= p.end <= |source|
    ensures SentenceSplitter(abbreviation, source)(p) == S.Sentences(abbreviation, source, p.start, p.end)
  {
  }

  lemma SplitsWellBy(source: string, splitter: Splitter, p: Span, spans: seq<Span>)
    requires splitter(p) == spans
    requires Layout(source, AsSentences(spans), p.start, p.end) && Held(source, AsSentences(spans), p)
    ensures SplitsWell(source, splitter, p)
  {
  }

  lemma ParagraphSplits(abbreviation: S.Abbreviation, source: string, p: Span)
    requires Tight(source, p)
    ensures var sentences := AsSentences(S.Sentences(abbreviation, source, p.start, p.end));
      Layout(source, sentences, p.start, p.end) && Held(source, sentences, p)
  {
    S.SentencesSplit(abbreviation, source, p.start, p.end);
    SentencesLaidOut(source, S.Sentences(abbreviation, source, p.start, p.end), p);
    SentencesHeld(source, S.Sentences(abbreviation, source, p.start, p.end), p);
  }

  /** A role that its line allows: headings and texts lie on the line, and a text is all that is visible on it. */
  ghost predicate Fits(source: string, line: LineSpan, role: LineRole) {
    match role
    case HeadingLine(h) => line.start <= h.start && h.end <= line.end && Tight(source, Span(h.start, h.end))
    case TextLine(t) => line.start <= t.start && t.end <= line.end && Tight(source, t)
    case BreakLine => true
  }

  ghost predicate Roles(source: string, lines: seq<LineSpan>, roles: seq<LineRole>) {
    && |roles| == |lines| && LinesInOrder(source, lines, 0)
    && forall i {:trigger Fits(source, lines[i], roles[i])} :: 0 <= i < |lines| ==> Fits(source, lines[i], roles[i])
  }

  ghost function LineStart(source: string, lines: seq<LineSpan>, i: nat): nat
    requires i <= |lines|
  {
    if i < |lines| then lines[i].start else |source|
  }

  /** A paragraph that may be running before line i. */
  ghost predicate Running(source: string, lines: seq<LineSpan>, i: nat, paragraph: Option<Span>)
    requires i <= |lines|
  {
    paragraph.Some? ==> Tight(source, paragraph.value) && paragraph.value.end <= LineStart(source, lines, i)
  }

  lemma RunningOn(source: string, lines: seq<LineSpan>, roles: seq<LineRole>, i: nat, paragraph: Option<Span>)
    requires Roles(source, lines, roles) && i < |lines| && Running(source, lines, i, paragraph)
    ensures lines[i].start <= lines[i].end <= LineStart(source, lines, i + 1)
    ensures Running(source, lines, i + 1, None)
    ensures roles[i].TextLine? ==> Running(source, lines, i + 1, Some(Joined(paragraph, roles[i].text)))
  {
    assert Fits(source, lines[i], roles[i]);
  }

  lemma LayoutAppend(source: string, a: seq<Segment>, b: seq<Segment>, from: nat, mid: nat, to: nat)
    requires Layout(source, a, from, mid) && Layout(source, b, mid, to) && from <= mid <= to
    ensures Layout(source, a + b, from, to)
  {
    assert forall i :: 0 <= i < |a + b| ==> (a + b)[i] == if i < |a| then a[i] else b[i - |a|];
  }

  lemma LayoutWiden(source: string, a: seq<Segment>, from: nat, to: nat, below: nat, above: nat)
    requires Layout(source, a, from, to) && below <= from && to <= above
    ensures Layout(source, a, below, above)
  {
  }

  lemma ProseLayout(source: string, splitter: Splitter, paragraph: Option<Span>, from: nat, to: nat)
    requires Splitting(source, splitter)
    requires paragraph.Some? ==>
      Tight(source, paragraph.value) && from <= paragraph.value.start && paragraph.value.end <= to
    ensures Layout(source, Prose(splitter, paragraph), from, to)
  {
    if paragraph.Some? {
      assert SplitsWell(source, splitter, paragraph.value);
      LayoutWiden(source, Prose(splitter, paragraph), paragraph.value.start, paragraph.value.end, from, to);
    }
  }

  lemma OwnHeadingLayout(source: string, line: LineSpan, role: LineRole)
    requires Fits(source, line, role)
    ensures Layout(source, OwnHeading(role), line.start, line.end)
  {
  }

  /** Where the segments from line i on may begin. */
  ghost function Base(source: string, lines: seq<LineSpan>, i: nat, paragraph: Option<Span>): nat
    requires i <= |lines|
  {
    if paragraph.Some? then paragraph.value.start else LineStart(source, lines, i)
  }

  lemma TextLineLayout(source: string, splitter: Splitter, lines: seq<LineSpan>, roles: seq<LineRole>, i: nat,
                       paragraph: Option<Span>)
    requires Roles(source, lines, roles) && i < |lines| && Running(source, lines, i, paragraph) && roles[i].TextLine?
    requires var joined := Some(Joined(paragraph, roles[i].text));
      Layout(source, SegmentsFrom(splitter, roles, i + 1, joined), joined.value.start, |source|)
    ensures Layout(source, SegmentsFrom(splitter, roles, i, paragraph), Base(source, lines, i, paragraph), |source|)
  {
    assert Fits(source, lines[i], roles[i]);
    var joined := Some(Joined(paragraph, roles[i].text));
    LayoutWiden(source, SegmentsFrom(splitter, roles, i + 1, joined), joined.value.start, |source|,
      Base(source, lines, i, paragraph), |source|);
  }

  lemma BreakLineLayout(source: string, splitter: Splitter, lines: seq<LineSpan>, roles: seq<LineRole>, i: nat,
                        paragraph: Option<Span>)
    requires Splitting(source, splitter)
    requires Roles(source, lines, roles) && i < |lines| && Running(source, lines, i, paragraph) && !roles[i].TextLine?
    requires Layout(source, SegmentsFrom(splitter, roles, i + 1, None), LineStart(source, lines, i + 1), |source|)
    ensures Layout(source, SegmentsFrom(splitter, roles, i, paragraph), Base(source, lines, i, paragraph), |source|)
  {
    var base := Base(source, lines, i, paragraph);
    RunningOn(source, lines, roles, i, paragraph);
    assert Fits(source, lines[i], roles[i]);
    ProseLayout(source, splitter, paragraph, base, lines[i].start);
    OwnHeadingLayout(source, lines[i], roles[i]);
    BreakLayout(source, Prose(splitter, paragraph), OwnHeading(roles[i]), SegmentsFrom(splitter, roles, i + 1, None),
      base, lines[i].start, lines[i].end, LineStart(source, lines, i + 1));
  }

  /** Segments are non-empty and tight, follow the source without overlapping, and stay after the place where they
      begin. */
  lemma {:induction false} SegmentsLayout(source: string, splitter: Splitter, lines: seq<LineSpan>,
                                          roles: seq<LineRole>, i: nat, paragraph: Option<Span>)
    requires Splitting(source, splitter) && Roles(source, lines, roles) && i <= |lines|
    requires Running(source, lines, i, paragraph)
    ensures Layout(source, SegmentsFrom(splitter, roles, i, paragraph), Base(source, lines, i, paragraph), |source|)
    decreases |lines| - i
  {
    if i == |lines| {
      ProseLayout(source, splitter, paragraph, Base(source, lines, i, paragraph), |source|);
    } else {
      RunningOn(source, lines, roles, i, paragraph);
      if roles[i].TextLine? {
        SegmentsLayout(source, splitter, lines, roles, i + 1, Some(Joined(paragraph, roles[i].text)));
        TextLineLayout(source, splitter, lines, roles, i, paragraph);
      } else {
        SegmentsLayout(source, splitter, lines, roles, i + 1, None);
        BreakLineLayout(source, splitter, lines, roles, i, paragraph);
      }
    }
  }

  lemma BreakLayout(source: string, a: seq<Segment>, b: seq<Segment>, c: seq<Segment>, from: nat, x: nat, y: nat,
                    z: nat)
    requires Layout(source, a, from, x) && Layout(source, b, x, y) && Layout(source, c, z, |source|)
    requires from <= x <= y <= z <= |source|
    ensures Layout(source, a + b + c, from, |source|)
  {
    LayoutAppend(source, a, b, from, x, y);
    LayoutWiden(source, a + b, from, y, from, z);
    LayoutAppend(source, a + b, c, from, z, |source|);
  }

  // ---------- what segments do not touch ----------

  ghost predicate Apart(s: Segment, line: LineSpan) {
    s.span.end <= line.start || line.end <= s.span.start
  }

  /** No segment touches a line that is passed over, and only its own heading touches a heading line. */
  ghost predicate Respects(segments: seq<Segment>, line: LineSpan, role: LineRole) {
    forall m :: 0 <= m < |segments| ==>
      role.TextLine? || Apart(segments[m], line) || OwnHeading(role) == [segments[m]]
  }

  lemma LayoutRespects(source: string, segments: seq<Segment>, from: nat, to: nat, line: LineSpan, role: LineRole)
    requires Layout(source, segments, from, to) && (to <= line.start || line.end <= from)
    ensures Respects(segments, line, role)
  {
  }

  lemma RespectsAppend(a: seq<Segment>, b: seq<Segment>, c: seq<Segment>, line: LineSpan, role: LineRole)
    requires Respects(a, line, role) && Respects(b, line, role) && Respects(c, line, role)
    ensures Respects(a + b + c, line, role)
  {
    var all := a + b + c;
    assert forall m :: 0 <= m < |all| ==>
      all[m] == if m < |a| then a[m] else if m < |a| + |b| then b[m - |a|] else c[m - |a| - |b|];
  }

  /** Around a line that ends the paragraph, for that line itself and for the lines below it. */
  lemma BreakLineRespects(source: string, splitter: Splitter, lines: seq<LineSpan>, roles: seq<LineRole>,
                          i: nat, paragraph: Option<Span>, j: nat)
    requires Splitting(source, splitter)
    requires Roles(source, lines, roles) && i <= j < |lines| && Running(source, lines, i, paragraph)
    requires !roles[i].TextLine?
    requires j > i ==> Respects(SegmentsFrom(splitter, roles, i + 1, None), lines[j], roles[j])
    ensures Respects(SegmentsFrom(splitter, roles, i, paragraph), lines[j], roles[j])
  {
    RunningOn(source, lines, roles, i, paragraph);
    assert Fits(source, lines[i], roles[i]);
    var prose, own, rest :=
      Prose(splitter, paragraph), OwnHeading(roles[i]), SegmentsFrom(splitter, roles, i + 1, None);
    ProseLayout(source, splitter, paragraph, 0, lines[i].start);
    LayoutRespects(source, prose, 0, lines[i].start, lines[j], roles[j]);
    OwnHeadingLayout(source, lines[i], roles[i]);
    if j > i {
      LayoutRespects(source, own, lines[i].start, lines[i].end, lines[j], roles[j]);
    } else {
      SegmentsLayout(source, splitter, lines, roles, i + 1, None);
      LayoutRespects(source, rest, LineStart(source, lines, i + 1), |source|, lines[j], roles[j]);
    }
    RespectsAppend(prose, own, rest, lines[j], roles[j]);
  }

  lemma {:induction false} SegmentsRespectLine(source: string, splitter: Splitter, lines: seq<LineSpan>,
                                               roles: seq<LineRole>, i: nat, paragraph: Option<Span>, j: nat)
    requires Splitting(source, splitter)
    requires Roles(source, lines, roles) && i <= j < |lines| && Running(source, lines, i, paragraph)
    ensures Respects(SegmentsFrom(splitter, roles, i, paragraph), lines[j], roles[j])
    decreases |lines| - i
  {
    RunningOn(source, lines, roles, i, paragraph);
    if roles[i].TextLine? {
      if j > i {
        SegmentsRespectLine(source, splitter, lines, roles, i + 1, Some(Joined(paragraph, roles[i].text)), j);
      }
    } else {
      if j > i { SegmentsRespectLine(source, splitter, lines, roles, i + 1, None, j); }
      BreakLineRespects(source, splitter, lines, roles, i, paragraph, j);
    }
  }

  // ---------- what sentences hold ----------

  lemma InSentenceOfBoth(a: seq<Segment>, b: seq<Segment>, m: nat, k: nat)
    ensures InSentence(a, m, k) ==> InSentence(a + b, m, k)
    ensures InSentence(b, m, k) ==> InSentence(a + b, |a| + m, k)
  {
    if InSentence(b, m, k) { assert (a + b)[|a| + m] == b[m]; }
  }

  /** Around a line that ends the paragraph: what its prose holds, and what the rest holds, the whole holds. */
  lemma HeldAcrossBreak(splitter: Splitter, roles: seq<LineRole>, i: nat, paragraph: Option<Span>, m: nat, k: nat)
    returns (n: nat)
    requires i < |roles| && !roles[i].TextLine?
    requires
      InSentence(Prose(splitter, paragraph), m, k) || InSentence(SegmentsFrom(splitter, roles, i + 1, None), m, k)
    ensures InSentence(SegmentsFrom(splitter, roles, i, paragraph), n, k)
  {
    var prose, own, rest :=
      Prose(splitter, paragraph), OwnHeading(roles[i]), SegmentsFrom(splitter, roles, i + 1, None);
    InSentenceOfBoth(prose, own, m, k);
    InSentenceOfBoth(prose + own, rest, m, k);
    n := if InSentence(prose, m, k) then m else |prose + own| + m;
  }

  lemma HeldAt(source: string, segments: seq<Segment>, p: Span, k: nat) returns (m: nat)
    requires Held(source, segments, p) && p.start <= k < p.end && k < |source| && !IsWhite(source[k])
    ensures InSentence(segments, m, k)
  {
    m :| InSentence(segments, m, k);
  }

  lemma ProseHolds(source: string, splitter: Splitter, p: Span, k: nat) returns (m: nat)
    requires SplitsWell(source, splitter, p) && Tight(source, p) && p.start <= k < p.end && !IsWhite(source[k])
    ensures InSentence(Prose(splitter, Some(p)), m, k)
  {
    m := HeldAt(source, AsSentences(splitter(p)), p, k);
  }

  /** What a paragraph that ends here holds. */
  lemma EndedProseHolds(source: string, splitter: Splitter, roles: seq<LineRole>, i: nat, p: Span, k: nat)
    returns (m: nat)
    requires Splitting(source, splitter) && Tight(source, p) && p.start <= k < p.end && !IsWhite(source[k])
    requires i <= |roles| && (i < |roles| ==> !roles[i].TextLine?)
    ensures InSentence(SegmentsFrom(splitter, roles, i, Some(p)), m, k)
  {
    assert SplitsWell(source, splitter, p);
    m := ProseHolds(source, splitter, p, k);
    if i < |roles| { m := HeldAcrossBreak(splitter, roles, i, Some(p), m, k); }
  }

  ghost predicate IsVisibleOn(source: string, line: LineSpan, k: nat) {
    line.start <= k < line.end && k < |source| && !IsWhite(source[k])
  }

  ghost predicate OnText(role: LineRole, k: nat) {
    role.TextLine? && role.text.start <= k < role.text.end
  }

  /** Every visible character of the running paragraph or of a later text is in a sentence. */
  lemma {:induction false} TextHeld(source: string, splitter: Splitter, lines: seq<LineSpan>, roles: seq<LineRole>,
                                    i: nat, paragraph: Option<Span>, j: nat, k: nat) returns (m: nat)
    requires Splitting(source, splitter)
    requires Roles(source, lines, roles) && i <= |lines| && Running(source, lines, i, paragraph)
    requires k < |source| && !IsWhite(source[k])
    requires (paragraph.Some? && paragraph.value.start <= k < paragraph.value.end)
      || (i <= j < |lines| && OnText(roles[j], k))
    ensures InSentence(SegmentsFrom(splitter, roles, i, paragraph), m, k)
    decreases |lines| - i
  {
    if i < |lines| { RunningOn(source, lines, roles, i, paragraph); }
    if i < |lines| && roles[i].TextLine? {
      JoinedHolds(source, lines, roles, i, paragraph, k);
      m := TextHeld(source, splitter, lines, roles, i + 1, Some(Joined(paragraph, roles[i].text)), j, k);
    } else if paragraph.Some? && paragraph.value.start <= k < paragraph.value.end {
      m := EndedProseHolds(source, splitter, roles, i, paragraph.value, k);
    } else {
      m := TextHeld(source, splitter, lines, roles, i + 1, None, j, k);
      m := HeldAcrossBreak(splitter, roles, i, paragraph, m, k);
    }
  }

  lemma JoinedHolds(source: string, lines: seq<LineSpan>, roles: seq<LineRole>, i: nat, paragraph: Option<Span>, k: nat)
    requires Roles(source, lines, roles) && i < |lines| && Running(source, lines, i, paragraph) && roles[i].TextLine?
    ensures var joined := Joined(paragraph, roles[i].text);
      && ((paragraph.Some? && paragraph.value.start <= k < paragraph.value.end) ==> joined.start <= k < joined.end)
      && (OnText(roles[i], k) ==> joined.start <= k < joined.end)
  {
    assert Fits(source, lines[i], roles[i]);
  }

  // ---------- a whole document ----------

  /** The roles of the lines after fences were marked: headings detected, underlines passed over. */
  ghost predicate RolesOf(source: string, marked: seq<LineSpan>, format: DocumentFormat, lines: seq<LineSpan>,
                          roles: seq<LineRole>) {
    && AllOnSource(source, marked) && SameSpans(lines, marked) && |roles| == |lines|
    && forall i {:trigger roles[i]} :: 0 <= i < |lines| ==>
         && lines[i].excluded == PassedOver(AllFacts(source, marked, format), i)
         && OnSource(source, lines[i])
         && roles[i] == RoleOf(source, lines[i], HeadingOf(AllFacts(source, marked, format), format, i))
  }

  lemma RoleFits(source: string, marked: seq<LineSpan>, format: DocumentFormat, lines: seq<LineSpan>,
                 roles: seq<LineRole>, i: nat)
    requires RolesOf(source, marked, format, lines, roles) && i < |lines|
    ensures Fits(source, lines[i], roles[i])
    ensures lines[i].excluded ==> roles[i].BreakLine?
    ensures forall k :: IsVisibleOn(source, lines[i], k) && !lines[i].excluded && !roles[i].HeadingLine? ==>
      OnText(roles[i], k)
  {
    var heading := HeadingOf(AllFacts(source, marked, format), format, i);
    assert roles[i] == RoleOf(source, lines[i], heading);
    if heading.Some? { HeadingOnVisibleLine(source, marked, format, i); }
  }

  lemma RolesOfAreRoles(source: string, marked: seq<LineSpan>, format: DocumentFormat, lines: seq<LineSpan>,
                        roles: seq<LineRole>)
    requires RolesOf(source, marked, format, lines, roles) && LinesInOrder(source, marked, 0)
    ensures Roles(source, lines, roles)
  {
    forall i | 0 <= i < |lines|
      ensures Fits(source, lines[i], roles[i])
    {
      RoleFits(source, marked, format, lines, roles, i);
    }
  }

  /** Segments of a document are tight and in source order without overlap. */
  lemma DocumentInOrder(source: string, splitter: Splitter, lines: seq<LineSpan>, roles: seq<LineRole>)
    requires Splitting(source, splitter) && Roles(source, lines, roles)
    ensures Layout(source, SegmentsFrom(splitter, roles, 0, None), 0, |source|)
  {
    SegmentsLayout(source, splitter, lines, roles, 0, None);
    LayoutWiden(source, SegmentsFrom(splitter, roles, 0, None), Base(source, lines, 0, None), |source|, 0, |source|);
  }

  /** No segment touches a fenced or underline line, and a heading line carries its heading alone. */
  lemma {:induction false} DocumentRespectsLine(source: string, splitter: Splitter, marked: seq<LineSpan>,
                                                format: DocumentFormat, lines: seq<LineSpan>, roles: seq<LineRole>,
                                                j: nat, m: nat)
    requires Splitting(source, splitter) && LinesInOrder(source, marked, 0) && j < |lines|
    requires RolesOf(source, marked, format, lines, roles) && m < |SegmentsFrom(splitter, roles, 0, None)|
    ensures var segment := SegmentsFrom(splitter, roles, 0, None)[m];
      && (lines[j].excluded ==> Apart(segment, lines[j]))
      && (roles[j].HeadingLine? ==> Apart(segment, lines[j]) || OwnHeading(roles[j]) == [segment])
  {
    RolesOfAreRoles(source, marked, format, lines, roles);
    SegmentsRespectLine(source, splitter, lines, roles, 0, None, j);
    RoleFits(source, marked, format, lines, roles, j);
  }

  /** One sentence holds the character, and no other segment does. */
  ghost predicate IsOnlySentence(segments: seq<Segment>, m: nat, k: nat) {
    InSentence(segments, m, k) && forall n :: InSentence(segments, n, k) ==> n == m
  }

  /** Each visible character of a line that is neither passed over nor a heading lies in exactly one sentence. */
  lemma {:induction false} DocumentHoldsText(source: string, splitter: Splitter, marked: seq<LineSpan>,
                                             format: DocumentFormat, lines: seq<LineSpan>, roles: seq<LineRole>, j: nat,
                                             k: nat)
    requires Splitting(source, splitter) && LinesInOrder(source, marked, 0) && j < |lines|
    requires RolesOf(source, marked, format, lines, roles)
    requires IsVisibleOn(source, lines[j], k) && !lines[j].excluded && !roles[j].HeadingLine?
    ensures exists m: nat :: IsOnlySentence(SegmentsFrom(splitter, roles, 0, None), m, k)
  {
    RolesOfAreRoles(source, marked, format, lines, roles);
    RoleFits(source, marked, format, lines, roles, j);
    var m := TextHeld(source, splitter, lines, roles, 0, None, j, k);
    DocumentInOrder(source, splitter, lines, roles);
    OnlyOneHolds(source, SegmentsFrom(splitter, roles, 0, None), m, k);
    assert IsOnlySentence(SegmentsFrom(splitter, roles, 0, None), m, k);
  }

  lemma OnlyOneHolds(source: string, segments: seq<Segment>, m: nat, k: nat)
    requires Layout(source, segments, 0, |source|) && InSentence(segments, m, k)
    ensures IsOnlySentence(segments, m, k)
  {
  }
}
