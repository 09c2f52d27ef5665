/** Headings (analyzer/document_structure.rs, detect_headings): marker headings on one line, and text lines
    underlined by the line below them. */
module Headings {
  import opened Options
  import opened SourceText
  import opened Lines
  import Fences
  import Seqs
  import Labels

  datatype DocumentFormat = Markdown | PlainText | ReStructuredText | AsciiDoc

  datatype HeadingStyle = Atx | AsciiDocTitle | Setext | ReStructuredTextUnderline

  datatype HeadingSpan = HeadingSpan(start: nat, end: nat, level: nat, style: HeadingStyle)

  predicate OnSource(source: string, line: LineSpan) {
    line.start <= line.end <= |source|
  }

  /** The end of a Markdown heading before the trailing hashes, if white space separates them. */
  function WithoutHashes(source: string, start: nat, end: nat): (r: nat)
    requires start < end <= |source| && !IsWhite(source[start]) && !IsWhite(source[end - 1])
    ensures start < r <= end && !IsWhite(source[r - 1])
  {
    var cut := HashesFrom(source, start, end);
    if start < cut < end && IsWhite(source[cut - 1]) then RightEdge(source, start, cut) else end
  }

  function HashesFrom(source: string, start: nat, end: nat): (r: nat)
    requires start <= end <= |source|
    ensures start <= r <= end
    ensures start < r ==> source[r - 1] != '#'
    ensures forall k :: r <= k < end ==> source[k] == '#'
    decreases end - start
  {
    if start < end && source[end - 1] == '#' then HashesFrom(source, start, end - 1) else end
  }

  /** Where the visible text of a line begins, or its end. */
  function FirstVisible(source: string, line: LineSpan): (r: nat)
    requires OnSource(source, line)
    ensures line.start <= r <= line.end && (r < line.end ==> !IsWhite(source[r]))
    ensures forall k :: line.start <= k < r ==> IsWhite(source[k])
  {
    LeftEdge(source, line.start, line.end)
  }

  function Marker(format: DocumentFormat): Option<char> {
    match format
    case Markdown => Some('#')
    case AsciiDoc => Some('=')
    case _ => None
  }

  /** Where the text after one to six markers and a blank begins. */
  function AfterMarkers(source: string, left: nat, end: nat, marker: char): (level: nat)
    requires left <= end <= |source|
    ensures left + level <= end
    ensures level > 0 ==> level <= 6 && left < end && source[left] == marker
  {
    var level := Fences.RunLength(source, left, end, marker);
    if level <= 6 && (left + level == end || Fences.IsAsciiWhite(source[left + level])) then level else 0
  }

  /** The level that the markers at the beginning of a line give it; zero when they make no heading. */
  function MarkerLevel(source: string, line: LineSpan, format: DocumentFormat): (level: nat)
    requires OnSource(source, line)
    ensures FirstVisible(source, line) + level <= line.end
    ensures level > 0 ==>
      && level <= 6 && FirstVisible(source, line) < line.end
      && Marker(format) == Some(source[FirstVisible(source, line)])
  {
    var left := FirstVisible(source, line);
    if Marker(format) == None || (format == Markdown && Labels.Bytes(source[line.start..left]) > 3) then 0
    else AfterMarkers(source, left, line.end, Marker(format).value)
  }

  function MarkedHeading(source: string, body: Span, level: nat, format: DocumentFormat): (r: HeadingSpan)
    requires Tight(source, body)
    ensures r.start == body.start < r.end <= body.end && Tight(source, Span(r.start, r.end)) && r.level == level
    ensures r.style == if format == Markdown then Atx else AsciiDocTitle
  {
    if format == Markdown then HeadingSpan(body.start, WithoutHashes(source, body.start, body.end), level, Atx)
    else HeadingSpan(body.start, body.end, level, AsciiDocTitle)
  }

  /** The heading that a text behind marks makes. */
  function TitleFrom(source: string, body: Option<Span>, level: nat, format: DocumentFormat): (r: Option<HeadingSpan>)
    requires body.Some? ==> Tight(source, body.value)
    ensures r.Some? ==>
      && body.Some? && body.value.start == r.value.start && r.value.end <= body.value.end
      && Tight(source, Span(r.value.start, r.value.end)) && r.value.level == level
  {
    match body
    case None => None
    case Some(b) => Some(MarkedHeading(source, b, level, format))
  }

  /** The heading behind so many marks; none without a mark. */
  function HeadingAt(source: string, at: nat, end: nat, level: nat, format: DocumentFormat): (r: Option<HeadingSpan>)
    requires at + level <= end <= |source|
    ensures r.Some? ==>
      at <= r.value.start && r.value.end <= end && Tight(source, Span(r.value.start, r.value.end))
    ensures r.Some? ==> r.value.level == level > 0
  {
    if level == 0 then None else TitleFrom(source, TrimmedSpan(source, at + level, end), level, format)
  }

  /** A heading that one line makes by itself: one to six markers, a blank, some text. */
  function DirectHeading(source: string, line: LineSpan, format: DocumentFormat): (r: Option<HeadingSpan>)
    requires OnSource(source, line)
    ensures r.Some? ==> MarkerLevel(source, line, format) > 0
    ensures r.Some? ==>
      line.start <= r.value.start && r.value.end <= line.end && Tight(source, Span(r.value.start, r.value.end))
    ensures r.Some? ==> 1 <= r.value.level <= 6
  {
    HeadingAt(source, FirstVisible(source, line), line.end, MarkerLevel(source, line, format), format)
  }

  // ---------- what makes a line a heading by itself ----------

  /** The first visible characters are `level` marks, one to six, with the end of the line or ASCII white space after
      them; in Markdown at most three bytes stand before them. */
  ghost predicate IsMarked(source: string, line: LineSpan, format: DocumentFormat, at: nat, level: nat)
    requires OnSource(source, line)
  {
    && line.start <= at && 1 <= level <= 6 && at + level <= line.end && Marker(format).Some?
    && (forall k :: line.start <= k < at ==> IsWhite(source[k]))
    && (forall k :: at <= k < at + level ==> source[k] == Marker(format).value)
    && (at + level < line.end ==> Fences.IsAsciiWhite(source[at + level]))
    && (format == Markdown ==> Labels.Bytes(source[line.start..at]) <= 3)
  }

  /** The visible text of a stretch of source. */
  ghost predicate IsBody(source: string, from: nat, to: nat, body: Span) {
    && from <= body.start < body.end <= to <= |source| && Tight(source, body)
    && forall k :: from <= k < to && !IsWhite(source[k]) ==> body.start <= k < body.end
  }

  /** The body ends in hashes from `cut` on, behind white space. */
  ghost predicate HashesAfterWhite(source: string, body: Span, cut: nat)
    requires body.end <= |source|
  {
    && body.start < cut < body.end && IsWhite(source[cut - 1])
    && forall k :: cut <= k < body.end ==> source[k] == '#'
  }

  /** Where the title ends: before such hashes and the white space before them, or with the body. */
  ghost predicate IsTitleEnd(source: string, body: Span, format: DocumentFormat, end: nat)
    requires body.end <= |source|
  {
    if format == Markdown && exists cut: nat :: HashesAfterWhite(source, body, cut) then
      exists cut: nat :: HashesAfterWhite(source, body, cut) && IsBody(source, body.start, cut, Span(body.start, end))
    else end == body.end
  }

  ghost predicate IsTitle(source: string, body: Span, format: DocumentFormat, h: HeadingSpan)
    requires body.end <= |source|
  {
    && h.start == body.start && IsTitleEnd(source, body, format, h.end)
    && h.style == if format == Markdown then Atx else AsciiDocTitle
  }

  ghost predicate IsDirect(source: string, line: LineSpan, format: DocumentFormat, h: HeadingSpan, at: nat, body: Span)
    requires OnSource(source, line)
  {
    && IsMarked(source, line, format, at, h.level)
    && IsBody(source, at + h.level, line.end, body)
    && IsTitle(source, body, format, h)
  }

  lemma MarksUnique(source: string, line: LineSpan, format: DocumentFormat, at: nat, level: nat)
    requires OnSource(source, line) && IsMarked(source, line, format, at, level)
    ensures at == FirstVisible(source, line) && level == MarkerLevel(source, line, format)
  {
    var marker := Marker(format).value;
    assert source[at] == marker && !IsWhite(marker);
    var left := FirstVisible(source, line);
    assert left == at;
    var run := Fences.RunLength(source, left, line.end, marker);
    assert run == level;
  }

  lemma MarkedLevel(source: string, line: LineSpan, format: DocumentFormat)
    requires OnSource(source, line) && MarkerLevel(source, line, format) > 0
    ensures IsMarked(source, line, format, FirstVisible(source, line), MarkerLevel(source, line, format))
  {
  }

  lemma BodyUnique(source: string, from: nat, to: nat, body: Span)
    requires from <= to <= |source|
    ensures TrimmedSpan(source, from, to) == Some(body) <==> IsBody(source, from, to, body)
  {
    var r := TrimmedSpan(source, from, to);
    if r.Some? { assert IsBody(source, from, to, r.value); }
    if IsBody(source, from, to, body) {
      assert !IsWhite(source[body.start]) && !IsWhite(source[body.end - 1]);
    }
  }

  lemma HashesUnique(source: string, body: Span, cut: nat)
    requires Tight(source, body) && HashesAfterWhite(source, body, cut)
    ensures cut == HashesFrom(source, body.start, body.end)
  {
  }

  lemma TitleEndUnique(source: string, body: Span, end: nat)
    requires Tight(source, body)
    ensures WithoutHashes(source, body.start, body.end) == end <==> IsTitleEnd(source, body, Markdown, end)
  {
    var cut := HashesFrom(source, body.start, body.end);
    forall other: nat | HashesAfterWhite(source, body, other) ensures other == cut {
      HashesUnique(source, body, other);
    }
    if HashesAfterWhite(source, body, cut) {
      var right := RightEdge(source, body.start, cut);
      BodyUnique(source, body.start, cut, Span(body.start, right));
      BodyUnique(source, body.start, cut, Span(body.start, end));
    }
  }

  lemma TitleUnique(source: string, body: Span, format: DocumentFormat, h: HeadingSpan)
    requires Tight(source, body)
    ensures MarkedHeading(source, body, h.level, format) == h <==> IsTitle(source, body, format, h)
  {
    if format == Markdown { TitleEndUnique(source, body, h.end); }
  }

  lemma DirectIs(source: string, line: LineSpan, format: DocumentFormat) returns (at: nat, body: Span)
    requires OnSource(source, line) && DirectHeading(source, line, format).Some?
    ensures IsDirect(source, line, format, DirectHeading(source, line, format).value, at, body)
  {
    at := FirstVisible(source, line);
    MarkedLevel(source, line, format);
    body := TitleOf(source, at, line.end, MarkerLevel(source, line, format), format);
  }

  lemma TitleOf(source: string, at: nat, end: nat, level: nat, format: DocumentFormat) returns (body: Span)
    requires at + level <= end <= |source| && HeadingAt(source, at, end, level, format).Some?
    ensures var h := HeadingAt(source, at, end, level, format).value;
      && IsBody(source, at + level, end, body) && IsTitle(source, body, format, h)
  {
    body := TrimmedSpan(source, at + level, end).value;
    BodyUnique(source, at + level, end, body);
    TitleUnique(source, body, format, HeadingAt(source, at, end, level, format).value);
  }

  lemma OnlyDirect(source: string, line: LineSpan, format: DocumentFormat, h: HeadingSpan, at: nat, body: Span)
    requires OnSource(source, line) && IsDirect(source, line, format, h, at, body)
    ensures DirectHeading(source, line, format) == Some(h)
  {
    MarkedIsDirect(source, line, format, at, h.level);
    TitleFromBody(source, body, format, h);
    OnlyTitle(source, at, line.end, body, format, h);
  }

  lemma MarkedIsDirect(source: string, line: LineSpan, format: DocumentFormat, at: nat, level: nat)
    requires OnSource(source, line) && IsMarked(source, line, format, at, level)
    ensures DirectHeading(source, line, format) == HeadingAt(source, at, line.end, level, format)
  {
    MarksUnique(source, line, format, at, level);
  }

  lemma OnlyTitle(source: string, at: nat, end: nat, body: Span, format: DocumentFormat, h: HeadingSpan)
    requires h.level > 0 && IsBody(source, at + h.level, end, body)
    requires TitleFrom(source, Some(body), h.level, format) == Some(h)
    ensures HeadingAt(source, at, end, h.level, format) == Some(h)
  {
    BodyUnique(source, at + h.level, end, body);
  }

  lemma TitleFromBody(source: string, body: Span, format: DocumentFormat, h: HeadingSpan)
    requires Tight(source, body) && IsTitle(source, body, format, h)
    ensures TitleFrom(source, Some(body), h.level, format) == Some(h)
  {
    TitleUnique(source, body, format, h);
  }

  /** Exactly such lines are headings by themselves, and what they say is the heading. */
  lemma DirectHeadingMeaning(source: string, line: LineSpan, format: DocumentFormat, h: HeadingSpan)
    requires OnSource(source, line)
    ensures DirectHeading(source, line, format) == Some(h) <==>
      exists at: nat, body :: IsDirect(source, line, format, h, at, body)
  {
    if DirectHeading(source, line, format) == Some(h) {
      var at, body := DirectIs(source, line, format);
    }
    if exists at: nat, body :: IsDirect(source, line, format, h, at, body) {
      var at: nat, body :| IsDirect(source, line, format, h, at, body);
      OnlyDirect(source, line, format, h, at, body);
    }
  }

  // ---------- underlines ----------

  /** The level that a line of three or more equal marks gives to the line above it. */
  function UnderlineLevel(source: string, line: LineSpan, format: DocumentFormat): (r: Option<nat>)
    requires OnSource(source, line)
    ensures r.Some? && format == Markdown ==>
      FirstVisible(source, line) < line.end && source[FirstVisible(source, line)] != '#'
  {
    match TrimmedSpan(source, line.start, line.end)
    case None => None
    case Some(p) =>
      var mark := source[p.start];
      if p.end - p.start < 3 || exists k :: p.start <= k < p.end && source[k] != mark then None
      else if format == Markdown then
        if mark == '=' then Some(1) else if mark == '-' then Some(2) else None
      else if format == ReStructuredText then
        if mark == '=' then Some(1)
        else if mark == '-' then Some(2)
        else if mark == '~' then Some(3)
        else if mark == '^' then Some(4)
        else if mark in {'"', '\'', '`', ':', '.', '_', '*', '+', '#'} then Some(5)
        else None
      else None
  }

  // ---------- what is detected ----------

  /** What the loop asks of one line, where it has not been excluded: its own heading, the level it gives to the line
      above as an underline, and its text. */
  datatype LineFacts = LineFacts(excluded: bool, direct: Option<HeadingSpan>, underline: Option<nat>,
                                 body: Option<Span>)

  /** The heading that a line makes by itself, unless it is excluded. */
  function DirectOf(source: string, line: LineSpan, format: DocumentFormat): Option<HeadingSpan>
    requires OnSource(source, line)
  {
    if line.excluded then None else DirectHeading(source, line, format)
  }

  function FactsAt(source: string, line: LineSpan, format: DocumentFormat): LineFacts
    requires OnSource(source, line)
  {
    LineFacts(
      line.excluded,
      DirectOf(source, line, format),
      if line.excluded then None else UnderlineLevel(source, line, format),
      TrimmedSpan(source, line.start, line.end))
  }

  ghost predicate AllOnSource(source: string, lines: seq<LineSpan>) {
    forall i :: 0 <= i < |lines| ==> OnSource(source, lines[i])
  }

  ghost function AllFacts(source: string, lines: seq<LineSpan>, format: DocumentFormat): (f: seq<LineFacts>)
    requires AllOnSource(source, lines)
    ensures |f| == |lines|
  {
    seq(|lines|, i requires 0 <= i < |lines| => FactsAt(source, lines[i], format))
  }

  function Underlined(body: Option<Span>, level: nat, format: DocumentFormat): Option<HeadingSpan> {
    if body == None then None
    else Some(HeadingSpan(body.value.start, body.value.end, level,
                          if format == Markdown then Setext else ReStructuredTextUnderline))
  }

  /** The heading of a line: its own, else the one that an underline directly below makes of a visible text line. */
  ghost function HeadingOf(facts: seq<LineFacts>, format: DocumentFormat, i: nat): Option<HeadingSpan>
    requires i < |facts|
  {
    if facts[i].direct.Some? then facts[i].direct
    else if facts[i].excluded || facts[i].underline.Some? then None
    else if i + 1 < |facts| && facts[i + 1].underline.Some? then
      Underlined(facts[i].body, facts[i + 1].underline.value, format)
    else None
  }

  /** A line is passed over when it is in a fenced block or an underline. */
  ghost predicate PassedOver(facts: seq<LineFacts>, i: nat)
    requires i < |facts|
  {
    facts[i].excluded || facts[i].underline.Some?
  }

  /** A heading is a tight span on its own line, which is not passed over. */
  lemma HeadingOnVisibleLine(source: string, lines: seq<LineSpan>, format: DocumentFormat, i: nat)
    requires AllOnSource(source, lines) && i < |lines| && HeadingOf(AllFacts(source, lines, format), format, i).Some?
    ensures var h := HeadingOf(AllFacts(source, lines, format), format, i).value;
      lines[i].start <= h.start && h.end <= lines[i].end && Tight(source, Span(h.start, h.end))
    ensures !PassedOver(AllFacts(source, lines, format), i)
  {
    var f := AllFacts(source, lines, format)[i];
    if f.direct.Some? { MarkerIsNoUnderline(source, lines[i], format); }
  }

  lemma MarkerIsNoUnderline(source: string, line: LineSpan, format: DocumentFormat)
    requires OnSource(source, line) && DirectHeading(source, line, format).Some?
    ensures UnderlineLevel(source, line, format) == None
  {
  }

  /** The level that a mark stands for. */
  ghost predicate MarkGives(format: DocumentFormat, mark: char, level: nat) {
    match format
    case Markdown => 1 <= level <= 2 && mark == "=-"[level - 1]
    case ReStructuredText =>
      (1 <= level <= 4 && mark == "=-~^"[level - 1]) || (level == 5 && mark in "\"'`:._*+#")
    case _ => false
  }

  /** The line holds three or more of one mark, and nothing else but white space around them. */
  ghost predicate IsUnderline(source: string, line: LineSpan, format: DocumentFormat, level: nat) {
    exists p :: IsMarks(source, line, p) && MarkGives(format, source[p.start], level)
  }

  ghost predicate IsMarks(source: string, line: LineSpan, p: Span) {
    && IsBody(source, line.start, line.end, p) && p.end - p.start >= 3
    && forall k :: p.start <= k < p.end ==> source[k] == source[p.start]
  }

  lemma MarksOfFive(c: char)
    ensures c in {'"', '\'', '`', ':', '.', '_', '*', '+', '#'} <==> c in "\"'`:._*+#"
  {
    var s := "\"'`:._*+#";
    assert s[0] == '"' && s[1] == '\'' && s[2] == '`' && s[3] == ':' && s[4] == '.' && s[5] == '_' && s[6] == '*'
        && s[7] == '+' && s[8] == '#';
  }

  /** Exactly such lines are underlines, and each gives one level. */
  lemma UnderlineMeaning(source: string, line: LineSpan, format: DocumentFormat, level: nat)
    requires OnSource(source, line)
    ensures UnderlineLevel(source, line, format) == Some(level) <==> IsUnderline(source, line, format, level)
  {
    var r := TrimmedSpan(source, line.start, line.end);
    if r.Some? {
      BodyUnique(source, line.start, line.end, r.value);
      MarksGive(source, line, format, r.value, level);
    }
    if p :| IsMarks(source, line, p) && MarkGives(format, source[p.start], level) {
      BodyUnique(source, line.start, line.end, p);
    }
  }

  lemma MarksGive(source: string, line: LineSpan, format: DocumentFormat, p: Span, level: nat)
    requires OnSource(source, line) && TrimmedSpan(source, line.start, line.end) == Some(p)
    requires IsBody(source, line.start, line.end, p)
    ensures UnderlineLevel(source, line, format) == Some(level)
      <==> IsMarks(source, line, p) && MarkGives(format, source[p.start], level)
  {
    MarksOfFive(source[p.start]);
  }

  /** The line above an underline becomes a heading of the underline's level. */
  ghost predicate IsUnderlined(source: string, lines: seq<LineSpan>, format: DocumentFormat, i: nat, h: HeadingSpan)
    requires AllOnSource(source, lines) && i < |lines|
  {
    && !lines[i].excluded && !(exists level: nat :: IsUnderline(source, lines[i], format, level))
    && i + 1 < |lines| && !lines[i + 1].excluded && IsUnderline(source, lines[i + 1], format, h.level)
    && IsBody(source, lines[i].start, lines[i].end, Span(h.start, h.end))
    && h.style == if format == Markdown then Setext else ReStructuredTextUnderline
  }

  /** A line's heading is the one that it makes by itself; else, if it is no underline, the one that an underline
      directly below it makes. */
  lemma HeadingMeaning(source: string, lines: seq<LineSpan>, format: DocumentFormat, i: nat, h: HeadingSpan)
    requires AllOnSource(source, lines) && i < |lines|
    ensures HeadingOf(AllFacts(source, lines, format), format, i) == Some(h) <==>
      if !lines[i].excluded && DirectHeading(source, lines[i], format).Some?
      then DirectHeading(source, lines[i], format) == Some(h)
      else IsUnderlined(source, lines, format, i, h)
  {
    NoUnderlineMeaning(source, lines[i], format);
    if i + 1 < |lines| { UnderlineMeaning(source, lines[i + 1], format, h.level); }
    BodyUnique(source, lines[i].start, lines[i].end, Span(h.start, h.end));
    FactsAre(source, lines, format, i);
    if i + 1 < |lines| { FactsAre(source, lines, format, i + 1); }
    HeadingFromFacts(AllFacts(source, lines, format), format, i, h);
  }

  lemma FactsAre(source: string, lines: seq<LineSpan>, format: DocumentFormat, i: nat)
    requires AllOnSource(source, lines) && i < |lines|
    ensures var f := AllFacts(source, lines, format)[i];
      && f.excluded == lines[i].excluded && f.body == TrimmedSpan(source, lines[i].start, lines[i].end)
      && f.direct == (if lines[i].excluded then None else DirectHeading(source, lines[i], format))
      && f.underline == if lines[i].excluded then None else UnderlineLevel(source, lines[i], format)
  {
  }

  lemma HeadingFromFacts(facts: seq<LineFacts>, format: DocumentFormat, i: nat, h: HeadingSpan)
    requires i < |facts|
    ensures HeadingOf(facts, format, i) == Some(h) <==>
      if facts[i].direct.Some? then facts[i].direct == Some(h)
      else
        && !facts[i].excluded && facts[i].underline == None && i + 1 < |facts|
        && facts[i + 1].underline == Some(h.level) && facts[i].body == Some(Span(h.start, h.end))
        && h.style == if format == Markdown then Setext else ReStructuredTextUnderline
  {
  }

  lemma NoUnderlineMeaning(source: string, line: LineSpan, format: DocumentFormat)
    requires OnSource(source, line)
    ensures UnderlineLevel(source, line, format) == None
      <==> !exists level: nat :: IsUnderline(source, line, format, level)
  {
    var own := UnderlineLevel(source, line, format);
    if level: nat :| IsUnderline(source, line, format, level) { UnderlineMeaning(source, line, format, level); }
    if own.Some? { UnderlineMeaning(source, line, format, own.value); }
  }

  // ---------- the loop ----------

  ghost predicate Consistent(facts: seq<LineFacts>) {
    forall i :: 0 <= i < |facts| && facts[i].excluded ==> facts[i].direct == None && facts[i].underline == None
  }

  /** The loop's state before line i: underlines above it are excluded, and headings above the line before it are
      final. */
  ghost predicate UpTo(facts: seq<LineFacts>, format: DocumentFormat, i: nat, excluded: seq<bool>,
                       headings: seq<Option<HeadingSpan>>) {
    && |excluded| == |headings| == |facts|
    && (forall k :: 0 <= k < |facts| ==> excluded[k] == (facts[k].excluded || (k < i && facts[k].underline.Some?)))
    && (forall k :: 0 <= k < |facts| && k < i - 1 ==> headings[k] == HeadingOf(facts, format, k))
    && (forall k :: 0 <= k < |facts| && i - 1 <= k ==> headings[k] == facts[k].direct)
  }

  /** Line i is handled: an underline is excluded, and may make a heading of the line above it. */
  lemma OneLineMore(facts: seq<LineFacts>, format: DocumentFormat, i: nat, excluded: seq<bool>,
                    headings: seq<Option<HeadingSpan>>)
    requires Consistent(facts) && i < |facts| && UpTo(facts, format, i, excluded, headings)
    ensures if excluded[i] || facts[i].underline == None then UpTo(facts, format, i + 1, excluded, headings)
      else UpTo(facts, format, i + 1, excluded[i := true],
          if i > 0 && !excluded[i - 1] && headings[i - 1] == None
          then headings[i - 1 := Underlined(facts[i - 1].body, facts[i].underline.value, format)] else headings)
  {
  }

  ghost function Directs(source: string, lines: seq<LineSpan>, format: DocumentFormat): (d: seq<Option<HeadingSpan>>)
    requires AllOnSource(source, lines)
    ensures |d| == |lines|
  {
    seq(|lines|, i requires 0 <= i < |lines| => DirectOf(source, lines[i], format))
  }

  method DirectHeadings(source: string, lines: seq<LineSpan>, format: DocumentFormat)
    returns (headings: seq<Option<HeadingSpan>>)
    requires AllOnSource(source, lines)
    ensures headings == Directs(source, lines, format)
  {
    headings := [];
    for i := 0 to |lines|
      invariant headings == Directs(source, lines, format)[..i]
    {
      Seqs.TakeOneMore(Directs(source, lines, format), i);
      headings := headings + [DirectOf(source, lines[i], format)];
    }
    Seqs.TakeAll(Directs(source, lines, format));
  }

  /** Before the loop headings are those that lines make by themselves. */
  lemma UpToFirst(source: string, lines: seq<LineSpan>, format: DocumentFormat, headings: seq<Option<HeadingSpan>>)
    requires AllOnSource(source, lines) && headings == Directs(source, lines, format)
    ensures UpTo(AllFacts(source, lines, format), format, 0, Flags(lines), headings)
  {
  }

  ghost function Flags(lines: seq<LineSpan>): (f: seq<bool>)
    ensures |f| == |lines|
  {
    seq(|lines|, i requires 0 <= i < |lines| => lines[i].excluded)
  }

  ghost predicate SameSpans(a: seq<LineSpan>, b: seq<LineSpan>) {
    && |a| == |b|
    && forall i :: 0 <= i < |a| ==> a[i].start == b[i].start && a[i].end == b[i].end
  }

  ghost predicate Describes(source: string, before: seq<LineSpan>, format: DocumentFormat, facts: seq<LineFacts>) {
    && AllOnSource(source, before) && |facts| == |before| && Consistent(facts)
    && forall i {:trigger FactsAt(source, before[i], format)} :: 0 <= i < |before| ==>
         facts[i] == FactsAt(source, before[i], format)
  }

  lemma FactsOfLine(source: string, before: seq<LineSpan>, lines: seq<LineSpan>, format: DocumentFormat,
                    facts: seq<LineFacts>, i: nat)
    requires Describes(source, before, format, facts) && SameSpans(lines, before) && i < |before|
    ensures OnSource(source, lines[i])
    ensures facts[i].body == TrimmedSpan(source, lines[i].start, lines[i].end)
    ensures !facts[i].excluded ==> facts[i].underline == UnderlineLevel(source, lines[i], format)
  {
    assert lines[i].(excluded := before[i].excluded) == before[i];
    assert UnderlineLevel(source, before[i], format) == UnderlineLevel(source, lines[i], format);
    assert facts[i] == FactsAt(source, before[i], format);
  }

  method UnderlineOf(source: string, ghost before: seq<LineSpan>, format: DocumentFormat, ghost facts: seq<LineFacts>,
                     lines: seq<LineSpan>, i: nat)
    returns (level: Option<nat>)
    requires Describes(source, before, format, facts) && SameSpans(lines, before) && i < |before|
    ensures !facts[i].excluded ==> level == facts[i].underline
  {
    FactsOfLine(source, before, lines, format, facts, i);
    level := UnderlineLevel(source, lines[i], format);
  }

  method BodyOf(source: string, ghost before: seq<LineSpan>, ghost format: DocumentFormat, ghost facts: seq<LineFacts>,
                lines: seq<LineSpan>, i: nat)
    returns (body: Option<Span>)
    requires Describes(source, before, format, facts) && SameSpans(lines, before) && i < |before|
    ensures body == facts[i].body
  {
    FactsOfLine(source, before, lines, format, facts, i);
    body := TrimmedSpan(source, lines[i].start, lines[i].end);
  }

  /** The loop body: whether line i is an underline, and the headings after it. */
  method HandleLine(source: string, ghost before: seq<LineSpan>, format: DocumentFormat, ghost facts: seq<LineFacts>,
                    i: nat, lines: seq<LineSpan>, headings: seq<Option<HeadingSpan>>)
    returns (exclude: bool, after: seq<Option<HeadingSpan>>)
    requires Describes(source, before, format, facts) && SameSpans(lines, before) && i < |before|
    requires UpTo(facts, format, i, Flags(lines), headings)
    ensures UpTo(facts, format, i + 1, if exclude then Flags(lines)[i := true] else Flags(lines), after)
  {
    OneLineMore(facts, format, i, Flags(lines), headings);
    exclude, after := false, headings;
    if lines[i].excluded { return; }
    var level := UnderlineOf(source, before, format, facts, lines, i);
    if level == None { return; }
    exclude := true;
    if i > 0 && !lines[i - 1].excluded && headings[i - 1] == None {
      var body := BodyOf(source, before, format, facts, lines, i - 1);
      after := headings[i - 1 := Underlined(body, level.value, format)];
    }
  }

  /** Finds every heading and excludes every underline, in place. */
  method DetectHeadings(source: string, lines: array<LineSpan>, format: DocumentFormat)
    returns (headings: seq<Option<HeadingSpan>>)
    requires AllOnSource(source, lines[..])
    modifies lines
    ensures |headings| == lines.Length && SameSpans(lines[..], old(lines[..]))
    ensures var facts := AllFacts(source, old(lines[..]), format);
      forall i :: 0 <= i < lines.Length ==>
        headings[i] == HeadingOf(facts, format, i) && lines[..][i].excluded == PassedOver(facts, i)
  {
    ghost var before := lines[..];
    ghost var facts := AllFacts(source, before, format);
    headings := DirectHeadings(source, lines[..], format);
    if format != Markdown && format != ReStructuredText {
      NoUnderlines(source, before, format, headings);
      return;
    }
    UpToFirst(source, before, format, headings);
    for i := 0 to lines.Length
      invariant SameSpans(lines[..], before)
      invariant UpTo(facts, format, i, Flags(lines[..]), headings)
    {
      var exclude;
      ghost var now := lines[..];
      exclude, headings := HandleLine(source, before, format, facts, i, lines[..], headings);
      ExcludedAt(before, now, i);
      if exclude { lines[i] := lines[i].(excluded := true); }
      assert lines[..] == if exclude then now[i := now[i].(excluded := true)] else now;
    }
    UpToEnd(facts, format, lines[..], headings);
  }

  /** In the other formats nothing is an underline. */
  lemma NoUnderlines(source: string, lines: seq<LineSpan>, format: DocumentFormat, headings: seq<Option<HeadingSpan>>)
    requires AllOnSource(source, lines) && headings == Directs(source, lines, format)
    requires format != Markdown && format != ReStructuredText
    ensures var facts := AllFacts(source, lines, format);
      forall i :: 0 <= i < |lines| ==>
        headings[i] == HeadingOf(facts, format, i) && lines[i].excluded == PassedOver(facts, i)
  {
    var facts := AllFacts(source, lines, format);
    forall i | 0 <= i < |lines| ensures facts[i].underline == None && headings[i] == facts[i].direct {}
  }

  lemma ExcludedAt(before: seq<LineSpan>, now: seq<LineSpan>, i: nat)
    requires SameSpans(now, before) && i < |now|
    ensures var after := now[i := now[i].(excluded := true)];
      SameSpans(after, before) && Flags(after) == Flags(now)[i := true]
  {
  }

  /** After the loop all headings are final. */
  lemma UpToEnd(facts: seq<LineFacts>, format: DocumentFormat, lines: seq<LineSpan>,
                headings: seq<Option<HeadingSpan>>)
    requires UpTo(facts, format, |lines|, Flags(lines), headings)
    ensures forall i :: 0 <= i < |lines| ==>
      headings[i] == HeadingOf(facts, format, i) && lines[i].excluded == PassedOver(facts, i)
  {
    forall i | 0 <= i < |lines|
      ensures headings[i] == HeadingOf(facts, format, i) && lines[i].excluded == PassedOver(facts, i)
    {
      assert Flags(lines)[i] == lines[i].excluded;
    }
  }
}
