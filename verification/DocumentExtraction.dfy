/** A document from source to graph (analyzer/document.rs, extract_document): lines, fences, headings, segments,
    caps. */
module DocumentExtraction {
  import opened Options
  import SourceText
  import opened Lines
  import Fences
  import opened Headings
  import opened DocumentSegments
  import opened DocumentGraph
  import opened DocumentExtractor
  import opened StableId
  import Occurrences
  import S = Sentences

  /** Whose document it is, and the collaborators that are not modelled. */
  datatype Origin = Origin(workspaceId: string, relativePath: string, languageName: string, hash: Hash,
                           abbreviation: S.Abbreviation)

  function KindName(kind: SegmentKind): string {
    if kind.HeadingSegment? then "heading" else "sentence"
  }

  function ContentId(hash: Hash, exact: string): string {
    Id(hash, "document-content", [exact])
  }

  function SemanticParts(o: Origin, kind: SegmentKind, ownerId: string, exact: string): seq<string> {
    [o.workspaceId, o.relativePath, o.languageName, KindName(kind), ownerId, ContentId(o.hash, exact)]
  }

  function ConfigOf(o: Origin, source: string): Config {
    Config(source, o.hash, "document-segment",
           (kind: SegmentKind, ownerId: string, exact: string) =>
             Id(o.hash, "document-segment-semantic", SemanticParts(o, kind, ownerId, exact)))
  }

  ghost predicate SameDocument(o: Origin, p: Origin) {
    o.workspaceId == p.workspaceId && o.relativePath == p.relativePath && o.languageName == p.languageName
  }

  /** Two segments share a semantic identity exactly when they are of the same document and both are headings or both
      sentences, and owner and text agree. */
  lemma SemanticIdentity(o: Origin, o': Origin, source: string, source': string, kind: SegmentKind, kind': SegmentKind,
                         owner: string, owner': string, exact: string, exact': string)
    requires o.hash == o'.hash && CollisionFree(o.hash) && AllFit([exact]) && AllFit([exact'])
    requires AllFit(SemanticParts(o, kind, owner, exact)) && AllFit(SemanticParts(o', kind', owner', exact'))
    ensures ConfigOf(o, source).semantic(kind, owner, exact) == ConfigOf(o', source').semantic(kind', owner', exact')
      <==> SameDocument(o, o') && (kind == SentenceSegment <==> kind' == SentenceSegment)
           && owner == owner' && exact == exact'
  {
    var ps, qs := SemanticParts(o, kind, owner, exact), SemanticParts(o', kind', owner', exact');
    KindsTold(kind, kind');
    if Id(o.hash, "document-segment-semantic", ps) == Id(o.hash, "document-segment-semantic", qs) {
      Occurrences.SamePrefix(o.hash, "document-segment-semantic", ps, qs);
      assert ps[0] == qs[0] && ps[1] == qs[1] && ps[2] == qs[2];
      assert ps[3] == qs[3] && ps[4] == qs[4] && ps[5] == qs[5];
      Occurrences.SamePrefix(o.hash, "document-content", [exact], [exact']);
      assert [exact][0] == [exact'][0];
    }
  }

  lemma KindsTold(kind: SegmentKind, kind': SegmentKind)
    ensures KindName(kind) == KindName(kind') <==> (kind == SentenceSegment <==> kind' == SentenceSegment)
  {
    assert "heading"[0] != "sentence"[0];
  }

  /** Under a collision-free hash the file and the segments of a document have different ids, and on these ids the
      containment edges are a tree with the file as its root. */
  lemma DocumentIsTree(o: Origin, source: string, file: GraphNode, segments: seq<Segment>, g: Graph)
    requires Records(ConfigOf(o, source), file, segments, g)
    requires file.id == Id(o.hash, "file", [o.workspaceId, o.relativePath])
    requires CollisionFree(o.hash) && AllFit(g.seen) && |segments| < U64
    ensures IdsDiffer(g.nodes) && IsTree(g.nodes, OfKind(g.edges, Contains))
  {
    NodeIdsDistinct(ConfigOf(o, source), file, segments, g, "file", [o.workspaceId, o.relativePath]);
    IdsMakeTree(g.nodes, LevelsOf(segments));
  }

  // ---------- what a document's lines and segments are ----------

  ghost function KeptLines(source: string): seq<LineSpan> {
    Capped(AllLines(source), MAX_DOCUMENT_LINES_PER_FILE)
  }

  ghost function TrimmedTexts(source: string, lines: seq<LineSpan>): (t: seq<string>)
    requires AllOnSource(source, lines)
    ensures |t| == |lines|
  {
    seq(|lines|, i requires 0 <= i < |lines| => Fences.Trimmed(source[lines[i].start..lines[i].end]))
  }

  /** Whether line i is part of a fenced block. */
  ghost predicate InFence(source: string, lines: seq<LineSpan>, format: DocumentFormat, i: nat)
    requires AllOnSource(source, lines) && i < |lines|
  {
    if format == AsciiDoc then Fences.InSourceBlock(TrimmedTexts(source, lines), i)
    else Fences.Fenced(Texts(source, lines), i)
  }

  ghost function Marked(source: string, lines: seq<LineSpan>, format: DocumentFormat): (m: seq<LineSpan>)
    requires AllOnSource(source, lines)
    ensures |m| == |lines| && AllOnSource(source, m)
  {
    seq(|lines|, i requires 0 <= i < |lines| =>
      lines[i].(excluded := lines[i].excluded || InFence(source, lines, format, i)))
  }

  /** The lines with fences and underlines passed over. */
  ghost function Visible(source: string, marked: seq<LineSpan>, format: DocumentFormat): (v: seq<LineSpan>)
    requires AllOnSource(source, marked)
    ensures |v| == |marked| && AllOnSource(source, v)
  {
    seq(|marked|, i requires 0 <= i < |marked| =>
      marked[i].(excluded := PassedOver(AllFacts(source, marked, format), i)))
  }

  ghost function AllRoles(source: string, marked: seq<LineSpan>, format: DocumentFormat): (r: seq<LineRole>)
    requires AllOnSource(source, marked)
    ensures |r| == |marked|
  {
    var facts, lines := AllFacts(source, marked, format), Visible(source, marked, format);
    seq(|marked|, i requires 0 <= i < |marked| => RoleOf(source, lines[i], HeadingOf(facts, format, i)))
  }

  ghost function KeptMarked(source: string, format: DocumentFormat): (m: seq<LineSpan>)
    ensures AllOnSource(source, m) && LinesInOrder(source, m, 0)
  {
    KeptLinesInOrder(source);
    Marked(source, KeptLines(source), format)
  }

  /** The segments of a document's kept lines, without the cap on segments. */
  ghost function FullSegments(abbreviation: S.Abbreviation, source: string, format: DocumentFormat): seq<Segment> {
    SegmentsFrom(SentenceSplitter(abbreviation, source), AllRoles(source, KeptMarked(source, format), format), 0, None)
  }

  lemma KeptLinesInOrder(source: string)
    ensures AllOnSource(source, KeptLines(source)) && LinesInOrder(source, KeptLines(source), 0)
    ensures forall i :: 0 <= i < |KeptLines(source)| ==> !KeptLines(source)[i].excluded
  {
    LinesCover(source, 0);
    NothingExcluded(source, 0);
  }

  lemma {:induction false} NothingExcluded(source: string, from: nat)
    requires from <= |source|
    ensures forall i :: 0 <= i < |LinesFrom(source, from)| ==> !LinesFrom(source, from)[i].excluded
    decreases |source| - from
  {
    if from < |source| { NothingExcluded(source, NextLine(source, from)); }
  }

  lemma RolesOfDocument(source: string, format: DocumentFormat)
    ensures var marked := KeptMarked(source, format);
      RolesOf(source, marked, format, Visible(source, marked, format), AllRoles(source, marked, format))
  {
  }

  // ---------- the whole extraction ----------

  /** Marks the fenced regions in place. */
  method MarkFencedRegions(source: string, lines: array<LineSpan>, format: DocumentFormat)
    requires AllOnSource(source, lines[..])
    modifies lines
    ensures lines[..] == Marked(source, old(lines[..]), format)
  {
    if format == AsciiDoc {
      Fences.MarkAsciiDocFences(source, lines, TrimmedTexts(source, lines[..]));
    } else {
      Fences.MarkMarkdownFences(source, lines, Texts(source, lines[..]));
    }
  }

  /** Lines with their headings, as the extractor reads them. */
  method FindHeadings(source: string, kept: seq<LineSpan>, format: DocumentFormat)
    returns (lines: seq<LineSpan>, headings: seq<Option<HeadingSpan>>)
    requires AllOnSource(source, kept)
    ensures |headings| == |kept|
    ensures var marked := Marked(source, kept, format);
      && lines == Visible(source, marked, format)
      && forall i :: 0 <= i < |kept| ==> headings[i] == HeadingOf(AllFacts(source, marked, format), format, i)
  {
    var a := new LineSpan[|kept|](i requires 0 <= i < |kept| => kept[i]);
    assert a[..] == kept;
    MarkFencedRegions(source, a, format);
    ghost var marked := a[..];
    headings := DetectHeadings(source, a, format);
    lines := a[..];
    ghost var facts := AllFacts(source, marked, format);
    forall i | 0 <= i < |kept| ensures lines[i] == Visible(source, marked, format)[i] {
      assert lines[i].excluded == PassedOver(facts, i);
    }
  }

  /** The kept lines with their headings and what each of them is for the extractor. */
  method ReadLines(abbreviation: S.Abbreviation, source: string, format: DocumentFormat)
    returns (lines: seq<LineSpan>, headings: seq<Option<HeadingSpan>>, truncated: bool, ghost roles: seq<LineRole>)
    ensures |headings| == |lines| && Roles(source, lines, roles)
    ensures forall i :: 0 <= i < |lines| ==> roles[i] == RoleOf(source, lines[i], headings[i])
    ensures SegmentsFrom(SentenceSplitter(abbreviation, source), roles, 0, None) ==
      FullSegments(abbreviation, source, format)
    ensures truncated <==> |AllLines(source)| > MAX_DOCUMENT_LINES_PER_FILE
  {
    var kept;
    kept, truncated := LineSpans(source);
    KeptLinesInOrder(source);
    lines, headings := FindHeadings(source, kept, format);
    ghost var marked := KeptMarked(source, format);
    roles := AllRoles(source, marked, format);
    RolesOfDocument(source, format);
    RolesOfAreRoles(source, marked, format, lines, roles);
  }

  /** extract_document: the emitted segments are the first 5,000 of the full list on the first 250,000 lines, and each
      reason is recorded exactly when its limit cuts something off. */
  method ExtractDocument(o: Origin, source: string, format: DocumentFormat, file: GraphNode) returns (e: Extractor)
    ensures fresh(e) && e.Valid() && e.config == ConfigOf(o, source) && e.file == file
    ensures e.emitted == Capped(FullSegments(o.abbreviation, source, format), MAX_DOCUMENT_FACTS_PER_FILE)
    ensures FactLimit in e.truncationReasons <==>
      |FullSegments(o.abbreviation, source, format)| > MAX_DOCUMENT_FACTS_PER_FILE
    ensures LineLimit in e.truncationReasons <==> |AllLines(source)| > MAX_DOCUMENT_LINES_PER_FILE
  {
    var lines, headings, linesTruncated, roles := ReadLines(o.abbreviation, source, format);
    e := new Extractor(ConfigOf(o, source), o.abbreviation, file);
    if linesTruncated { e.MarkLineLimit(); }
    e.ExtractLines(lines, headings, roles);
  }

  /** Where a visible character of a document is: on line j, which is passed over, or a heading line, or holds it in
      exactly one sentence. */
  ghost predicate Accounted(abbreviation: S.Abbreviation, source: string, format: DocumentFormat, j: nat, k: nat) {
    var marked := KeptMarked(source, format);
    var lines, roles := Visible(source, marked, format), AllRoles(source, marked, format);
    && j < |lines| && IsVisibleOn(source, lines[j], k)
    && (lines[j].excluded || roles[j].HeadingLine?
        || exists m: nat :: IsOnlySentence(FullSegments(abbreviation, source, format), m, k))
  }

  lemma LineOf(source: string, format: DocumentFormat, k: nat) returns (j: nat)
    requires |AllLines(source)| <= MAX_DOCUMENT_LINES_PER_FILE && k < |source| && !SourceText.IsWhite(source[k])
    ensures var lines := Visible(source, KeptMarked(source, format), format);
      j < |lines| && IsVisibleOn(source, lines[j], k)
  {
    j := LineHolding(source, k);
    KeptLinesInOrder(source);
    SameBounds(source, format, j);
  }

  lemma LineHolding(source: string, k: nat) returns (j: nat)
    requires |AllLines(source)| <= MAX_DOCUMENT_LINES_PER_FILE && k < |source| && !SourceText.IsWhite(source[k])
    ensures j < |KeptLines(source)| && KeptLines(source)[j].start <= k < KeptLines(source)[j].end
  {
    var all := LinesFrom(source, 0);
    LinesCover(source, 0);
    j :| 0 <= j < |all| && all[j].start <= k < all[j].end;
    assert KeptLines(source) == all;
  }

  /** Marking lines does not move them. */
  lemma SameBounds(source: string, format: DocumentFormat, j: nat)
    requires j < |KeptLines(source)|
    ensures var lines := Visible(source, KeptMarked(source, format), format);
      && |lines| == |KeptLines(source)|
      && lines[j].start == KeptLines(source)[j].start && lines[j].end == KeptLines(source)[j].end
  {
    KeptLinesInOrder(source);
  }

  lemma AccountedOnLine(abbreviation: S.Abbreviation, source: string, format: DocumentFormat, j: nat, k: nat)
    requires var lines := Visible(source, KeptMarked(source, format), format);
      j < |lines| && IsVisibleOn(source, lines[j], k)
    ensures Accounted(abbreviation, source, format, j, k)
  {
    var marked := KeptMarked(source, format);
    var lines, roles := Visible(source, marked, format), AllRoles(source, marked, format);
    if !lines[j].excluded && !roles[j].HeadingLine? {
      RolesOfDocument(source, format);
      SentenceSplitterSplits(abbreviation, source);
      DocumentHoldsText(source, SentenceSplitter(abbreviation, source), marked, format, lines, roles, j, k);
      var all := FullSegments(abbreviation, source, format);
      var m: nat :| IsOnlySentence(all, m, k);
    }
  }

  /** Every visible character of an uncut document is accounted for. */
  lemma NothingVisibleIsLost(abbreviation: S.Abbreviation, source: string, format: DocumentFormat, k: nat)
    requires |AllLines(source)| <= MAX_DOCUMENT_LINES_PER_FILE && k < |source| && !SourceText.IsWhite(source[k])
    ensures exists j: nat :: Accounted(abbreviation, source, format, j, k)
  {
    var j := LineOf(source, format, k);
    AccountedOnLine(abbreviation, source, format, j, k);
  }
}
