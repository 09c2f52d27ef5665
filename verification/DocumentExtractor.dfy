/** The capped extractor (analyzer/document.rs): it emits segments one by one and stops at the first one over the
    cap. */
module DocumentExtractor {
  import opened Options
  import opened SourceText
  import Lines
  import opened Headings
  import opened DocumentSegments
  import opened DocumentGraph
  import opened HeadingStack
  import Occurrences
  import Seqs
  import Labels
  import Sentences

  const MAX_DOCUMENT_FACTS_PER_FILE: nat := 5_000

  datatype Reason = LineLimit | FactLimit

  /** What a stack of levels and positions looks like with ids in place of positions. */
  ghost predicate Shows(stack: seq<(nat, string)>, open: seq<Open>, nodes: seq<GraphNode>) {
    && |stack| == |open|
    && forall i :: 0 <= i < |open| ==>
         open[i].position < |nodes| && stack[i] == (open[i].level, nodes[open[i].position].id)
  }

  /** The first `n` elements, or all when there are fewer. */
  function Capped<T>(q: seq<T>, n: nat): seq<T> {
    if |q| <= n then q else q[..n]
  }

  class Extractor {
    const config: Config
    const abbreviation: Sentences.Abbreviation
    const file: GraphNode
    const occurrences: Occurrences.Counter
    var nodes: seq<GraphNode>
    var edges: seq<GraphEdge>
    var headingStack: seq<(nat, string)>
    var lastSegmentId: Option<string>
    var factCount: nat
    var segmentsConsidered: nat
    var truncationReasons: set<Reason>
    ghost var emitted: seq<Segment>

    ghost function Built(): Graph
      reads this, occurrences
    {
      Graph(nodes, edges, occurrences.seen)
    }

    /** The graph records exactly the segments emitted so far. */
    ghost predicate GraphValid()
      reads this, occurrences
    {
      && occurrences.Valid()
      && Records(config, file, emitted, Built())
      && factCount == |emitted| <= MAX_DOCUMENT_FACTS_PER_FILE
      && lastSegmentId == (if emitted == [] then None else Some(nodes[|emitted|].id))
    }

    /** The fact limit is a reason only when it is reached. */
    ghost predicate Valid()
      reads this, occurrences
    {
      && GraphValid()
      && segmentsConsidered == |emitted| + (if FactLimit in truncationReasons then 1 else 0)
      && (FactLimit in truncationReasons ==> |emitted| == MAX_DOCUMENT_FACTS_PER_FILE)
    }

    ghost predicate StackValid()
      reads this, occurrences
    {
      Shows(headingStack, StackOf(LevelsOf(emitted)), nodes)
    }

    constructor (config: Config, abbreviation: Sentences.Abbreviation, file: GraphNode)
      ensures Valid() && StackValid() && emitted == [] && truncationReasons == {}
      ensures this.config == config && this.abbreviation == abbreviation && this.file == file
      ensures fresh(occurrences)
    {
      this.config, this.abbreviation, this.file := config, abbreviation, file;
      occurrences := new Occurrences.Counter();
      nodes, edges, headingStack, lastSegmentId := [file], [], [], None;
      factCount, segmentsConsidered, truncationReasons := 0, 0, {};
      emitted := [];
      new;
      assert EdgesOf(nodes, LevelsOf(emitted)) == [];
    }

    method MarkLineLimit()
      requires Valid()
      modifies this`truncationReasons
      ensures Valid() && truncationReasons == old(truncationReasons) + {LineLimit}
    {
      truncationReasons := truncationReasons + {LineLimit};
    }

    /** Emits one segment under an owner, or records that the limit is reached. */
    method EmitSegment(kind: SegmentKind, span: Span, ownerId: string, ghost owner: nat) returns (id: Option<string>)
      requires Valid() && FactLimit !in truncationReasons && Tight(config.source, span)
      requires owner == Owner(LevelsOf(emitted + [Segment(kind, span)]), |emitted|) && ownerId == nodes[owner].id
      modifies this`nodes, this`edges, this`lastSegmentId, this`factCount, this`segmentsConsidered,
               this`truncationReasons,
               this`emitted, occurrences
      ensures Valid()
      ensures id == None <==> |old(emitted)| == MAX_DOCUMENT_FACTS_PER_FILE
      ensures id == None ==>
        truncationReasons == old(truncationReasons) + {FactLimit} && emitted == old(emitted) && nodes == old(nodes)
      ensures id.Some? ==>
        && truncationReasons == old(truncationReasons) && emitted == old(emitted) + [Segment(kind, span)]
        && |nodes| == |old(nodes)| + 1 && old(nodes) <= nodes && id.value == nodes[|nodes| - 1].id
    {
      segmentsConsidered := segmentsConsidered + 1;
      if factCount >= MAX_DOCUMENT_FACTS_PER_FILE {
        truncationReasons := truncationReasons + {FactLimit};
        return None;
      }
      var nodeId := AddSegment(kind, span, ownerId, owner);
      id := Some(nodeId);
    }

    /** A segment below the limit: its label, its numbered identity, its node and edges. */
    method AddSegment(kind: SegmentKind, span: Span, ownerId: string, ghost owner: nat) returns (nodeId: string)
      requires GraphValid() && factCount < MAX_DOCUMENT_FACTS_PER_FILE && Tight(config.source, span)
      requires owner == Owner(LevelsOf(emitted + [Segment(kind, span)]), |emitted|) && ownerId == nodes[owner].id
      modifies this`nodes, this`edges, this`lastSegmentId, this`factCount, this`emitted, occurrences
      ensures GraphValid()
      ensures emitted == old(emitted) + [Segment(kind, span)]
      ensures |nodes| == |old(nodes)| + 1 && old(nodes) <= nodes && nodeId == nodes[|nodes| - 1].id
    {
      ghost var before := Built();
      var node, semantic := NewNode(kind, span, ownerId, owner);
      AddNode(node, ownerId, semantic, owner);
      emitted := emitted + [Segment(kind, span)];
      assert Built() == Extended(before, semantic, node, owner);
      nodeId := node.id;
    }

    /** The node of a segment: its label and its numbered identity. */
    method NewNode(kind: SegmentKind, span: Span, ownerId: string, ghost owner: nat)
      returns (node: GraphNode, ghost semantic: string)
      requires GraphValid() && Tight(config.source, span)
      requires owner == Owner(LevelsOf(emitted + [Segment(kind, span)]), |emitted|) && ownerId == nodes[owner].id
      modifies occurrences
      ensures occurrences.Valid() && occurrences.seen == old(occurrences.seen) + [semantic]
      ensures Records(config, file, emitted + [Segment(kind, span)], Extended(old(Built()), semantic, node, owner))
    {
      var exact := config.source[span.start..span.end];
      var text, labelTruncated := Labels.CompactText(exact);
      if text == "" { assert false; }
      var identity := config.semantic(kind, ownerId, exact);
      semantic := identity;
      ghost var before := Built();
      var nodeId := occurrences.Next(config.hash, config.prefix, identity);
      node := GraphNode(nodeId, SegmentNode(kind), text, span, factCount, labelTruncated);
      NewNodeFits(config, file, emitted, before, Segment(kind, span), identity, node, owner);
    }

    /** Appends a node with its containment edge and the edge from the segment before it. */
    method AddNode(node: GraphNode, ownerId: string, ghost semantic: string, ghost owner: nat)
      requires owner < |nodes| && ownerId == nodes[owner].id
      requires lastSegmentId == if |nodes| == 1 then None else Some(nodes[|nodes| - 1].id)
      modifies this`nodes, this`edges, this`lastSegmentId, this`factCount
      ensures var g := Extended(Graph(old(nodes), old(edges), []), semantic, node, owner);
        nodes == g.nodes && edges == g.edges
      ensures lastSegmentId == Some(node.id) && factCount == old(factCount) + 1
    {
      nodes := nodes + [node];
      edges := edges + [GraphEdge(ownerId, node.id, Contains)];
      if lastSegmentId.Some? {
        edges := edges + [GraphEdge(lastSegmentId.value, node.id, Precedes)];
      }
      lastSegmentId := Some(node.id);
      factCount := factCount + 1;
    }

    /** Closes the headings that are not above the new one, emits it under the one that remains, and opens it. */
    method EmitHeading(h: HeadingSpan) returns (more: bool)
      requires Valid() && StackValid() && FactLimit !in truncationReasons
      requires h.start < h.end && Tight(config.source, Span(h.start, h.end))
      modifies this, occurrences
      ensures Valid()
      ensures !more <==> |old(emitted)| == MAX_DOCUMENT_FACTS_PER_FILE
      ensures !more ==> truncationReasons == old(truncationReasons) + {FactLimit} && emitted == old(emitted)
      ensures more ==> truncationReasons == old(truncationReasons) && StackValid()
                       && emitted == old(emitted) + [HeadingSegmentOf(h)]
    {
      ghost var before, known := emitted, nodes;
      var ownerId := CloseAbove(h);
      var id :=
        EmitSegment(HeadingSegment(h.level, h.style), Span(h.start, h.end), ownerId,
                    LastBelow(LevelsOf(emitted), h.level));
      if id == None { return false; }
      StackGrows(headingStack, before, h, known, nodes);
      headingStack := headingStack + [(h.level, id.value)];
      more := true;
    }

    /** Closes the headings that are not above the new one and gives the id of the node that will own it. */
    method CloseAbove(h: HeadingSpan) returns (ownerId: string)
      requires Valid() && StackValid() && h.start < h.end
      modifies this`headingStack
      ensures Valid() && Shows(headingStack, Popped(StackOf(LevelsOf(emitted)), h.level), nodes)
      ensures var owner := LastBelow(LevelsOf(emitted), h.level);
        && owner == Owner(LevelsOf(emitted + [HeadingSegmentOf(h)]), |emitted|)
        && owner < |nodes| && ownerId == nodes[owner].id
    {
      headingStack, ownerId := OpenAbove(h);
    }

    method OpenAbove(h: HeadingSpan) returns (rest: seq<(nat, string)>, ownerId: string)
      requires StackValid() && |nodes| > |emitted| && h.start < h.end
      ensures Shows(rest, Popped(StackOf(LevelsOf(emitted)), h.level), nodes)
      ensures var owner := LastBelow(LevelsOf(emitted), h.level);
        && owner == Owner(LevelsOf(emitted + [HeadingSegmentOf(h)]), |emitted|)
        && owner < |nodes| && ownerId == nodes[owner].id
    {
      rest := CloseHeadings(headingStack, h.level, StackOf(LevelsOf(emitted)), nodes);
      ownerId := if rest == [] then nodes[0].id else rest[|rest| - 1].1;
      HeadingOwner(rest, emitted, h, nodes);
    }

    /** One sentence leaves the open headings as they are. */
    method EmitSentence(span: Span, ownerId: string) returns (more: bool)
      requires Valid() && StackValid() && FactLimit !in truncationReasons && Tight(config.source, span)
      requires ownerId == nodes[LastHeading(LevelsOf(emitted))].id
      modifies this`nodes, this`edges, this`lastSegmentId, this`factCount, this`segmentsConsidered,
               this`truncationReasons,
               this`emitted, occurrences
      ensures Valid()
      ensures more <==> |old(emitted)| < MAX_DOCUMENT_FACTS_PER_FILE
      ensures more ==> StackValid() && ownerId == nodes[LastHeading(LevelsOf(emitted))].id
      ensures emitted == old(emitted) + if more then [Segment(SentenceSegment, span)] else []
      ensures truncationReasons == old(truncationReasons) + if more then {} else {FactLimit}
    {
      ghost var before, known := emitted, nodes;
      SentenceOwner(before, span);
      var id := EmitSegment(SentenceSegment, span, ownerId, LastHeading(LevelsOf(emitted)));
      if id.Some? { StackStays(headingStack, before, span, known, nodes); }
      more := id.Some?;
    }

    method EmitAll(spans: seq<Span>, ownerId: string) returns (more: bool)
      requires Valid() && StackValid() && FactLimit !in truncationReasons
      requires forall i :: 0 <= i < |spans| ==> Tight(config.source, spans[i])
      requires ownerId == nodes[LastHeading(LevelsOf(emitted))].id
      modifies this`nodes, this`edges, this`lastSegmentId, this`factCount, this`segmentsConsidered,
               this`truncationReasons,
               this`emitted, occurrences
      ensures Valid()
      ensures emitted == Capped(old(emitted) + AsSentences(spans), MAX_DOCUMENT_FACTS_PER_FILE)
      ensures more <==> |old(emitted)| + |spans| <= MAX_DOCUMENT_FACTS_PER_FILE
      ensures truncationReasons == old(truncationReasons) + if more then {} else {FactLimit}
      ensures more ==> StackValid()
    {
      ghost var first := emitted;
      NoSentence(first, spans);
      for i := 0 to |spans|
        invariant Valid() && StackValid() && truncationReasons == old(truncationReasons)
        invariant emitted == WithSentences(first, spans, i)
        invariant ownerId == nodes[LastHeading(LevelsOf(emitted))].id
      {
        SentencesMore(first, spans, i);
        more := EmitSentence(spans[i], ownerId);
        if !more {
          CappedAt(first, AsSentences(spans), i, MAX_DOCUMENT_FACTS_PER_FILE);
          return;
        }
      }
      more := true;
      SentencesAll(first, spans);
    }

    /** Emits the sentences of a paragraph under the most recent heading, asking for one more than fit. */
    method EmitSentences(p: Span) returns (more: bool)
      requires Valid() && StackValid() && FactLimit !in truncationReasons && Tight(config.source, p)
      modifies this, occurrences
      ensures Valid()
      ensures var all := old(emitted) + Prose(SentenceSplitter(abbreviation, config.source), Some(p));
        && emitted == Capped(all, MAX_DOCUMENT_FACTS_PER_FILE)
        && (more <==> |all| <= MAX_DOCUMENT_FACTS_PER_FILE)
        && truncationReasons == old(truncationReasons) + (if more then {} else {FactLimit})
      ensures more ==> StackValid()
    {
      var ownerId := if headingStack == [] then nodes[0].id else headingStack[|headingStack| - 1].1;
      TopIsOwner(LevelsOf(emitted), 0);
      var spans := SentencesToEmit(p);
      more := EmitAll(spans, ownerId);
    }

    /** The sentences of a paragraph, one more than fit at most; that is as good as all of them. */
    method SentencesToEmit(p: Span) returns (spans: seq<Span>)
      requires factCount == |emitted| <= MAX_DOCUMENT_FACTS_PER_FILE && Tight(config.source, p)
      ensures forall i :: 0 <= i < |spans| ==> Tight(config.source, spans[i])
      ensures var all := emitted + Prose(SentenceSplitter(abbreviation, config.source), Some(p));
        && Capped(emitted + AsSentences(spans), MAX_DOCUMENT_FACTS_PER_FILE) == Capped(all, MAX_DOCUMENT_FACTS_PER_FILE)
        && (|emitted| + |spans| <= MAX_DOCUMENT_FACTS_PER_FILE <==> |all| <= MAX_DOCUMENT_FACTS_PER_FILE)
    {
      var remaining := MAX_DOCUMENT_FACTS_PER_FILE - factCount + 1;
      spans := Sentences.SentenceSpans(abbreviation, config.source, p.start, p.end, remaining);
      EnoughSentences(abbreviation, config.source, p, emitted, spans, MAX_DOCUMENT_FACTS_PER_FILE);
    }

    /** Emits the running paragraph, if there is one. */
    method Flush(paragraph: Option<Span>) returns (more: bool)
      requires Valid() && StackValid() && FactLimit !in truncationReasons
      requires paragraph.Some? ==> Tight(config.source, paragraph.value)
      modifies this, occurrences
      ensures Valid()
      ensures var all := old(emitted) + Prose(SentenceSplitter(abbreviation, config.source), paragraph);
        && emitted == Capped(all, MAX_DOCUMENT_FACTS_PER_FILE)
        && (more <==> |all| <= MAX_DOCUMENT_FACTS_PER_FILE)
        && truncationReasons == old(truncationReasons) + (if more then {} else {FactLimit})
      ensures more ==> StackValid()
    {
      more := true;
      if paragraph.Some? { more := EmitSentences(paragraph.value); }
    }

    /** A line that ends the paragraph: its prose first, then its heading. */
    method EmitBreak(paragraph: Option<Span>, heading: Option<HeadingSpan>) returns (more: bool)
      requires Valid() && StackValid() && FactLimit !in truncationReasons
      requires paragraph.Some? ==> Tight(config.source, paragraph.value)
      requires heading.Some? ==> Tight(config.source, Span(heading.value.start, heading.value.end))
      modifies this, occurrences
      ensures Valid()
      ensures var all := old(emitted) + Broken(SentenceSplitter(abbreviation, config.source), paragraph, heading);
        && emitted == Capped(all, MAX_DOCUMENT_FACTS_PER_FILE)
        && (more <==> |all| <= MAX_DOCUMENT_FACTS_PER_FILE)
        && truncationReasons == old(truncationReasons) + (if more then {} else {FactLimit})
      ensures more ==> StackValid()
    {
      ghost var prose := Prose(SentenceSplitter(abbreviation, config.source), paragraph);
      ghost var first := emitted;
      BrokenIs(first, prose, heading);
      more := Flush(paragraph);
      if !more {
        CappedEarly(first + prose, OwnSegment(heading), MAX_DOCUMENT_FACTS_PER_FILE);
      } else if heading.Some? {
        more := EmitHeading(heading.value);
      }
    }

    /** Line i ends the paragraph: what it gives is emitted, and the rest is left. */
    method BreakAt(ghost lines: seq<Lines.LineSpan>, ghost roles: seq<LineRole>, ghost i: nat,
                   paragraph: Option<Span>, heading: Option<HeadingSpan>, ghost all: seq<Segment>)
      returns (more: bool)
      requires Valid() && StackValid() && FactLimit !in truncationReasons
      requires Roles(config.source, lines, roles) && i < |lines| && Running(config.source, lines, i, paragraph)
      requires !roles[i].TextLine? && roles[i] == if heading.Some? then HeadingLine(heading.value) else BreakLine
      requires all == emitted + SegmentsFrom(SentenceSplitter(abbreviation, config.source), roles, i, paragraph)
      modifies this, occurrences
      ensures Valid()
      ensures more ==>
        && StackValid() && truncationReasons == old(truncationReasons)
        && all == emitted + SegmentsFrom(SentenceSplitter(abbreviation, config.source), roles, i + 1, None)
      ensures !more ==>
        && |all| > MAX_DOCUMENT_FACTS_PER_FILE && emitted == Capped(all, MAX_DOCUMENT_FACTS_PER_FILE)
        && truncationReasons == old(truncationReasons) + {FactLimit}
    {
      ghost var splitter := SentenceSplitter(abbreviation, config.source);
      BreakStep(config.source, splitter, lines, roles, i, paragraph, emitted, heading);
      ghost var first := emitted + Broken(splitter, paragraph, heading);
      more := EmitBreak(paragraph, heading);
      if !more { CappedEarly(first, SegmentsFrom(splitter, roles, i + 1, None), MAX_DOCUMENT_FACTS_PER_FILE); }
    }

    /** The segments of all lines, in order, up to the cap; the fact limit is a reason exactly when there are more. */
    method ExtractLines(lines: seq<Lines.LineSpan>, headings: seq<Option<HeadingSpan>>, ghost roles: seq<LineRole>)
      requires Valid() && StackValid() && FactLimit !in truncationReasons && emitted == []
      requires Roles(config.source, lines, roles) && |headings| == |lines|
      requires forall i :: 0 <= i < |lines| ==> roles[i] == RoleOf(config.source, lines[i], headings[i])
      modifies this, occurrences
      ensures Valid()
      ensures var all := SegmentsFrom(SentenceSplitter(abbreviation, config.source), roles, 0, None);
        && emitted == Capped(all, MAX_DOCUMENT_FACTS_PER_FILE)
        && truncationReasons == old(truncationReasons)
             + (if |all| > MAX_DOCUMENT_FACTS_PER_FILE then {FactLimit} else {})
    {
      ghost var splitter := SentenceSplitter(abbreviation, config.source);
      ghost var all := SegmentsFrom(splitter, roles, 0, None);
      var paragraph: Option<Span> := None;
      NothingYet(all, emitted);
      for i := 0 to |lines|
        invariant Valid() && StackValid() && truncationReasons == old(truncationReasons)
        invariant Running(config.source, lines, i, paragraph)
        invariant all == emitted + SegmentsFrom(splitter, roles, i, paragraph)
      {
        var heading := headings[i];
        var text := if heading.Some? || lines[i].excluded then None
                    else TrimmedSpan(config.source, lines[i].start, lines[i].end);
        if text.Some? {
          TextStep(config.source, splitter, lines, roles, i, paragraph);
          paragraph := Some(if paragraph.Some? then Span(paragraph.value.start, text.value.end) else text.value);
        } else {
          var more := BreakAt(lines, roles, i, paragraph, heading, all);
          if !more { return; }
          paragraph := None;
        }
      }
      var more := Flush(paragraph);
    }
  }

  ghost function OwnSegment(heading: Option<HeadingSpan>): seq<Segment>
    requires heading.Some? ==> heading.value.start < heading.value.end
  {
    if heading.Some? then [HeadingSegmentOf(heading.value)] else []
  }

  /** What a line that ends the paragraph gives. */
  ghost function Broken(splitter: Splitter, paragraph: Option<Span>, heading: Option<HeadingSpan>): seq<Segment>
    requires heading.Some? ==> heading.value.start < heading.value.end
  {
    Prose(splitter, paragraph) + OwnSegment(heading)
  }

  lemma BrokenIs(first: seq<Segment>, prose: seq<Segment>, heading: Option<HeadingSpan>)
    requires heading.Some? ==> heading.value.start < heading.value.end
    ensures first + (prose + OwnSegment(heading)) == first + prose + OwnSegment(heading)
  {
  }

  lemma NothingYet(all: seq<Segment>, emitted: seq<Segment>)
    requires emitted == []
    ensures all == emitted + all
  {
  }

  /** What comes after the cap is passed makes no difference. */
  lemma CappedEarly(first: seq<Segment>, rest: seq<Segment>, cap: nat)
    requires |first| > cap
    ensures Capped(first + rest, cap) == Capped(first, cap) && |first + rest| > cap
  {
  }

  /** A text line only extends the paragraph. */
  lemma TextStep(source: string, splitter: Splitter, lines: seq<Lines.LineSpan>, roles: seq<LineRole>, i: nat,
                 paragraph: Option<Span>)
    requires Roles(source, lines, roles) && i < |lines| && Running(source, lines, i, paragraph) && roles[i].TextLine?
    ensures var joined := Some(Joined(paragraph, roles[i].text));
      && Running(source, lines, i + 1, joined)
      && SegmentsFrom(splitter, roles, i, paragraph) == SegmentsFrom(splitter, roles, i + 1, joined)
  {
    RunningOn(source, lines, roles, i, paragraph);
  }

  /** Any other line emits the paragraph and its own heading, and leaves no paragraph. */
  lemma BreakStep(source: string, splitter: Splitter, lines: seq<Lines.LineSpan>, roles: seq<LineRole>, i: nat,
                  paragraph: Option<Span>, emitted: seq<Segment>, heading: Option<HeadingSpan>)
    requires Roles(source, lines, roles) && i < |lines| && Running(source, lines, i, paragraph) && !roles[i].TextLine?
    requires roles[i] == if heading.Some? then HeadingLine(heading.value) else BreakLine
    ensures paragraph.Some? ==> Tight(source, paragraph.value)
    ensures heading.Some? ==> Tight(source, Span(heading.value.start, heading.value.end))
    ensures emitted + SegmentsFrom(splitter, roles, i, paragraph)
      == emitted + Broken(splitter, paragraph, heading) + SegmentsFrom(splitter, roles, i + 1, None)
  {
    assert DocumentSegments.Fits(source, lines[i], roles[i]);
    BrokenIs(emitted, Prose(splitter, paragraph), heading);
    Seqs.Regroup(emitted, Prose(splitter, paragraph), OwnHeading(roles[i]), SegmentsFrom(splitter, roles, i + 1, None));
  }

  lemma NewNodeFits(c: Config, file: GraphNode, segments: seq<Segment>, g: Graph, s: Segment, semantic: string,
                    node: GraphNode, owner: nat)
    requires Records(c, file, segments, g) && Tight(c.source, s.span)
    requires owner == Owner(LevelsOf(segments + [s]), |segments|)
    requires var text := c.source[s.span.start..s.span.end];
      && semantic == c.semantic(s.kind, g.nodes[owner].id, text)
      && Labels.LabelOf(text, node.text, node.labelTruncated) && node.text != ""
    requires node.id == Occurrences.NumberedId(c.hash, c.prefix, g.seen + [semantic], |segments|)
    requires node.kind == SegmentNode(s.kind) && node.span == s.span && node.documentOrder == |segments|
    ensures Records(c, file, segments + [s], Extended(g, semantic, node, owner))
  {
    assert NodeFits(c, segments + [s], Extended(g, semantic, node, owner), |segments|);
    RecordsExtended(c, file, segments, g, s, semantic, node);
  }

  ghost function WithSentences(first: seq<Segment>, spans: seq<Span>, i: nat): seq<Segment>
    requires i <= |spans|
  {
    first + AsSentences(spans)[..i]
  }

  lemma NoSentence(first: seq<Segment>, spans: seq<Span>)
    ensures WithSentences(first, spans, 0) == first
  {
  }

  lemma SentencesMore(first: seq<Segment>, spans: seq<Span>, i: nat)
    requires i < |spans|
    ensures WithSentences(first, spans, i) + [Segment(SentenceSegment, spans[i])] == WithSentences(first, spans, i + 1)
    ensures |WithSentences(first, spans, i)| == |first| + i
  {
  }

  lemma SentencesAll(first: seq<Segment>, spans: seq<Span>)
    ensures WithSentences(first, spans, |spans|) == first + AsSentences(spans)
  {
    Seqs.TakeAll(AsSentences(spans));
  }

  /** At the cap what was emitted is the capped list. */
  lemma CappedAt(first: seq<Segment>, all: seq<Segment>, i: nat, cap: nat)
    requires i < |all| && |first| + i == cap
    ensures first + all[..i] == Capped(first + all, cap)
  {
  }

  lemma AllTight(abbreviation: Sentences.Abbreviation, source: string, p: Span)
    requires Tight(source, p)
    ensures forall i :: 0 <= i < |Sentences.Sentences(abbreviation, source, p.start, p.end)| ==>
      Tight(source, Sentences.Sentences(abbreviation, source, p.start, p.end)[i])
  {
    Sentences.SentencesSplit(abbreviation, source, p.start, p.end);
  }

  /** One sentence more than fits is enough to know that the cap is passed. */
  lemma CappedTwice(first: seq<Segment>, all: seq<Span>, cap: nat)
    requires |first| <= cap
    ensures var few := Capped(all, cap - |first| + 1);
      && Capped(first + AsSentences(few), cap) == Capped(first + AsSentences(all), cap)
      && (|first| + |few| <= cap <==> |first| + |all| <= cap)
  {
    var few := Capped(all, cap - |first| + 1);
    if |few| < |all| {
      assert AsSentences(few) == AsSentences(all)[..|few|];
      assert (first + AsSentences(few))[..cap] == (first + AsSentences(all))[..cap];
    }
  }

  lemma EnoughSentences(abbreviation: Sentences.Abbreviation, source: string, p: Span, first: seq<Segment>,
                        spans: seq<Span>, cap: nat)
    requires Tight(source, p) && |first| <= cap
    requires spans == Capped(Sentences.Sentences(abbreviation, source, p.start, p.end), cap - |first| + 1)
    ensures forall i :: 0 <= i < |spans| ==> Tight(source, spans[i])
    ensures var all := first + Prose(SentenceSplitter(abbreviation, source), Some(p));
      && Capped(first + AsSentences(spans), cap) == Capped(all, cap)
      && (|first| + |spans| <= cap <==> |all| <= cap)
  {
    AllTight(abbreviation, source, p);
    CappedTwice(first, Sentences.Sentences(abbreviation, source, p.start, p.end), cap);
  }

  /** Drops the headings whose level is not below the new one. */
  method CloseHeadings(stack: seq<(nat, string)>, level: nat, ghost open: seq<Open>, ghost nodes: seq<GraphNode>)
    returns (rest: seq<(nat, string)>)
    requires Shows(stack, open, nodes)
    ensures Shows(rest, Popped(open, level), nodes)
  {
    rest := stack;
    ghost var left := open;
    while rest != [] && rest[|rest| - 1].0 >= level
      invariant Shows(rest, left, nodes) && Popped(left, level) == Popped(open, level)
      decreases |rest|
    {
      rest, left := rest[..|rest| - 1], left[..|left| - 1];
    }
  }

  /** The top of the stack, after closing, is the owner of a new heading. */
  lemma HeadingOwner(stack: seq<(nat, string)>, segments: seq<Segment>, h: HeadingSpan, nodes: seq<GraphNode>)
    requires Shows(stack, Popped(StackOf(LevelsOf(segments)), h.level), nodes) && |nodes| > |segments|
    requires h.start < h.end
    ensures var owner := LastBelow(LevelsOf(segments), h.level);
      && owner == Owner(LevelsOf(segments + [HeadingSegmentOf(h)]), |segments|)
      && nodes[owner].id == if stack == [] then nodes[0].id else stack[|stack| - 1].1
  {
    TopIsOwner(LevelsOf(segments), h.level);
    AppendedLevel(segments, HeadingSegmentOf(h));
  }

  /** Opening the new heading gives the stack of the longer list. */
  lemma StackGrows(stack: seq<(nat, string)>, segments: seq<Segment>, h: HeadingSpan, nodes: seq<GraphNode>,
                   more: seq<GraphNode>)
    requires Shows(stack, Popped(StackOf(LevelsOf(segments)), h.level), nodes)
    requires h.start < h.end && |nodes| == |segments| + 1 && |more| == |nodes| + 1 && nodes <= more
    ensures Shows(stack + [(h.level, more[|nodes|].id)], StackOf(LevelsOf(segments + [HeadingSegmentOf(h)])), more)
  {
    var levels := LevelsOf(segments + [HeadingSegmentOf(h)]);
    AppendedLevel(segments, HeadingSegmentOf(h));
    assert levels[..|segments|] == LevelsOf(segments) && levels[|segments|] == Some(h.level);
    assert StackOf(levels) == Popped(StackOf(LevelsOf(segments)), h.level) + [Open(h.level, |nodes|)];
  }

  lemma SentenceOwner(segments: seq<Segment>, span: Span)
    ensures var levels := LevelsOf(segments + [Segment(SentenceSegment, span)]);
      && Owner(levels, |segments|) == LastHeading(LevelsOf(segments)) == LastHeading(levels)
      && StackOf(levels) == StackOf(LevelsOf(segments))
  {
    AppendedLevel(segments, Segment(SentenceSegment, span));
  }

  /** A sentence leaves the stack, and the owner of the next sentence, as they are. */
  lemma StackStays(stack: seq<(nat, string)>, segments: seq<Segment>, span: Span, nodes: seq<GraphNode>,
                   more: seq<GraphNode>)
    requires Shows(stack, StackOf(LevelsOf(segments)), nodes) && |nodes| == |segments| + 1 && nodes <= more
    ensures var levels := LevelsOf(segments + [Segment(SentenceSegment, span)]);
      && Shows(stack, StackOf(levels), more)
      && LastHeading(levels) < |nodes|
      && more[LastHeading(levels)].id == nodes[LastHeading(LevelsOf(segments))].id
  {
    SentenceOwner(segments, span);
  }

  lemma AppendedLevel(segments: seq<Segment>, s: Segment)
    ensures LevelsOf(segments + [s]) == LevelsOf(segments) + [LevelOf(s)]
    ensures LevelsOf(segments + [s])[..|segments|] == LevelsOf(segments)
  {
  }
}
