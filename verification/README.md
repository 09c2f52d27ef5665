# Verified models of the IDE's algorithms and protocols

A Dafny project that models the parts of the IDE where a mistake is hard to see: the structural communities of a graph
snapshot, the document and source extractors, the cooperative debug adapter, the racing graph requests of the renderer,
and a few small cores. Everything is stated for all inputs, all runs or all reachable states.
`dafny verify dfyconfig.toml` checks it.

## How the project is built

- **Communities.** `Sweeps` is the theory of rounds that visit nodes in a fixed order and lower a measure; `Grouping`
  the loops over maps; `LabelPropagation` the vote, its energy and its fixed points; `Communities` the snapshot, the
  partition and what it depends on. `Lex` is the order of Rust strings and `ByteOrder` that of their bytes.
- **Identifiers.** `Utf8`, `StableId` (length-prefixed encoding before hashing) and `Occurrences` (numbered
  repetitions).
- **Documents.** `Lines`, `Fences`, `Headings`, `Sentences` and `Labels` are the pieces; `DocumentSegments` is the full
  segment list and where it lies in the source; `Paragraphs` is the same list line by line; `HeadingStack` and
  `DocumentGraph` are owners, tree and chain; `DocumentExtractor` is the capped emitter and `DocumentExtraction` the
  whole of it. `LineIndex` compares the two ways of finding line and column.
- **Source files.** `TreeWalk` is recursion against an explicit stack on any tree; `PartialWalk` what a stack reaches
  when some children are never scheduled; `AstFacts` what a node adds; `AstPlaces` what belongs where, by paths;
  `AstProgress` a run between two visits; `AstExtraction` the budgets and reasons; `AstIdentity` the ids;
  `IdentifierSearch` the bounded search for a name.
- **Debug protocol.** `DebugProtocol` has the machine of atomic steps, the invariant, what logs say, and the script as a
  class.
- **Graph requests.** `InsertionOrder` is JavaScript's `Map`; `Places` choosing from a list; `ExecutionFlow` pages and
  merging; `FlowContents` exactly what these keep; `WorkspaceGraphs` the hook; `RequestLine` one kind of numbered
  request with its loading flag; `WorkspaceRuns` every interleaving of the hook.
- **Small cores.** `Normalizer`, `RuntimeEvents`, `RuntimeProjection`, `RunLifecycle`, `EventBatch`, `Porcelain`.

Code that changes state step by step is a class or a method with loops, proved against a specification function; what is
promised about that function is proved as lemmas. Transitions of the two protocols are functions shared by the class and
by the machine that interleaves them.
No proof uses automatic induction; `{:induction false}` stands where it could otherwise take the place of a lemma's body.

## Assumptions

- Hashing is a function parameter; statements that need it take it to be free of collisions, including the cut of the
  digest to 32 hexadecimal digits.
- Strings are sequences of Unicode scalar values; sizes are in UTF-8 bytes where the code counts bytes. Spans in
  documents are character positions; `LineIndex` relates bytes and characters.
- Numbers that the code adds with saturation are unbounded; the lengths that are hashed are taken to fit 64 bits.
- Which words are abbreviations, which syntax is a definition, import or call and what it is called, how URLs and routes
  are read and how text compares in a locale are parameters.
- Each workflow of the debug adapter awaits its safe points one at a time, as the fixture does.
- Each callback of the renderer sees the last committed state.

## Where the code differs from what one may expect

- Paging does not stop at ten pages when a page has no cursor field: the spread keeps the old cursor, and the page limit
  looks at the page's own. `ExecutionFlow.PagingGoesOn` gives the exact condition and `PagingWithoutEnd` the runs.
- The loading flag of a flow or a search can stay set although no reply is awaited. The reply to the last request leaves
  it set if and only if the workspace was left since that request was started (`WorkspaceRuns.SwitchStrandsLoading`),
  and it then stays set until new graphs or a new request of the same kind (`StrandedMove`, `StrandedForGood`); no
  further page can be asked for meanwhile. Changing the workspace counts as leaving it before the dialog is answered
  (`src/features/onboarding/workspaceMutation.ts:35-42`), so a cancelled dialog is enough (`StrandedRun`).
- A run that has ended can become active when its start reply comes late: if and only if 200 runs were added to the
  memory after it, or a workspace was adopted (`RunLifecycle.LateStartIsActive`).
- The routes of a definition are not held against the limit of 5,000 facts of a source file: a file ends above it if and
  only if the node visited last is a function or method, and the facts of the nodes visited before, one more and its
  routes exceed the limit (`AstExtraction.FactsBounded` and `RoutesPassLimit`, in what `Extractor.Extract` ensures).
  `RoutesPassInSilence` gives such files; no limit is recorded for them.
- Names of definitions are joined by `::` from the outermost on, except that a definition called `file` counts as no
  scope: what is defined directly in an outermost one is named as if it stood in the file (`AstPlaces.QualifiedIsJoined`
  gives the exact condition). The ids still differ by owner.
- Fences follow section 4.5 of CommonMark 0.31.2 in opening, closing and running to the end, but an info string after
  backticks may hold backticks, and any ASCII white space may follow a closing fence. The model follows the code.
  `Fences.OpeningAgainstCommonMark` and `ClosingAgainstCommonMark` say exactly which lines differ, and
  `InfoStringWithBacktick` and `FormFeedAfterFence` give such lines; without them documents agree
  (`FencedAsCommonMark`). Lines here are as the code splits them: they end at a newline and leave out one carriage
  return before it. In CommonMark a carriage return alone ends a line too; here it is white space on its line.

## Model

| member | source | states |
|---|---|---|
| Communities.BuildAdjacency | src-tauri/src/graph_algorithms/communities.rs:86-109 | the adjacency has exactly the distinct node ids as keys, and two ids are adjacent when some edge, in either direction, joins them; self-loops and edges with an unknown end add nothing |
| Communities.AdjacentUndirected | src-tauri/src/graph_algorithms/communities.rs:99-106 | adjacency is symmetric, without self-loops, and closed over the nodes, for any list of edges |
| LabelPropagation.Tally | src-tauri/src/graph_algorithms/communities.rs:24-32 | each neighbour's label receives the sum of the structural weights of the neighbours that carry it, and no other label has an entry |
| LabelPropagation.BestEntry | src-tauri/src/graph_algorithms/communities.rs:33-40 | the entry chosen has the highest score and, among equals, the smallest label |
| LabelPropagation.Elect | src-tauri/src/graph_algorithms/communities.rs:24-40 | the label elected for a node is the winner among its neighbours' labels |
| LabelPropagation.WinnerUnique | src-tauri/src/graph_algorithms/communities.rs:33-40 | the tie-break leaves one winner |
| LabelPropagation.ChangeRaisesAgreement | src-tauri/src/graph_algorithms/communities.rs:20-46 | every change of a label strictly raises the agreement energy, or keeps it and takes a smaller label |
| LabelPropagation.VisitLowers | src-tauri/src/graph_algorithms/communities.rs:20-46 | so each visit leaves the labels alone or lowers a well-founded measure |
| LabelPropagation.RunRound | src-tauri/src/graph_algorithms/communities.rs:19-47 | one round over the nodes in ascending order is the round of the specification, and it reports a change exactly when the labels differ afterwards |
| LabelPropagation.StableIffAllHoldWinners | src-tauri/src/graph_algorithms/communities.rs:48-50 | labels are a fixed point exactly when every node with neighbours holds its winning label |
| LabelPropagation.PropagationSettles | src-tauri/src/graph_algorithms/communities.rs:18-51 | without the cap propagation ends in a fixed point after some number of rounds; a capped run has reached it exactly when all nodes hold their winners |
| LabelPropagation.Propagate | src-tauri/src/graph_algorithms/communities.rs:12-51 | the method with its early exit gives the labels after at most 64 rounds |
| Communities.WeightCountsCommonLinks | src-tauri/src/graph_algorithms/communities.rs:111-123 | the weight of a link between two nodes is one more than the number of nodes linked with both |
| ByteOrder.LessIsByteOrder | src-tauri/src/graph_algorithms/communities.rs:33-40 | the order by code points in which labels and paths are compared is the order of their UTF-8 bytes |
| Communities.Assign | src-tauri/src/graph_algorithms/communities.rs:53-66 | each node is assigned the id made from the ascending members of its community, and the size of that community |
| Communities.GraphSnapshot.AnnotateStructuralCommunities | src-tauri/src/graph_algorithms/communities.rs:11-84 | every node of the snapshot, in its place, gets its community's id and size and whether the snapshot is complete; ids, kinds and other metadata stay |
| Communities.CommunitiesPartition | src-tauri/src/graph_algorithms/communities.rs:53-66 | every node is in its own community, communities are equal or disjoint, and their sizes add up to the number of nodes |
| Communities.CommunityIdsTellCommunities | src-tauri/src/graph_algorithms/communities.rs:58-65 | with a collision-free hash two nodes carry the same community id exactly when they are in one community |
| Communities.CommunityInsideComponent | src-tauri/src/graph_algorithms/communities.rs:18-66 | after any number of rounds nodes of one community are connected, and a node without neighbours is alone |
| Communities.AssignmentDependsOnLinksOnly | src-tauri/src/graph_algorithms/communities.rs:86-109 | the labels depend on the set of ids and the set of undirected links only: not on order, repetition, direction, self-loops or dangling edges |
| Utf8.RoundTrip | src-tauri/src/analyzer/ids.rs:5-9 | decoding inverts UTF-8 encoding |
| Utf8.DecodedIsEncoded | src-tauri/src/git/status.rs:115-117 | nothing but the encoding of a string decodes |
| StableId.MakeId | src-tauri/src/analyzer/ids.rs:3-11 | feeding the prefix and each part after its length gives the id of the specification |
| StableId.PreimageInjective | src-tauri/src/analyzer/ids.rs:5-9 | for one prefix, two lists of parts, of any lengths, are encoded alike exactly when they are equal |
| StableId.IdInjective | src-tauri/src/analyzer/ids.rs:3-11 | with a collision-free hash, ids whose prefixes hold no colon are equal exactly when prefix and parts are |
| StableId.DecimalReads | src-tauri/src/analyzer/ids.rs:38-40 | decimal ordinals, read back, are the number, without leading zeros |
| StableId.LengthBytesRead | src-tauri/src/analyzer/ids.rs:7-7 | a part's length goes into the hasher as eight bytes, least significant first |
| StableId.DecimalInjective | src-tauri/src/analyzer/ids.rs:38-40 | decimal ordinals are different for different numbers |
| Occurrences.Counter.Next | src-tauri/src/analyzer/ids.rs:37-40 | the k-th use of a semantic identity receives the id made from it and the number of its earlier uses |
| Occurrences.NumberedDistinct | src-tauri/src/analyzer/ids.rs:24-41 | however often identities repeat, all numbered ids are different under a collision-free hash |
| Lines.LineSpans | src-tauri/src/analyzer/document_structure.rs:54-86 | the first 250,000 lines are returned and truncation is reported exactly when there are more |
| Lines.LinesCover | src-tauri/src/analyzer/document_structure.rs:54-86 | lines follow one another without overlap and every character that is not white space is on one of them |
| Lines.LinesTile | src-tauri/src/analyzer/document_structure.rs:54-86 | lines leave nothing out: each begins right behind the newline of the one before it, empty lines included, and stops before its newline and one carriage return in front of that |
| Fences.MarkMarkdownFences | src-tauri/src/analyzer/document_structure.rs:97-113 | a line is excluded exactly when it was before or lies in a fenced block: from an opening fence to the first later fence of the same marker, at least as long, with only white space after it, or to the end |
| Fences.OpeningAgainstCommonMark | src-tauri/src/analyzer/document_structure.rs:115-136 | a line counts as a fence exactly when it has a run of at least three backticks or tildes after at most three spaces; it is an opening fence of CommonMark unless a backtick follows a run of backticks |
| Fences.ClosingAgainstCommonMark | src-tauri/src/analyzer/document_structure.rs:101-107 | a line that closes a block is a closing fence of CommonMark exactly when only spaces and tabs follow the run |
| Fences.InfoStringWithBacktick | src-tauri/src/analyzer/document_structure.rs:115-136 | a line that opens a block in the code and not in CommonMark: backticks with another backtick after them |
| Fences.FormFeedAfterFence | src-tauri/src/analyzer/document_structure.rs:101-107 | a line that closes a block in the code and not in CommonMark: a fence with a form feed after it |
| Fences.FencedAsCommonMark | src-tauri/src/analyzer/document_structure.rs:97-136 | in a document none of whose lines has either feature, the fenced lines are exactly those of the blocks that CommonMark's opening and closing fences make |
| Fences.OnlyOneOpen | src-tauri/src/analyzer/document_structure.rs:97-113 | two different opening fences are never open at the same line |
| Fences.MarkAsciiDocFences | src-tauri/src/analyzer/document_structure.rs:138-163 | a line is excluded exactly when it was before, announces a source block, or lies in a block so announced and delimited |
| Fences.SourceAttributeMeaning | src-tauri/src/analyzer/document_structure.rs:138-163 | a line announces a source block exactly when it is [source, anything and ] without surrounding white space |
| Headings.DirectHeadings | src-tauri/src/analyzer/document_structure.rs:170-179 | lines not excluded get the heading that they make by themselves, the others none |
| Headings.DirectHeadingMeaning | src-tauri/src/analyzer/document_structure.rs:219-265 | a line makes a heading by itself if and only if its first visible characters are one to six marks, with white space or nothing after them and in Markdown at most three bytes before them, and some text follows; the heading is that text without white space around it and, in Markdown, without hashes behind white space at its end |
| Headings.UnderlineMeaning | src-tauri/src/analyzer/document_structure.rs:267-289 | a line is an underline of a level if and only if it holds three or more of one mark, with white space around it at most, and the mark stands for that level in the format |
| Headings.HeadingMeaning | src-tauri/src/analyzer/document_structure.rs:165-217 | a line's heading is the one it makes by itself; else, when it is no underline and not fenced, the text of the line with the level of an underline directly below it; else none |
| Headings.DetectHeadings | src-tauri/src/analyzer/document_structure.rs:165-217 | each line's heading is its own, else the one that an underline directly below makes of it; exactly fenced lines and underlines end up excluded; spans stay |
| Headings.HeadingOnVisibleLine | src-tauri/src/analyzer/document_structure.rs:165-265 | a heading is a non-empty tight span on its own line, which is neither fenced nor an underline |
| Sentences.SentenceSpans | src-tauri/src/analyzer/document.rs:300-342 | the spans are the first `maximum` of the full sentence list |
| Sentences.SentencesAreParts | src-tauri/src/analyzer/document.rs:300-342 | sentences are what lies between the ends of sentences: an end is a full stop that ends no abbreviation, a question or an exclamation mark, with the closing quotes and brackets after it, before white space or the end; each part stops at its first end, and what is left stops at none |
| Sentences.SentencesSplit | src-tauri/src/analyzer/document.rs:300-342 | sentences of a paragraph are tight, in order, disjoint, inside it, and hold each of its characters that are not white space |
| Labels.WordsWoven | src-tauri/src/analyzer/document.rs:366-390 | the words of a text are its runs of characters that are not white: the text is these words with white space between any two of them |
| Labels.OneLabel | src-tauri/src/analyzer/document.rs:366-390 | what is said of a label leaves one label for each text |
| Labels.CompactText | src-tauri/src/analyzer/document.rs:366-390 | the label is the text with white space collapsed, cut to the longest beginning of at most 240 bytes and marked, exactly when that is needed; it is not empty for text that begins with a visible character |
| DocumentSegments.SentenceSplitterSplits | src-tauri/src/analyzer/document.rs:165-183 | splitting any tight paragraph leaves no visible character out |
| Paragraphs.DocumentIsItsPieces | src-tauri/src/analyzer/document.rs:92-136 | the segments of a document are, line by line, its headings and the sentences of its paragraphs; a paragraph is a longest run of text lines, from its first visible character to its last, and blank, fenced, underline and heading lines are what ends one |
| DocumentSegments.DocumentInOrder | src-tauri/src/analyzer/document.rs:92-136 | segments are non-empty, tight, in source order and disjoint |
| DocumentSegments.DocumentRespectsLine | src-tauri/src/analyzer/document.rs:92-136 | no segment touches a fenced or underline line, and only its heading touches a heading line |
| DocumentSegments.DocumentHoldsText | src-tauri/src/analyzer/document.rs:92-136 | every visible character of a line that is neither passed over nor a heading lies in exactly one sentence |
| HeadingStack.StackIncreasing | src-tauri/src/analyzer/document.rs:139-163 | levels on the heading stack are strictly increasing |
| HeadingStack.TopIsOwner | src-tauri/src/analyzer/document.rs:141-151 | the top of the stack is the most recent heading, and after popping the most recent one of smaller level |
| HeadingStack.LastBelowMeaning | src-tauri/src/analyzer/document.rs:141-151 | the owner of a heading is a heading of smaller level with no such heading between; none means the file |
| HeadingStack.LastHeadingMeaning | src-tauri/src/analyzer/document.rs:165-169 | the owner of a sentence is the nearest heading before it; none means the file |
| HeadingStack.EveryoneUnderTheFile | src-tauri/src/analyzer/document.rs:139-247 | following owners leads from every segment to the file |
| DocumentGraph.TreeAndChain | src-tauri/src/analyzer/document.rs:236-244 | the `contains` edges are one for each segment, from its owner, and the `precedes` edges one chain through all segments in order |
| DocumentGraph.EdgeCount | src-tauri/src/analyzer/document.rs:236-244 | n segments have 2n - 1 edges |
| DocumentGraph.SegmentIdsDistinct | src-tauri/src/analyzer/document.rs:203-218 | all segments have different ids under a collision-free hash |
| DocumentGraph.NodeIdsDistinct | src-tauri/src/analyzer/document.rs:203-218 | so have the file and the segments, as the file's id has a prefix of its own |
| DocumentGraph.IdsMakeTree | src-tauri/src/analyzer/document.rs:236-244 | with different ids, each segment's id is the target of exactly one containment edge, the file's of none, and from every id the edges lead up to the file's |
| DocumentExtraction.DocumentIsTree | src-tauri/src/analyzer/document.rs:203-244 | so the graph of every document is, on its ids, a tree under the file |
| DocumentExtractor.Extractor.EmitSegment | src-tauri/src/analyzer/document.rs:185-247 | below the limit the graph records one segment more; at the limit nothing changes but the recorded reason |
| DocumentExtractor.Extractor.EmitHeading | src-tauri/src/analyzer/document.rs:139-163 | a heading is emitted under the heading that its level leaves open, and opened |
| DocumentExtractor.Extractor.EmitSentences | src-tauri/src/analyzer/document.rs:165-183 | what is emitted is the capped list of the paragraph's sentences, and the limit is recorded exactly when there are more, although only one more than fits is asked for |
| DocumentExtractor.Extractor.ExtractLines | src-tauri/src/analyzer/document.rs:92-136 | the emitted segments are the first 5,000 of the full list and the fact limit is recorded exactly when the list is longer |
| DocumentExtraction.ExtractDocument | src-tauri/src/analyzer/document.rs:21-62 | for a whole source: the emitted segments are the first 5,000 of the full list on the first 250,000 lines, each limit is a reason exactly when it cuts something off, and the graph records exactly those segments |
| DocumentExtraction.NothingVisibleIsLost | src-tauri/src/analyzer/document.rs:83-137 | in a source of at most 250,000 lines every visible character is on a passed-over line, on a heading line, or in exactly one sentence |
| DocumentExtraction.SemanticIdentity | src-tauri/src/analyzer/document.rs:203-214 | segments share a semantic identity exactly when they are of the same document, both headings or both sentences, and owner and exact text agree |
| LineIndex.PartitionPoint | src-tauri/src/analyzer/document.rs:404-404 | in an ascending index, everything before the point is at most the offset and everything after is larger |
| LineIndex.IndexAgreesWithScan | src-tauri/src/analyzer/openapi.rs:359-376 | the binary search and the scan of the prefix give the same line and column at every offset, also where both panic |
| LineIndex.PlaceOfCharacter | src-tauri/src/analyzer/document.rs:392-408 | at a character both give the line and UTF-16 column that reading the source character by character gives |
| LineIndex.OnlyCharactersHavePlaces | src-tauri/src/analyzer/document.rs:403-408 | an offset has a place exactly when it is between characters; elsewhere the slice panics |
| LineIndex.UnitsOfBytes | src-tauri/src/analyzer/document.rs:406-406 | a character takes two UTF-16 units exactly when it takes four UTF-8 bytes |
| LineIndex.IndexIsInjective | src-tauri/src/analyzer/document.rs:403-408 | places grow strictly with the offset, so different characters have different places |
| TreeWalk.WalkPushed | src-tauri/src/analyzer/extract.rs:283-297 | pushing the children in reverse and going on with the stack is walking the children and then the rest, for any visit |
| TreeWalk.AllPathsAreNodes | src-tauri/src/analyzer/extract.rs:283-297 | the preorder of a tree lists each of its nodes once, in reading order, and nothing else |
| TreeWalk.OrderedStep | src-tauri/src/analyzer/extract.rs:160-299 | visiting the top of the stack and pushing any first part of its children keeps visits in reading order and everything waiting behind them |
| AstFacts.SoundEmitted | src-tauri/src/analyzer/extract.rs:190-261 | every visit keeps: one node more than facts, edges only between nodes that are there, definitions and static events numbered in turn |
| AstFacts.SymbolIdsDistinct | src-tauri/src/analyzer/extract.rs:414-444 | all definitions of a file have different ids under a collision-free hash, however often names and signatures repeat |
| AstFacts.EventIdsDistinct | src-tauri/src/analyzer/ids.rs:24-41 | so have all static events |
| AstPlaces.EncloserMeaning | src-tauri/src/analyzer/extract.rs:192-238 | the definition that a node is under is the one at the longest proper beginning of its path that leads to a definition |
| AstPlaces.QualifiedIs | src-tauri/src/analyzer/extract.rs:196-200 | the scope handed down is the qualified name of the definitions around |
| AstPlaces.QualifiedIsJoined | src-tauri/src/analyzer/extract.rs:196-200 | a qualified name is the names of the enclosing definitions and its own, joined by `::`, if and only if nothing is enclosed by an outermost definition called `file` |
| AstPlaces.EveryDefinition | src-tauri/src/analyzer/extract.rs:190-238 | every visited definition has its node, its containment edge from the enclosing definition or the file, and an id numbered from its kind, qualified name, signature and that owner |
| AstPlaces.EveryCall | src-tauri/src/analyzer/extract.rs:303-385 | every visited call with a name has its target and an edge to it from the enclosing definition or the file; an event's id is numbered from that owner, any other id is made from it and the place |
| AstExtraction.Extractor.ExtractDefinition | src-tauri/src/analyzer/extract.rs:190-237 | a definition adds its node under its owner with a numbered id, its routes if it is a function or method, and becomes the owner of its children |
| AstExtraction.Extractor.ExtractCall | src-tauri/src/analyzer/extract.rs:303-385 | a named call adds its node and edge, and its handler exactly when two facts still fit; a handler that does not fit is a reason |
| AstExtraction.Extractor.VisitNode | src-tauri/src/analyzer/extract.rs:190-265 | what a node adds, the owner of its children, and the reasons it gives |
| AstExtraction.Extractor.Budget | src-tauri/src/analyzer/extract.rs:267-285 | as many children are scheduled as visits, depth and facts allow, and the reason is given when it is not all of them |
| AstExtraction.Extractor.Extract | src-tauri/src/analyzer/extract.rs:159-301 | visits are nodes of the tree, in preorder, none without its parent and its earlier siblings, at least one, at most 250,000 and at most 512 deep, with both guards at the loop top proved unreachable; nodes, edges and identities are exactly, and in order, what the visited nodes give by their places in the tree; every visit but the last leaves facts below 5,000, and they end above it if and only if the node visited last is a function or method whose routes lead past it; no limit is recorded if and only if the result is that of the recursive extraction without limits, and if and only if all nodes are visited and all their facts added; a recorded limit was met, and without those of visits and facts every node down to depth 512 is visited; a cut identifier search is recorded exactly when a visited node had one |
| AstExtraction.RoutesPassInSilence | src-tauri/src/analyzer/extract.rs:190-237 | a file with one function of 5,000 routes or more and nothing else ends above the limit with all of its facts added, so no limit is recorded |
| AstProgress.CompleteMeaning | src-tauri/src/analyzer/extract.rs:159-301 | the recursive extraction visits every node in preorder and adds all the facts that the nodes stand for |
| AstProgress.Finished | src-tauri/src/analyzer/extract.rs:159-301 | a run has lost nothing if and only if it visited all nodes, and dropped nothing besides if and only if its result is the complete one |
| AstIdentity.ExtractFile | src-tauri/src/analyzer/extract.rs:107-142 | the same for a file, from its syntax tree to its graph: everything in its place, within all budgets, and silent about them if and only if complete |
| AstIdentity.SymbolIdentity | src-tauri/src/analyzer/extract.rs:421-432 | semantic identities of definitions are equal exactly when file, kind, qualified name, signature and owner are, over any two files |
| AstIdentity.EventIdentity | src-tauri/src/analyzer/ids.rs:24-36 | semantic identities of static events are equal exactly when file, owner, callee, operation, direction and name are |
| AstIdentity.AstIdentityOfNode | src-tauri/src/analyzer/extract.rs:446-470 | ids of imports and calls are equal exactly when file, content, kind, text, owner, syntax kind, ordinal and extent are |
| IdentifierSearch.FirstIdentifier | src-tauri/src/analyzer/syntax.rs:372-427 | visits are nodes in preorder, at most 4,096 and 128 deep, none without its parent and its earlier siblings, all nameless before the last, whose name is found; without the truncation flag that is the first identifier in preorder; when nothing is found, all visits were used or every node down to depth 128 was visited, and the flag is set exactly when some node was not; a tree of at most 4,096 nodes and depth 128 never sets it |
| IdentifierSearch.FirstInPreorder | src-tauri/src/analyzer/syntax.rs:372-427 | that first identifier is the name of a node, and no node before it in preorder has one |
| DebugProtocol.MoveKeepsInv | fixtures/trace-demo/src/aone-debug.js:28-175 | every atomic step, in any order, keeps the invariant |
| DebugProtocol.ReachedInv | fixtures/trace-demo/src/aone-debug.js:28-175 | so it holds in every reachable state |
| DebugProtocol.BlockedIsPaused | fixtures/trace-demo/src/aone-debug.js:112-115 | a workflow is blocked exactly when the paused resolver is its own; then the mode is paused and the last event is its own pause |
| DebugProtocol.OnlyItsControlReleases | fixtures/trace-demo/src/aone-debug.js:143-175 | a blocked workflow is released if and only if an authentic control asks to resume or step, carries as a safe integer one more than the number of controls accepted so far, and as another the sequence number of the last event, which is the workflow's own pause; no other step releases it |
| DebugProtocol.ControlMeaning | fixtures/trace-demo/src/aone-debug.js:135-175 | everything a control does, and exactly when: it arms a pause in mode running or stops the process when it is authentic, timely and names any event so far; it ends a pause when it names the last one; else nothing changes |
| DebugProtocol.SafePointEmits | fixtures/trace-demo/src/aone-debug.js:89-120 | a safe point emits one event of the active workflow with its step, its parent step unless that is empty, the next number and the terminal state if one is given; the workflow blocks exactly when the event is a pause |
| DebugProtocol.ReturnEnds | fixtures/trace-demo/src/aone-debug.js:43-59 | a workflow whose own last event is terminal is cleaned up; any other emits the event that tells failure from completion, under the step of its own last event |
| DebugProtocol.ReleaseIsNotLost | fixtures/trace-demo/src/aone-debug.js:172-174 | a release stays in force until the workflow continues |
| DebugProtocol.OneAtATime | fixtures/trace-demo/src/aone-debug.js:31-39 | at most one workflow is neither waiting nor done, and it is the active one |
| DebugProtocol.TurnsInOrderOfArrival | fixtures/trace-demo/src/aone-debug.js:31-39 | turns go in order of arrival, and numbers with them |
| DebugProtocol.SomeoneCanMove | fixtures/trace-demo/src/aone-debug.js:54-59 | while a workflow is unfinished, either one waits for its control or some workflow can move |
| DebugProtocol.EventNumbers | fixtures/trace-demo/src/aone-debug.js:91-97 | sequence numbers are contiguous from 1, and each event carries the number of controls accepted before it |
| DebugProtocol.EventAfterCauseStops | fixtures/trace-demo/src/aone-debug.js:80-89 | the first event of a workflow, and the event after a step or a pause request, is a pause or terminal |
| DebugProtocol.PauseHasCause | fixtures/trace-demo/src/aone-debug.js:80-89 | every pause comes after a begin, a step or a pause request with no event in between |
| DebugProtocol.PauseAfterResumeHasCause | fixtures/trace-demo/src/aone-debug.js:80-89 | a pause after a resume in one workflow has a new pause request or a step between them |
| DebugProtocol.EndedAfterTerminal | fixtures/trace-demo/src/aone-debug.js:43-59 | the last event of a finished workflow is terminal |
| DebugProtocol.DebugAdapter.DebugSafePoint | fixtures/trace-demo/src/aone-debug.js:62-120 | the safe point, up to its await, is that step of the machine |
| DebugProtocol.DebugAdapter.Return | fixtures/trace-demo/src/aone-debug.js:43-53 | returning or throwing emits the missing terminal event or cleans up |
| DebugProtocol.DebugAdapter.ReceiveControl | fixtures/trace-demo/src/aone-debug.js:135-175 | one control line is that step of the machine, whatever the line says |
| ExecutionFlow.MergeExecutionFlow | src/app/graphQueries.ts:73-109 | filling the maps in loops gives the merge of the specification |
| FlowContents.PageKeeps | src/app/graphQueries.ts:38-53 | a page keeps its first 1,000 nodes and, in their order and as often as they are there, the edges with both ends among these, the first 2,000 of them; its other fields stay |
| FlowContents.PageLimited | src/app/graphQueries.ts:44-52 | a page is limited if and only if it has more than 1,000 nodes or 2,000 edges, or an edge with an end elsewhere |
| FlowContents.MergeKeeps | src/app/graphQueries.ts:73-109 | a merge keeps the first 1,000 of the nodes of both, one for each id where the id first comes, overlaid by the page's; of the edges, the last with each id where the id first comes, those with both ends among these nodes, the first 2,000 of them; and of the other fields the page's, or the flow's where the page has none |
| FlowContents.MergeLimited | src/app/graphQueries.ts:92-107 | a merge is limited if and only if the flow or the page was, a node or an edge of them is left out, or ten pages are reached and the page names another |
| ExecutionFlow.AlwaysBounded | src/app/graphQueries.ts:38-53 | a first page and every merge has at most 1,000 nodes, 2,000 edges, and edges between its nodes only |
| ExecutionFlow.MergedIdsDistinct | src/app/graphQueries.ts:77-83 | a merge has each node id once, whatever flow and page repeat |
| ExecutionFlow.EarlierNodesKept | src/app/graphQueries.ts:77-83 | in a flow without repeated ids, as every merge leaves it, earlier nodes keep their places and each earlier node is overlaid, field by field, with the page nodes of its id in their order |
| ExecutionFlow.LimitSticks | src/app/graphQueries.ts:101-107 | once limited, always limited |
| ExecutionFlow.FlowOfPages | src/app/graphQueries.ts:73-109 | after any number of pages the flow is bounded and closed and, while not limited, has exactly the node and edge ids of all the pages |
| ExecutionFlow.AtMostNineMore | src/app/graphQueries.ts:92-107 | when every page carries its cursor field at most nine pages follow the first |
| ExecutionFlow.PagingGoesOn | src/app/graphQueries.ts:92-107 | from the tenth page on, another page can be asked for if and only if the last one carried no cursor field, was not limited, and left nothing out |
| ExecutionFlow.PagingWithoutEnd | src/app/graphQueries.ts:96-99 | the statement without that assumption is false: pages without the field can be asked for without end |
| WorkspaceGraphs.GraphHook.Replace | src/app/useWorkspaceGraphs.ts:37-58 | new graphs take the place of everything shown and overtake all requests |
| WorkspaceGraphs.GraphHook.SwitchWorkspace | src/features/onboarding/workspaceMutation.ts:35-36 | leaving the workspace takes the next generation and leaves everything shown, loading flags included |
| WorkspaceGraphs.GraphHook.TraceRoot | src/app/useWorkspaceGraphs.ts:62-72 | a trace takes the next flow number, shows loading and no error, and leaves the rest |
| WorkspaceGraphs.GraphHook.Search | src/app/useWorkspaceGraphs.ts:132-147 | a search takes the next search number; an empty query clears the result, any other shows loading |
| WorkspaceGraphs.GraphHook.ReceiveTrace | src/app/useWorkspaceGraphs.ts:76-103 | the reply to a trace: a failure is tried once more with the fallback, a stale reply changes nothing, another one shows its flow and root or its error |
| WorkspaceGraphs.TraceShows | src/app/useWorkspaceGraphs.ts:82-97 | a current answer to a trace shows its flow and remembers the root asked for; the root shown is that one if it is a node, else the fallback if that is, else the first node marked as a root, else the first node |
| WorkspaceGraphs.FailureTriesFallback | src/app/useWorkspaceGraphs.ts:76-81 | a failed trace is tried again exactly when that was its first try and there is a fallback other than what failed |
| WorkspaceGraphs.ReplaceShows | src/app/useWorkspaceGraphs.ts:37-58 | new graphs are shown with the flow's own root, the search is cleared, and nothing is loading |
| WorkspaceGraphs.RepliesKeepToTheirKind | src/app/useWorkspaceGraphs.ts:76-167 | failures leave every graph and root as they are, flows leave searches alone and searches flows, and neither touches overview and detail |
| WorkspaceGraphs.RequestsKeepToTheirKind | src/app/useWorkspaceGraphs.ts:60-147 | so do requests; a search for nothing clears what was found |
| WorkspaceGraphs.MayLoadMeaning | src/app/useWorkspaceGraphs.ts:110-111 | another page can be asked for if and only if there are a root and a cursor, paging is not limited and nothing is loading |
| WorkspaceGraphs.GraphHook.LoadNext | src/app/useWorkspaceGraphs.ts:110-117 | another page is asked for exactly when root, cursor, limit and loading flag allow it |
| WorkspaceGraphs.GraphHook.ReceiveNext | src/app/useWorkspaceGraphs.ts:118-129 | a current page is merged into the flow that is shown; a stale one changes nothing |
| WorkspaceGraphs.GraphHook.ReceiveSearch | src/app/useWorkspaceGraphs.ts:146-167 | a current search result is shown; a stale one changes nothing |
| WorkspaceRuns.StepKeepsInv | src/app/useWorkspaceGraphs.ts:37-167 | every request, reply, replacement and workspace switch keeps the invariant |
| WorkspaceRuns.PageMeetsItsFlow | src/app/useWorkspaceGraphs.ts:110-129 | in every run a page is merged into the very flow, root and cursor that it was fetched for, or changes no flow |
| WorkspaceRuns.OvertakenReply | src/app/useWorkspaceGraphs.ts:82-88 | once a request is overtaken by a newer one of its kind, by new graphs or by a workspace switch, its reply changes nothing that is shown, however late it comes |
| WorkspaceRuns.ShownFlowIsOneFlow | src/app/useWorkspaceGraphs.ts:37-129 | the shown flow is always one first flow with pages of its root merged in, each fetched with the cursor then current; while the reply to the last request is awaited loading is shown and, without a switch since that request, only then |
| WorkspaceRuns.ShownRootIsNode | src/app/useWorkspaceGraphs.ts:89-97 | when the flows given to `replace` come from pages, the shown root is always a node of the shown flow |
| RequestLine.StepKeeps | src/app/useWorkspaceGraphs.ts:60-167 | for one kind of numbered request, in every order of requests, replies, replacements and switches: while the last reply is awaited its loading flag is set, and without a switch since that request only then |
| RequestLine.StrandedStep | src/app/useWorkspaceGraphs.ts:60-167 | a flag that no reply will clear stays set after a step if and only if the step is neither a new request of the kind nor a replacement |
| WorkspaceRuns.SwitchStrandsLoading | src/app/useWorkspaceGraphs.ts:76-103 | the reply to the last flow or search request, once it is not retried, leaves the loading flag set if and only if the workspace was left since the request was started |
| WorkspaceRuns.StrandedMove | src/app/useWorkspaceGraphs.ts:37-167 | a flag so stranded stays set after a move if and only if the move is not new graphs and not, for flows, a new trace or, for searches, a new search |
| WorkspaceRuns.StrandedForGood | src/app/useWorkspaceGraphs.ts:37-167 | so it stays set through any number of other moves, replies and page requests included |
| WorkspaceRuns.StrandedBlocksPaging | src/app/useWorkspaceGraphs.ts:110-117 | while flow loading is stranded no further page is asked for |
| WorkspaceRuns.StrandedRun | src/features/onboarding/workspaceMutation.ts:35-42 | such states are reached: a trace or a search, a workspace change that is cancelled, and then the reply |
| WorkspaceRuns.QueryClientKeepsNodes | src/app/graphQueries.ts:77-84 | merging never loses a node of a flow within the bound |
| Normalizer.NormalizeSource | src-tauri/src/editor/formatting.rs:142-156 | the push and pop loop gives what the chain of replacements gives, on every input |
| Normalizer.LinesStay | src-tauri/src/editor/formatting.rs:142-156 | with lines cut at newlines, carriage returns and pairs of both, the lines of the result are those of the content, one for one, each without the tabs and spaces at its end and otherwise unchanged, up to the last line that holds anything else; each ends in one newline |
| Normalizer.FixedWhenNormal | src/lib/editorBridge.ts:38-43 | a text is left alone exactly when it has no carriage return, no blank at the end of a line, and one newline after its last line |
| Normalizer.NormalizedIsNormal | src/lib/editorBridge.ts:38-43 | the result always is such a text |
| Normalizer.NormalizedTwice | src/lib/editorBridge.ts:38-43 | normalizing twice is normalizing once |
| Normalizer.VisibleKept | src/lib/editorBridge.ts:38-43 | the characters that are not white space stay, in their order |
| RuntimeEvents.CanonicalRuntimeEvents | src/lib/runtimeGraph.ts:69-96 | the loops give the events of no span as they are, and then one event for each span |
| RuntimeEvents.GroupsAreSpans | src/lib/runtimeGraph.ts:73-79 | there is one group for each span, with exactly its events in their order |
| RuntimeEvents.OwnSpanIs | src/lib/runtimeGraph.ts:59-76 | an event belongs to a span if and only if it has a trace and its metadata reports a span id |
| RuntimeEvents.SpanKeyTells | src/lib/runtimeGraph.ts:59-61 | keys are equal exactly when trace and span are, for trace ids without a NUL |
| RuntimeEvents.SpansByFirstEvent | src/lib/runtimeGraph.ts:73-79 | spans come in the order of their first events |
| RuntimeEvents.OrderedIsStableSort | src/lib/runtimeGraph.ts:82-82 | when the comparison is an order, a span's events come by time and among equal times by id, none is lost, and events that tie keep their order |
| RuntimeEvents.CountPhases | src/lib/runtimeGraph.ts:83-87 | a span is unambiguous exactly when no two of its events report the same phase |
| RuntimeEvents.SpanIsOneEvent | src/lib/runtimeGraph.ts:80-94 | each span becomes one event: of its events in order the first that reports the phase `start`, else the first of all, with the metadata of all of them, of each key the last value; it is unambiguous exactly when no phase comes twice, an event without one counting as `single` |
| RuntimeProjection.TargetMeaning | src/lib/runtimeGraph.ts:142-175 | an event has at most one target, and has one if and only if one is called for: the first node with the id that the backend names; else the first with the id that the process reports; else the only endpoint whose route matches the reported path, or the path of the reported address, and whose method, where both have one, is the reported one; kind and basis say which |
| RuntimeProjection.Candidates | src/lib/runtimeGraph.ts:163-169 | the candidates are exactly the endpoints whose route and method fit |
| RuntimeProjection.Projector.WithRuntimeProjection | src/lib/runtimeGraph.ts:182-267 | any sequence of calls returns what the computation without a cache would |
| RuntimeProjection.ProjectionExtends | src/lib/runtimeGraph.ts:194-238 | a projection keeps the base as a prefix, ids unique and edges closed if they were, and shows a node for every event and span |
| RuntimeProjection.ProjectionAddsOnly | src/lib/runtimeGraph.ts:194-262 | every new node is the node of a shown event, with its text cut to 240 characters and its metadata under what the event is; every new edge leads from a shown event to its target, or from an unambiguous span to another that reports it as its parent |
| RuntimeProjection.ProjectionShowsAll | src/lib/runtimeGraph.ts:194-262 | every shown event that has a target has its edge, and so has every unambiguous span that reports an unambiguous one as its parent |
| RuntimeProjection.UncachedMeaning | src/lib/runtimeGraph.ts:182-267 | so what a call returns extends the graph it is given by exactly what the last 80 of the events that matter call for, spans of known trace protocols and all but plain process output: their nodes, their target edges, the parent edges of their spans, and nothing else |
| RunLifecycle.RunState.RememberTerminalRun | src/lib/runLifecycle.ts:6-18 | an ended run is remembered in order of first arrival and the oldest beyond 200 are evicted; the guard against an empty id is unreachable |
| RunLifecycle.RunState.ReceiveEvent | src/app/useRuntimeSubscriptions.ts:95-109 | a terminal event ends the activity of its run and of no other |
| RunLifecycle.RunState.ReceiveStart | src/app/useRunActions.ts:73-75 | a start reply makes its run active unless it is remembered to have ended |
| RunLifecycle.RunState.ReceiveStop | src/app/useRunActions.ts:113-123 | a stop reply marks the run only while it is the active one |
| RunLifecycle.RunState.AdoptWorkspace | src/app/useAppController.ts:304-310 | adopting a workspace leaves no run active and none remembered |
| RunLifecycle.ActiveHasNotEnded | src/lib/runLifecycle.ts:6-22 | in any order of replies, events and adopted workspaces the active run is never one that is remembered to have ended |
| RunLifecycle.NotActiveInTheEnd | src/app/useRunActions.ts:73-75 | exit before start reply: with fewer than 200 other runs ended and no workspace adopted in between, the run is not active afterwards and stays so |
| RunLifecycle.StartThenExit | src/app/useRuntimeSubscriptions.ts:97-107 | start reply before exit: after the exit the run is not active and stays so |
| RunLifecycle.StoppingWasAsked | src/app/useRunActions.ts:113-123 | in any order of moves the active run is stopping only if a stop was asked of it |
| RunLifecycle.LateStartIsActive | src/lib/runLifecycle.ts:11-16 | whatever happens in between, a start reply after the exit makes the ended run active if and only if 200 runs were added to the memory after it, each time one ends that is not in it, or a workspace was adopted |
| RunLifecycle.LateStartAfterNewRuns | src/lib/runLifecycle.ts:11-16 | when the runs that end in between are new ones, that is: at least 200 of them ended, or a workspace was adopted |
| EventBatch.Batcher.Enqueue | src/app/useRuntimeSubscriptions.ts:61-76 | an event is added, nothing that belongs to the last 500 is lost, and a flush is scheduled |
| EventBatch.Batcher.Flush | src/app/useRuntimeSubscriptions.ts:53-59 | after a flush exactly the last 500 of all received events are shown |
| EventBatch.ShownAfter | src/app/useRuntimeSubscriptions.ts:53-84 | for any schedule of events, flushes and adopted workspaces the next flush shows the last 500 of everything received for the workspace |
| Porcelain.ParsePorcelain | src-tauri/src/git/status.rs:99-144 | data that lists entries, empty fields aside, gives the statuses of these entries, sorted by path; any other gives what is wrong with the first record that is none: malformed, not UTF-8, or an incomplete rename |
| Porcelain.ParseInvertsPrint | src-tauri/src/git/status.rs:99-144 | any entries, printed and parsed, come back with their paths and letters, staged exactly when the first letter is neither a space nor a question mark, conflicted exactly when the letters are one of the seven unmerged pairs |
| Porcelain.ParsePrinted | src-tauri/src/git/status.rs:99-144 | printing and parsing gives these statuses sorted by path, without error |
| Porcelain.OnlyEntriesParse | src-tauri/src/git/status.rs:99-144 | whatever parses lists entries, empty fields aside, the statuses tell of these entries, and printing them gives data that parses to the same |

## Left out

- Deadlines: an early error exit that discards everything.
- Runtime node captions are cut to 240 characters where the code counts UTF-16 units.
- Source locations and most metadata of nodes and edges; evidence kinds and confidences; ids of edges.
- The classification tables of languages, frameworks, calls and events, and the abbreviation table.
- Role heuristics and the counters written into file metadata.
- The child index limit of the syntax walk and of the identifier search: an index that does not fit 32 bits is far beyond the visit budgets.
- Mutation of JavaScript objects that are shared by reference; the cache relies on their not being mutated.
- Garbage collection of cached projections: it only makes the next call compute again.
- `process.exit` of the debug adapter ends all steps; what the operating system still delivers is not modelled.
- Control lines that are not JSON change nothing and are not steps.
- The selected node, lens, view and notifications of the renderer, and the trimming of a search query.
- What adopting a workspace loads; the list of events restored on start, and other writers of the event list.
- The running of git, its output limit, and repository detection.
- Tree-sitter, JSON and YAML parsing, BLAKE3, and the graph library.
- URL redaction, evidence corridors, evidence byte limits and environment files: they would only add easy members.
- ParsePorcelain: the order of statuses with equal paths is left open, as the library's unstable sort leaves it.
- ShownRootIsNode: takes the flows given to `replace` to have at most 1,000 nodes, as every flow read from a page has; a longer one could lose its root when a page is merged.
- TargetMeaning: route patterns, URLs and method names enter through parameters; what they accept is not stated.
- OrderedIsStableSort: takes the locale's comparison to be an order, as its documentation promises; for a comparison that is not one the model inserts in sequence, which the library's sort may not.
- ProjectionShowsAll: an edge counts as shown when the graph has one of its id; two edges whose ids are the same text, as ids with colons can be, are one.
