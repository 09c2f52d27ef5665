/** The identifiers of a parsed file (analyzer/extract.rs, definition_id and ast_id; analyzer/ids.rs,
    stable_event_id). */
module AstIdentity {
  import opened StableId
  import Occurrences
  import opened AstFacts
  import AstProgress
  import AstPlaces
  import opened AstExtraction
  import PartialWalk

  /** A file, and how the identifiers of endpoints and handlers, which also depend on source positions, are made. */
  datatype SourceFile = SourceFile(workspaceId: string, relativePath: string, languageName: string, contentHash: string,
                                   hash: Hash, endpoint: (string, string) -> string,
                                   handler: (string, string) -> string)

  function SymbolParts(f: SourceFile, kind: string, qualified: string, signature: string, owner: string): seq<string> {
    [f.workspaceId, f.relativePath, f.languageName, kind, qualified, signature, owner]
  }

  function EventParts(f: SourceFile, owner: string, callee: string, e: Event, name: string): seq<string> {
    [f.workspaceId, f.relativePath, f.languageName, owner, callee, e.operation, e.direction, name]
  }

  function AstParts(f: SourceFile, kind: string, text: string, ordinal: nat, owner: string, s: Syntax): seq<string> {
    [f.workspaceId, f.relativePath, f.languageName, f.contentHash, kind, text, owner, s.astKind,
     Decimal(ordinal), Decimal(s.start), Decimal(s.end)]
  }

  function ConfigOf(f: SourceFile): Config {
    Config(Id(f.hash, "file", [f.workspaceId, f.relativePath]), f.hash, "symbol", "event",
      (kind: string, qualified: string, signature: string, owner: string) =>
        Id(f.hash, "symbol-semantic", SymbolParts(f, kind, qualified, signature, owner)),
      (owner: string, callee: string, e: Event, name: string) =>
        Id(f.hash, "event-semantic", EventParts(f, owner, callee, e, name)),
      (kind: string, text: string, ordinal: nat, owner: string, s: Syntax) =>
        Id(f.hash, "ast", AstParts(f, kind, text, ordinal, owner, s)),
      f.endpoint, f.handler)
  }

  ghost predicate SameFile(f: SourceFile, g: SourceFile) {
    f.workspaceId == g.workspaceId && f.relativePath == g.relativePath && f.languageName == g.languageName
  }

  /** Equal semantic identities of definitions mean the same file, and equal kind, qualified name, signature and
      owner. */
  lemma SymbolIdentity(f: SourceFile, f': SourceFile, kind: string, kind': string, qualified: string,
                       qualified': string, signature: string, signature': string, owner: string, owner': string)
    requires f.hash == f'.hash && CollisionFree(f.hash)
    requires AllFit(SymbolParts(f, kind, qualified, signature, owner))
    requires AllFit(SymbolParts(f', kind', qualified', signature', owner'))
    ensures ConfigOf(f).symbol(kind, qualified, signature, owner) ==
      ConfigOf(f').symbol(kind', qualified', signature', owner')
      <==> SameFile(f, f') && kind == kind' && qualified == qualified' && signature == signature' && owner == owner'
  {
    var ps, qs :=
      SymbolParts(f, kind, qualified, signature, owner), SymbolParts(f', kind', qualified', signature', owner');
    if Id(f.hash, "symbol-semantic", ps) == Id(f.hash, "symbol-semantic", qs) {
      Occurrences.SamePrefix(f.hash, "symbol-semantic", ps, qs);
      assert forall i :: 0 <= i < |ps| ==> ps[i] == qs[i];
      assert ps[0] == qs[0] && ps[1] == qs[1] && ps[2] == qs[2];
      assert ps[3] == qs[3] && ps[4] == qs[4] && ps[5] == qs[5] && ps[6] == qs[6];
    }
  }

  /** Equal semantic identities of static events mean the same file, and equal owner, callee, event and name. */
  lemma EventIdentity(f: SourceFile, f': SourceFile, owner: string, owner': string, callee: string, callee': string,
                      e: Event, e': Event, name: string, name': string)
    requires f.hash == f'.hash && CollisionFree(f.hash)
    requires AllFit(EventParts(f, owner, callee, e, name)) && AllFit(EventParts(f', owner', callee', e', name'))
    ensures ConfigOf(f).event(owner, callee, e, name) == ConfigOf(f').event(owner', callee', e', name')
      <==> SameFile(f, f') && owner == owner' && callee == callee' && e == e' && name == name'
  {
    var ps, qs := EventParts(f, owner, callee, e, name), EventParts(f', owner', callee', e', name');
    if Id(f.hash, "event-semantic", ps) == Id(f.hash, "event-semantic", qs) {
      Occurrences.SamePrefix(f.hash, "event-semantic", ps, qs);
      assert forall i :: 0 <= i < |ps| ==> ps[i] == qs[i];
      assert ps[0] == qs[0] && ps[1] == qs[1] && ps[2] == qs[2] && ps[3] == qs[3];
      assert ps[4] == qs[4] && ps[5] == qs[5] && ps[6] == qs[6] && ps[7] == qs[7];
    }
  }

  /** Two syntax nodes share an identifier only in the same file with the same content, and with the same kind, text,
      owner, ordinal and extent. */
  lemma AstIdentityOfNode(f: SourceFile, f': SourceFile, kind: string, kind': string, text: string, text': string,
                          ordinal: nat, ordinal': nat, owner: string, owner': string, s: Syntax, s': Syntax)
    requires f.hash == f'.hash && CollisionFree(f.hash)
    requires AllFit(AstParts(f, kind, text, ordinal, owner, s))
    requires AllFit(AstParts(f', kind', text', ordinal', owner', s'))
    ensures ConfigOf(f).ast(kind, text, ordinal, owner, s) == ConfigOf(f').ast(kind', text', ordinal', owner', s')
      <==> SameFile(f, f') && f.contentHash == f'.contentHash
           && kind == kind' && text == text' && ordinal == ordinal' && owner == owner'
           && s.astKind == s'.astKind && s.start == s'.start && s.end == s'.end
  {
    var ps, qs := AstParts(f, kind, text, ordinal, owner, s), AstParts(f', kind', text', ordinal', owner', s');
    if Id(f.hash, "ast", ps) == Id(f.hash, "ast", qs) {
      Occurrences.SamePrefix(f.hash, "ast", ps, qs);
      assert forall i :: 0 <= i < |ps| ==> ps[i] == qs[i];
      assert ps[0] == qs[0] && ps[1] == qs[1] && ps[2] == qs[2] && ps[3] == qs[3];
      assert ps[4] == qs[4] && ps[5] == qs[5] && ps[6] == qs[6] && ps[7] == qs[7];
      assert ps[8] == qs[8] && ps[9] == qs[9] && ps[10] == qs[10];
      DecimalInjective(ordinal, ordinal');
      DecimalInjective(s.start, s'.start);
      DecimalInjective(s.end, s'.end);
    }
  }

  /** A whole file: from its syntax tree to its graph. */
  method ExtractFile(f: SourceFile, root: AstProgress.SyntaxTree) returns (e: Extractor, file: FactNode)
    ensures fresh(e) && file == FactNode(ConfigOf(f).fileId, FileFact, "file", f.relativePath)
    ensures Bounded(ConfigOf(f), root, e.Current()) && PartialWalk.FromTheFront(e.visits)
    ensures AstPlaces.AsPlaced(ConfigOf(f), file, root, e.Current())
    ensures ReasonsTrue(root, e.Current(), e.truncationReasons)
    ensures Silent(e.truncationReasons) <==> e.Current() == AstProgress.Complete(ConfigOf(f), file, root)
    ensures Silent(e.truncationReasons) <==> DoesAll(root, e.Current())
    ensures IdentifierLimit in e.truncationReasons <==> AnyCut(root, e.visits)
  {
    file := FactNode(ConfigOf(f).fileId, FileFact, "file", f.relativePath);
    e := new Extractor(ConfigOf(f), file);
    e.Extract(root, file);
  }
}
