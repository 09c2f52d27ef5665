/** Splitting a paragraph into sentences (analyzer/document.rs, sentence_spans).
    Which tokens are abbreviations is a parameter. */
module Sentences {
  import opened Options
  import opened SourceText

  predicate IsTerminator(c: char) {
    c == '.' || c == '!' || c == '?'
  }

  /** Closing quotes and brackets that belong to the sentence they follow. */
  predicate IsCloser(c: char) {
    c in {'"', '\'', ')', ']', '}'} || c as int == 0x201D || c as int == 0x2019
  }

  type Abbreviation = string -> bool

  function SkipClosers(source: string, at: nat, end: nat): (r: nat)
    requires at <= end <= |source|
    ensures at <= r <= end
    ensures forall k :: at <= k < r ==> IsCloser(source[k])
    ensures r < end ==> !IsCloser(source[r])
    decreases end - at
  {
    if at < end && IsCloser(source[at]) then SkipClosers(source, at + 1, end) else at
  }

  /** Where the sentence that began at `start` ends, if it ends with the character at `at`. */
  function SentenceEnd(abbreviation: Abbreviation, source: string, start: nat, at: nat, end: nat): (r: Option<nat>)
    requires start <= at < end <= |source|
    ensures r.Some? ==> at < r.value <= end
  {
    if !IsTerminator(source[at]) || (source[at] == '.' && abbreviation(source[start..at])) then None
    else
      var after := SkipClosers(source, at + 1, end);
      if after == end || IsWhite(source[after]) then Some(after) else None
  }

  function Kept(p: Option<Span>): seq<Span> {
    if p.Some? then [p.value] else []
  }

  /** All sentences of start..end when the part before `at` holds no sentence end. */
  function SentencesFrom(abbreviation: Abbreviation, source: string, start: nat, at: nat, end: nat): (r: seq<Span>)
    requires start <= at <= end <= |source|
    decreases end - at
  {
    if at == end then Kept(TrimmedSpan(source, start, end))
    else
      match SentenceEnd(abbreviation, source, start, at, end)
      case None => SentencesFrom(abbreviation, source, start, at + 1, end)
      case Some(stop) =>
        Kept(TrimmedSpan(source, start, stop)) + SentencesFrom(abbreviation, source, stop, stop, end)
  }

  function Sentences(abbreviation: Abbreviation, source: string, start: nat, end: nat): seq<Span>
    requires start <= end <= |source|
  {
    SentencesFrom(abbreviation, source, start, start, end)
  }

  /** Tight spans in order that together hold every character that is not white. */
  ghost predicate Splits(source: string, spans: seq<Span>, from: nat, to: nat)
    requires to <= |source|
  {
    && (forall i :: 0 <= i < |spans| ==> Tight(source, spans[i]))
    && InOrder(spans, from, to)
    && Covers(source, spans, from, to)
  }

  lemma KeptSplits(source: string, from: nat, to: nat)
    requires from <= to <= |source|
    ensures Splits(source, Kept(TrimmedSpan(source, from, to)), from, to)
  {
    var p := TrimmedSpan(source, from, to);
    if p.Some? { OneSplits(source, p.value, from, to); }
  }

  lemma OneSplits(source: string, p: Span, from: nat, to: nat)
    requires from <= p.start < p.end <= to <= |source| && Tight(source, p)
    requires forall k :: from <= k < to && !IsWhite(source[k]) ==> p.start <= k < p.end
    ensures Splits(source, [p], from, to)
  {
    forall k | from <= k < to && !IsWhite(source[k]) ensures InSome([p], k) {
      assert [p][0].start <= k < [p][0].end;
    }
  }

  lemma PassesOn(abbreviation: Abbreviation, source: string, start: nat, at: nat, end: nat)
    requires start <= at < end <= |source| && SentenceEnd(abbreviation, source, start, at, end) == None
    ensures SentencesFrom(abbreviation, source, start, at, end)
      == SentencesFrom(abbreviation, source, start, at + 1, end)
  {
  }

  lemma EndsOne(abbreviation: Abbreviation, source: string, start: nat, at: nat, stop: nat, end: nat)
    requires start <= at < stop <= end <= |source|
    requires SentenceEnd(abbreviation, source, start, at, end) == Some(stop)
    ensures SentencesFrom(abbreviation, source, start, at, end)
      == Kept(TrimmedSpan(source, start, stop)) + SentencesFrom(abbreviation, source, stop, stop, end)
  {
  }

  lemma OneMoreSplits(source: string, rest: seq<Span>, start: nat, stop: nat, end: nat)
    requires start <= stop <= end <= |source| && Splits(source, rest, stop, end)
    ensures Splits(source, Kept(TrimmedSpan(source, start, stop)) + rest, start, end)
  {
    KeptSplits(source, start, stop);
    SplitsAppend(source, Kept(TrimmedSpan(source, start, stop)), rest, start, stop, end);
  }

  // ---------- where sentences end ----------

  /** A sentence that began at `start` ends at `stop` by the mark at `at`: a full stop that ends no abbreviation, an
      exclamation or a question mark, then closing quotes and brackets, then white space or the end. */
  ghost predicate EndsAt(abbreviation: Abbreviation, source: string, start: nat, at: nat, stop: nat, end: nat)
    requires end <= |source|
  {
    && start <= at < stop <= end
    && (source[at] == '!' || source[at] == '?' || (source[at] == '.' && !abbreviation(source[start..at])))
    && (forall k :: at < k < stop ==> source[k] in "\"')]}\U{201D}\U{2019}")
    && (stop == end || IsWhite(source[stop]))
  }

  ghost predicate EndsBy(abbreviation: Abbreviation, source: string, start: nat, at: nat, end: nat)
    requires end <= |source|
  {
    exists stop: nat :: EndsAt(abbreviation, source, start, at, stop, end)
  }

  lemma ClosersAre(c: char)
    ensures IsCloser(c) <==> c in "\"')]}\U{201D}\U{2019}"
    ensures IsCloser(c) ==> !IsWhite(c)
  {
    var closers := "\"')]}\U{201D}\U{2019}";
    assert closers[0] == '"' && closers[1] == '\'' && closers[2] == ')' && closers[3] == ']' && closers[4] == '}';
    assert closers[5] == '\U{201D}' && closers[6] == '\U{2019}';
    assert '\U{201D}' as int == 0x201D && '\U{2019}' as int == 0x2019;
  }

  lemma SentenceEndIs(abbreviation: Abbreviation, source: string, start: nat, at: nat, stop: nat, end: nat)
    requires start <= at < end <= |source|
    ensures SentenceEnd(abbreviation, source, start, at, end) == Some(stop)
      <==> EndsAt(abbreviation, source, start, at, stop, end)
  {
    var after := SkipClosers(source, at + 1, end);
    forall k | 0 <= k < |source|
      ensures IsCloser(source[k]) <==> source[k] in "\"')]}\U{201D}\U{2019}"
      ensures IsCloser(source[k]) ==> !IsWhite(source[k])
    {
      ClosersAre(source[k]);
    }
    if stop < |source| { ClosersAre(source[stop]); }
    if after < |source| { ClosersAre(source[after]); }
  }

  lemma EndOrNone(abbreviation: Abbreviation, source: string, start: nat, at: nat, end: nat)
    requires start <= at < end <= |source|
    ensures match SentenceEnd(abbreviation, source, start, at, end)
      case None => !EndsBy(abbreviation, source, start, at, end)
      case Some(stop) => EndsAt(abbreviation, source, start, at, stop, end)
  {
    if stop: nat :| EndsAt(abbreviation, source, start, at, stop, end) {
      SentenceEndIs(abbreviation, source, start, at, stop, end);
    }
    var r := SentenceEnd(abbreviation, source, start, at, end);
    if r.Some? { SentenceEndIs(abbreviation, source, start, at, r.value, end); }
  }

  /** A part of the text is one sentence: it ends by a mark, and by no earlier one. */
  ghost predicate IsSentencePart(abbreviation: Abbreviation, source: string, from: nat, to: nat, end: nat)
    requires end <= |source|
  {
    exists at: nat :: EndsAt(abbreviation, source, from, at, to, end) && NoneEnds(abbreviation, source, from, at, end)
  }

  ghost predicate NoneEnds(abbreviation: Abbreviation, source: string, from: nat, to: nat, end: nat)
    requires end <= |source|
  {
    forall at: nat :: from <= at < to ==> !EndsBy(abbreviation, source, from, at, end)
  }

  ghost predicate InTurn(cuts: seq<nat>) {
    forall i, j :: 0 <= i < j < |cuts| ==> cuts[i] <= cuts[j]
  }

  /** Where the text is cut: after each sentence, and at its end; what is left there ends no sentence. */
  ghost predicate AreCuts(abbreviation: Abbreviation, source: string, cuts: seq<nat>, start: nat, end: nat)
    requires end <= |source|
  {
    && |cuts| >= 2 && cuts[0] == start && cuts[|cuts| - 1] == end
    && InTurn(cuts)
    && (forall i :: 0 <= i < |cuts| - 2 ==> IsSentencePart(abbreviation, source, cuts[i], cuts[i + 1], end))
    && NoneEnds(abbreviation, source, cuts[|cuts| - 2], end, end)
  }

  /** What is left of each part when white space at its ends is cut off. */
  ghost function Parts(source: string, cuts: seq<nat>): seq<Span>
    requires InTurn(cuts) && forall i :: 0 <= i < |cuts| ==> cuts[i] <= |source|
  {
    if |cuts| < 2 then [] else Kept(TrimmedSpan(source, cuts[0], cuts[1])) + Parts(source, cuts[1..])
  }

  lemma CutsMore(abbreviation: Abbreviation, source: string, cuts: seq<nat>, start: nat, stop: nat, end: nat)
    requires end <= |source| && AreCuts(abbreviation, source, cuts, stop, end) && start <= stop <= end
    requires IsSentencePart(abbreviation, source, start, stop, end)
    ensures AreCuts(abbreviation, source, [start] + cuts, start, end)
  {
    var all := [start] + cuts;
    assert forall i :: 0 < i < |all| ==> all[i] == cuts[i - 1];
    forall i | 0 <= i < |all| - 2 ensures IsSentencePart(abbreviation, source, all[i], all[i + 1], end) {
      if i > 0 { assert IsSentencePart(abbreviation, source, cuts[i - 1], cuts[i - 1 + 1], end); }
    }
  }

  lemma CutsInside(abbreviation: Abbreviation, source: string, cuts: seq<nat>, start: nat, end: nat)
    requires end <= |source| && AreCuts(abbreviation, source, cuts, start, end)
    ensures forall i :: 0 <= i < |cuts| ==> cuts[i] <= end
  {
  }

  /** Sentences are what lies between the cuts. */
  ghost predicate LieBetween(abbreviation: Abbreviation, source: string, sentences: seq<Span>, cuts: seq<nat>,
                             start: nat, end: nat)
    requires end <= |source|
  {
    && AreCuts(abbreviation, source, cuts, start, end)
    && (forall i :: 0 <= i < |cuts| ==> cuts[i] <= end)
    && sentences == Parts(source, cuts)
  }

  lemma OneMoreBetween(abbreviation: Abbreviation, source: string, sentences: seq<Span>, cuts: seq<nat>, start: nat,
                       stop: nat, end: nat)
    requires end <= |source| && LieBetween(abbreviation, source, sentences, cuts, stop, end) && start <= stop <= end
    requires IsSentencePart(abbreviation, source, start, stop, end)
    ensures LieBetween(abbreviation, source, Kept(TrimmedSpan(source, start, stop)) + sentences, [start] + cuts, start,
                       end)
  {
    CutsMore(abbreviation, source, cuts, start, stop, end);
    CutsInside(abbreviation, source, [start] + cuts, start, end);
    assert ([start] + cuts)[1..] == cuts;
  }

  /** The sentences of a text are its parts up to the first end of a sentence, up to the first end after that, and so
      on, and what is left; each without the white space around it. */
  lemma {:induction false} SentencesAreParts(abbreviation: Abbreviation, source: string, start: nat, at: nat, end: nat)
    returns (cuts: seq<nat>)
    requires start <= at <= end <= |source| && NoneEnds(abbreviation, source, start, at, end)
    ensures LieBetween(abbreviation, source, SentencesFrom(abbreviation, source, start, at, end), cuts, start, end)
    decreases end - at
  {
    if at == end {
      cuts := [start, end];
      assert cuts[1..] == [end];
    } else {
      EndOrNone(abbreviation, source, start, at, end);
      match SentenceEnd(abbreviation, source, start, at, end)
      case None => cuts := SentencesAreParts(abbreviation, source, start, at + 1, end);
      case Some(stop) =>
        cuts := SentencesAreParts(abbreviation, source, stop, stop, end);
        OneMoreBetween(abbreviation, source, SentencesFrom(abbreviation, source, stop, stop, end), cuts, start, stop,
                       end);
        cuts := [start] + cuts;
    }
  }

  lemma {:induction false} PartsSplit(source: string, cuts: seq<nat>)
    requires |cuts| >= 2 && InTurn(cuts) && forall i :: 0 <= i < |cuts| ==> cuts[i] <= |source|
    ensures Splits(source, Parts(source, cuts), cuts[0], cuts[|cuts| - 1])
    decreases |cuts|
  {
    if |cuts| == 2 {
      var first := Kept(TrimmedSpan(source, cuts[0], cuts[1]));
      KeptSplits(source, cuts[0], cuts[1]);
      assert Parts(source, cuts[1..]) == [] && first + [] == first;
    } else {
      PartsSplit(source, cuts[1..]);
      OneMoreSplits(source, Parts(source, cuts[1..]), cuts[0], cuts[1], cuts[|cuts| - 1]);
    }
  }

  /** Sentences are tight, in order and disjoint, and every character that is not white is in one of them. */
  lemma SentencesSplit(abbreviation: Abbreviation, source: string, start: nat, end: nat)
    requires start <= end <= |source|
    ensures Splits(source, Sentences(abbreviation, source, start, end), start, end)
  {
    var cuts := SentencesAreParts(abbreviation, source, start, start, end);
    PartsSplit(source, cuts);
  }

  lemma HoldingSpan(source: string, spans: seq<Span>, from: nat, to: nat, k: nat) returns (i: nat)
    requires from <= k < to <= |source| && !IsWhite(source[k]) && Covers(source, spans, from, to)
    ensures i < |spans| && spans[i].start <= k < spans[i].end
  {
    assert InSome(spans, k);
    i :| 0 <= i < |spans| && spans[i].start <= k < spans[i].end;
  }

  lemma InSomeOfBoth(a: seq<Span>, b: seq<Span>, k: int)
    requires InSome(a, k) || InSome(b, k)
    ensures InSome(a + b, k)
  {
    if InSome(a, k) {
      var i :| 0 <= i < |a| && a[i].start <= k < a[i].end;
      assert (a + b)[i] == a[i];
    } else {
      var i :| 0 <= i < |b| && b[i].start <= k < b[i].end;
      assert (a + b)[|a| + i] == b[i];
    }
  }

  lemma CoversAppend(source: string, a: seq<Span>, b: seq<Span>, from: nat, mid: nat, to: nat)
    requires from <= mid <= to <= |source| && Covers(source, a, from, mid) && Covers(source, b, mid, to)
    ensures Covers(source, a + b, from, to)
  {
    forall k | from <= k < to && !IsWhite(source[k]) ensures InSome(a + b, k) {
      assert k < mid ==> InSome(a, k);
      assert k >= mid ==> InSome(b, k);
      InSomeOfBoth(a, b, k);
    }
  }

  lemma InOrderAppend(a: seq<Span>, b: seq<Span>, from: nat, mid: nat, to: nat)
    requires from <= mid <= to && InOrder(a, from, mid) && InOrder(b, mid, to)
    ensures InOrder(a + b, from, to)
  {
  }

  lemma SplitsAppend(source: string, a: seq<Span>, b: seq<Span>, from: nat, mid: nat, to: nat)
    requires from <= mid <= to <= |source| && Splits(source, a, from, mid) && Splits(source, b, mid, to)
    ensures Splits(source, a + b, from, to)
  {
    CoversAppend(source, a, b, from, mid, to);
    InOrderAppend(a, b, from, mid, to);
    assert forall i :: 0 <= i < |a + b| ==> (a + b)[i] == if i < |a| then a[i] else b[i - |a|];
  }

  /** A run of closers contains no sentence end, so the scan may jump over it. */
  lemma {:induction false} ClosersHoldNoEnd(abbreviation: Abbreviation, source: string, start: nat, at: nat, to: nat,
                                            end: nat)
    requires start <= at <= to <= end <= |source|
    requires forall k :: at <= k < to ==> IsCloser(source[k])
    ensures SentencesFrom(abbreviation, source, start, at, end) == SentencesFrom(abbreviation, source, start, to, end)
    decreases end - at
  {
    if at < to { ClosersHoldNoEnd(abbreviation, source, start, at + 1, to, end); }
  }

  method CloserRunEnd(source: string, at: nat, end: nat) returns (r: nat)
    requires at <= end <= |source|
    ensures r == SkipClosers(source, at, end)
  {
    r := at;
    while r < end && IsCloser(source[r])
      invariant at <= r <= end
      invariant SkipClosers(source, r, end) == SkipClosers(source, at, end)
    {
      r := r + 1;
    }
  }

  /** What a scan that stands at `at` has found and has still to find. */
  ghost predicate Scanned(abbreviation: Abbreviation, source: string, found: seq<Span>, start: nat, at: nat, end: nat,
                          all: seq<Span>)
    requires start <= at <= end <= |source|
  {
    all == found + SentencesFrom(abbreviation, source, start, at, end)
  }

  lemma ScanPasses(abbreviation: Abbreviation, source: string, found: seq<Span>, start: nat, at: nat, to: nat, end: nat,
                   all: seq<Span>)
    requires start <= at < to <= end <= |source| && Scanned(abbreviation, source, found, start, at, end, all)
    requires SentenceEnd(abbreviation, source, start, at, end) == None
    requires forall k :: at < k < to ==> IsCloser(source[k])
    ensures Scanned(abbreviation, source, found, start, to, end, all)
  {
    PassesOn(abbreviation, source, start, at, end);
    ClosersHoldNoEnd(abbreviation, source, start, at + 1, to, end);
  }

  lemma ScanEnds(abbreviation: Abbreviation, source: string, found: seq<Span>, start: nat, at: nat, stop: nat, end: nat,
                 all: seq<Span>)
    requires start <= at < stop <= end <= |source| && Scanned(abbreviation, source, found, start, at, end, all)
    requires SentenceEnd(abbreviation, source, start, at, end) == Some(stop)
    ensures Scanned(abbreviation, source, found + Kept(TrimmedSpan(source, start, stop)), stop, stop, end, all)
  {
    var head, rest := Kept(TrimmedSpan(source, start, stop)), SentencesFrom(abbreviation, source, stop, stop, end);
    EndsOne(abbreviation, source, start, at, stop, end);
    assert found + (head + rest) == (found + head) + rest;
  }

  /** Whether the sentence ends at `at`, and where the scan goes on. */
  method TryEnd(abbreviation: Abbreviation, source: string, start: nat, at: nat, end: nat)
    returns (ends: bool, next: nat)
    requires start <= at < end <= |source|
    ensures at < next <= end
    ensures SentenceEnd(abbreviation, source, start, at, end) == if ends then Some(next) else None
    ensures !ends ==> forall k :: at < k < next ==> IsCloser(source[k])
  {
    if !IsTerminator(source[at]) { return false, at + 1; }
    if source[at] == '.' && abbreviation(source[start..at]) { return false, at + 1; }
    next := CloserRunEnd(source, at + 1, end);
    ends := !(next < end && !IsWhite(source[next]));
  }

  /** The first `maximum` sentences. */
  method SentenceSpans(abbreviation: Abbreviation, source: string, start: nat, end: nat, maximum: nat)
    returns (sentences: seq<Span>)
    requires start <= end <= |source| && maximum >= 1
    ensures var all := Sentences(abbreviation, source, start, end);
      sentences == if |all| <= maximum then all else all[..maximum]
  {
    sentences := [];
    ghost var all := Sentences(abbreviation, source, start, end);
    var sentenceStart, at := start, start;
    while at < end
      invariant start <= sentenceStart <= at <= end
      invariant |sentences| < maximum
      invariant Scanned(abbreviation, source, sentences, sentenceStart, at, end, all)
      decreases end - at
    {
      var ends, next := TryEnd(abbreviation, source, sentenceStart, at, end);
      if ends {
        ScanEnds(abbreviation, source, sentences, sentenceStart, at, next, end, all);
        sentences := sentences + Kept(TrimmedSpan(source, sentenceStart, next));
        if |sentences| >= maximum { return; }
        sentenceStart := next;
      } else {
        ScanPasses(abbreviation, source, sentences, sentenceStart, at, next, end, all);
      }
      at := next;
    }
    sentences := sentences + Kept(TrimmedSpan(source, sentenceStart, end));
  }
}
