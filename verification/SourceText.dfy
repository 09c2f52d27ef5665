/** Whitespace and trimmed spans of a source text. Offsets count characters. */
module SourceText {
  import opened Options

  /** The Unicode White_Space property (Rust's `char::is_whitespace`). */
  predicate IsWhite(c: char) {
    var v := c as int;
    || 0x09 <= v <= 0x0D || v == 0x20 || v == 0x85 || v == 0xA0 || v == 0x1680
    || 0x2000 <= v <= 0x200A || v == 0x2028 || v == 0x2029 || v == 0x202F || v == 0x205F || v == 0x3000
  }

  datatype Span = Span(start: nat, end: nat)

  /** The first offset in start..end that is not white, else end. */
  function LeftEdge(source: string, start: nat, end: nat): (r: nat)
    requires start <= end <= |source|
    ensures start <= r <= end
    ensures forall k :: start <= k < r ==> IsWhite(source[k])
    ensures r < end ==> !IsWhite(source[r])
    decreases end - start
  {
    if start < end && IsWhite(source[start]) then LeftEdge(source, start + 1, end) else start
  }

  /** The offset after the last one in start..end that is not white, else start. */
  function RightEdge(source: string, start: nat, end: nat): (r: nat)
    requires start <= end <= |source|
    ensures start <= r <= end
    ensures forall k :: r <= k < end ==> IsWhite(source[k])
    ensures start < r ==> !IsWhite(source[r - 1])
    decreases end - start
  {
    if start < end && IsWhite(source[end - 1]) then RightEdge(source, start, end - 1) else end
  }

  /** The span without white space at its ends; None when nothing is left. */
  function TrimmedSpan(source: string, start: nat, end: nat): (r: Option<Span>)
    requires start <= end <= |source|
    ensures r == None <==> forall k :: start <= k < end ==> IsWhite(source[k])
    ensures r.Some? ==>
      && start <= r.value.start < r.value.end <= end
      && !IsWhite(source[r.value.start]) && !IsWhite(source[r.value.end - 1])
      && forall k :: start <= k < end && !IsWhite(source[k]) ==> r.value.start <= k < r.value.end
  {
    var left := LeftEdge(source, start, end);
    var right := RightEdge(source, left, end);
    if left < right then Some(Span(left, right)) else None
  }

  /** A text from which nothing would be trimmed. */
  ghost predicate Tight(source: string, p: Span) {
    p.start < p.end <= |source| && !IsWhite(source[p.start]) && !IsWhite(source[p.end - 1])
  }

  /** Spans in source order that do not overlap and stay within bounds. */
  ghost predicate InOrder(spans: seq<Span>, from: nat, to: nat) {
    && (forall i :: 0 <= i < |spans| ==> from <= spans[i].start < spans[i].end <= to)
    && (forall i, j :: 0 <= i < j < |spans| ==> spans[i].end <= spans[j].start)
  }

  /** Some span holds the offset. */
  ghost predicate InSome(spans: seq<Span>, k: int) {
    exists i :: 0 <= i < |spans| && spans[i].start <= k < spans[i].end
  }

  ghost predicate Covers(source: string, spans: seq<Span>, from: nat, to: nat)
    requires to <= |source|
  {
    forall k {:trigger InSome(spans, k)} :: from <= k < to && !IsWhite(source[k]) ==> InSome(spans, k)
  }
}
