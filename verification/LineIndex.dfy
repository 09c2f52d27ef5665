/** Lines and columns of byte offsets, in two forms: a binary search in an index of line starts (analyzer/document.rs,
    line_column) and a scan of everything before the offset (analyzer/openapi.rs, location_from_offset).
    Offsets count UTF-8 bytes, columns count UTF-16 code units from 1, lines count from 1. */
module LineIndex {
  import opened Options
  import opened Utf8
  import Seqs

  const NEWLINE: Byte := 10

  datatype Place = Place(line: nat, column: nat)

  function Units(c: char): nat {
    if c as int >= 0x1_0000 then 2 else 1
  }

  /** Two units are for the characters that take four bytes in UTF-8. */
  lemma UnitsOfBytes(c: char)
    ensures Units(c) == if |EncodeChar(c)| == 4 then 2 else 1
  {
  }

  /** How many UTF-16 code units a string takes. */
  function Utf16(s: string): nat {
    if s == [] then 0 else Utf16(s[..|s| - 1]) + Units(s[|s| - 1])
  }

  /** A slice of the source by byte offsets; there is none outside it or inside a character. */
  function Slice(source: string, from: nat, to: nat): Option<string> {
    var bytes := Encode(source);
    if from <= to <= |bytes| then Decode(bytes[from..to]) else None
  }

  /** The place of an offset on the line that begins at `start`, after so many newlines. */
  function PlaceAfter(source: string, newlines: nat, start: nat, offset: nat): Option<Place> {
    match Slice(source, start, offset)
    case None => None
    case Some(text) => Some(Place(newlines + 1, Utf16(text) + 1))
  }

  // ---------- the index ----------

  /** Zero, and the offset after every newline. */
  function LineStarts(bytes: seq<Byte>): (starts: seq<nat>)
    ensures starts != []
  {
    if bytes == [] then [0]
    else LineStarts(bytes[..|bytes| - 1]) + if bytes[|bytes| - 1] == NEWLINE then [|bytes|] else []
  }

  ghost predicate Ascending(q: seq<nat>) {
    forall i, j :: 0 <= i < j < |q| ==> q[i] < q[j]
  }

  /** How many numbers of an ascending sequence are at most the bound, by halving (`partition_point`). */
  function PartitionPoint(q: seq<nat>, bound: nat, low: nat, high: nat): (r: nat)
    requires Ascending(q) && low <= high <= |q|
    ensures low <= r <= high
    ensures (forall i :: low <= i < r ==> q[i] <= bound) && (forall i :: r <= i < high ==> q[i] > bound)
    decreases high - low
  {
    if low == high then low
    else
      var middle := (low + high) / 2;
      if q[middle] <= bound then PartitionPoint(q, bound, middle + 1, high) else PartitionPoint(q, bound, low, middle)
  }

  /** line_column: None where the slice panics. */
  function LineColumn(source: string, offset: nat): Option<Place> {
    ByIndex(source, Encode(source), offset)
  }

  function ByIndex(source: string, bytes: seq<Byte>, offset: nat): Option<Place> {
    StartsAscending(bytes);
    var starts := LineStarts(bytes);
    var index := PartitionPoint(starts, offset, 0, |starts|) - 1;
    PlaceAfter(source, index, starts[index], offset)
  }

  // ---------- the scan ----------

  function Newlines(bytes: seq<Byte>): nat {
    if bytes == [] then 0 else Newlines(bytes[..|bytes| - 1]) + if bytes[|bytes| - 1] == NEWLINE then 1 else 0
  }

  /** The offset after the last newline, or zero. */
  function LastStart(bytes: seq<Byte>): (r: nat)
    ensures r <= |bytes|
  {
    if bytes == [] then 0 else if bytes[|bytes| - 1] == NEWLINE then |bytes| else LastStart(bytes[..|bytes| - 1])
  }

  function Before(bytes: seq<Byte>, offset: nat): seq<Byte> {
    bytes[..if offset < |bytes| then offset else |bytes|]
  }

  /** The start of location_from_offset: None where the slice panics. */
  function LocationFromOffset(source: string, offset: nat): Option<Place> {
    ByScan(source, Encode(source), offset)
  }

  function ByScan(source: string, bytes: seq<Byte>, offset: nat): Option<Place> {
    var prefix := Before(bytes, offset);
    PlaceAfter(source, Newlines(prefix), LastStart(prefix), offset)
  }

  // ---------- the two forms agree ----------

  lemma {:induction false} StartsAscending(bytes: seq<Byte>)
    ensures Ascending(LineStarts(bytes)) && LineStarts(bytes)[0] == 0
    ensures forall i :: 0 <= i < |LineStarts(bytes)| ==> LineStarts(bytes)[i] <= |bytes|
    ensures |LineStarts(bytes)| == Newlines(bytes) + 1
    ensures LineStarts(bytes)[|LineStarts(bytes)| - 1] == LastStart(bytes)
  {
    if bytes != [] { StartsAscending(bytes[..|bytes| - 1]); }
  }

  /** The index of a prefix begins the index of the whole, which goes on behind the prefix. */
  lemma {:induction false} StartsOfPrefix(bytes: seq<Byte>, n: nat)
    requires n <= |bytes|
    ensures LineStarts(bytes[..n]) <= LineStarts(bytes)
    ensures forall i :: |LineStarts(bytes[..n])| <= i < |LineStarts(bytes)| ==> LineStarts(bytes)[i] > n
    decreases |bytes|
  {
    if n == |bytes| {
      assert bytes[..n] == bytes;
    } else {
      StartsOfPrefix(bytes[..|bytes| - 1], n);
      assert bytes[..|bytes| - 1][..n] == bytes[..n];
    }
  }

  lemma PointIs(q: seq<nat>, bound: nat, n: nat)
    requires Ascending(q) && n <= |q|
    requires (forall i :: 0 <= i < n ==> q[i] <= bound) && (forall i :: n <= i < |q| ==> q[i] > bound)
    ensures PartitionPoint(q, bound, 0, |q|) == n
  {
    var r := PartitionPoint(q, bound, 0, |q|);
    var atPoint, atCount := if r < |q| then q[r] else 0, if n < |q| then q[n] else 0;
  }

  /** The index finds the number of newlines before an offset, and the start after the last of them. */
  lemma IndexOfPrefix(bytes: seq<Byte>, offset: nat)
    requires Ascending(LineStarts(bytes))
    ensures var starts, prefix := LineStarts(bytes), Before(bytes, offset);
      var index := PartitionPoint(starts, offset, 0, |starts|) - 1;
      index == Newlines(prefix) && starts[index] == LastStart(prefix)
  {
    var prefix := Before(bytes, offset);
    var starts, some := LineStarts(bytes), LineStarts(prefix);
    StartsAscending(bytes);
    StartsAscending(prefix);
    StartsOfPrefix(bytes, |prefix|);
    forall i | 0 <= i < |some| ensures starts[i] <= offset { assert starts[i] == some[i]; }
    if |prefix| == |bytes| { assert prefix == bytes; }
    PointIs(starts, offset, |some|);
    assert starts[|some| - 1] == some[|some| - 1];
  }

  /** At every offset, between characters or not, inside the source or not, both forms give the same answer. */
  lemma IndexAgreesWithScan(source: string, offset: nat)
    ensures LineColumn(source, offset) == LocationFromOffset(source, offset)
  {
    BytesAgree(source, Encode(source), offset);
  }

  lemma BytesAgree(source: string, bytes: seq<Byte>, offset: nat)
    ensures ByIndex(source, bytes, offset) == ByScan(source, bytes, offset)
  {
    StartsAscending(bytes);
    IndexOfPrefix(bytes, offset);
  }

  // ---------- what the answer is ----------

  /** The offset of a character. */
  function Offset(source: string, k: nat): nat
    requires k <= |source|
  {
    |Encode(source[..k])|
  }

  /** Reading the first k characters one by one: a newline begins the next line, any other character moves the column
      on. */
  ghost function Walk(source: string, k: nat): (p: Place)
    requires k <= |source|
    ensures p.line > 0 && p.column > 0
  {
    if k == 0 then Place(1, 1)
    else
      var before := Walk(source, k - 1);
      if source[k - 1] == '\n' then Place(before.line + 1, 1)
      else Place(before.line, before.column + Units(source[k - 1]))
  }

  lemma {:induction false} NoNewlineAdded(a: seq<Byte>, b: seq<Byte>)
    requires forall i :: 0 <= i < |b| ==> b[i] != NEWLINE
    ensures Newlines(a + b) == Newlines(a) && LastStart(a + b) == LastStart(a)
  {
    if b == [] {
      assert a + b == a;
    } else {
      NoNewlineAdded(a, b[..|b| - 1]);
      assert (a + b)[..|a + b| - 1] == a + b[..|b| - 1];
    }
  }

  /** Only a newline character has a newline byte. */
  lemma NewlineByte(c: char)
    ensures c == '\n' ==> EncodeChar(c) == [NEWLINE]
    ensures c != '\n' ==> forall i :: 0 <= i < |EncodeChar(c)| ==> EncodeChar(c)[i] != NEWLINE
  {
  }

  lemma BytesAdded(bytes: seq<Byte>, tail: seq<Byte>, newline: bool)
    requires if newline then tail == [NEWLINE] else forall i :: 0 <= i < |tail| ==> tail[i] != NEWLINE
    ensures Newlines(bytes + tail) == Newlines(bytes) + if newline then 1 else 0
    ensures LastStart(bytes + tail) == if newline then |bytes| + 1 else LastStart(bytes)
  {
    if newline {
      assert (bytes + tail)[..|bytes|] == bytes;
    } else {
      NoNewlineAdded(bytes, tail);
    }
  }

  lemma CharacterAdded(bytes: seq<Byte>, c: char)
    ensures Newlines(bytes + EncodeChar(c)) == Newlines(bytes) + if c == '\n' then 1 else 0
    ensures LastStart(bytes + EncodeChar(c)) == if c == '\n' then |bytes| + 1 else LastStart(bytes)
  {
    NewlineByte(c);
    BytesAdded(bytes, EncodeChar(c), c == '\n');
  }

  lemma EncodeOneMore(source: string, k: nat)
    requires k < |source|
    ensures Encode(source[..k + 1]) == Encode(source[..k]) + EncodeChar(source[k])
  {
    assert source[..k + 1] == source[..k] + [source[k]];
    EncodeConcat(source[..k], [source[k]]);
    assert Encode([source[k]]) == EncodeChar(source[k]) + Encode([]);
  }

  lemma Utf16OneMore(s: string, c: char)
    ensures Utf16(s + [c]) == Utf16(s) + Units(c)
  {
    assert (s + [c])[..|s|] == s;
  }

  /** The walk of k characters, told by the bytes before: the line begins at character `start`. */
  ghost predicate WalksFrom(source: string, k: nat, start: nat)
    requires k <= |source|
  {
    && start <= k && Offset(source, start) == LastStart(Encode(source[..k]))
    && Walk(source, k) == Place(Newlines(Encode(source[..k])) + 1, Utf16(source[start..k]) + 1)
  }

  lemma NewlineRead(source: string, k: nat, start: nat)
    requires k < |source| && source[k] == '\n' && WalksFrom(source, k, start)
    ensures WalksFrom(source, k + 1, k + 1)
  {
    EncodeOneMore(source, k);
    CharacterAdded(Encode(source[..k]), '\n');
    NewlineLength(source[..k], source[..k + 1]);
  }

  lemma OtherRead(source: string, k: nat, start: nat)
    requires k < |source| && source[k] != '\n' && WalksFrom(source, k, start)
    ensures WalksFrom(source, k + 1, start)
  {
    EncodeOneMore(source, k);
    CharacterAdded(Encode(source[..k]), source[k]);
    Utf16OneMore(source[start..k], source[k]);
    assert source[start..k + 1] == source[start..k] + [source[k]];
  }

  lemma {:induction false} WalkReadsBytes(source: string, k: nat) returns (start: nat)
    requires k <= |source|
    ensures WalksFrom(source, k, start)
  {
    start := 0;
    if k > 0 {
      start := WalkReadsBytes(source, k - 1);
      if source[k - 1] == '\n' {
        NewlineRead(source, k - 1, start);
        start := k;
      } else {
        OtherRead(source, k - 1, start);
      }
    }
  }

  lemma NewlineLength(before: string, after: string)
    requires Encode(after) == Encode(before) + EncodeChar('\n')
    ensures |Encode(after)| == |Encode(before)| + 1
  {
  }

  /** Between characters, slicing by bytes is slicing by characters. */
  lemma SliceAtCharacters(source: string, i: nat, k: nat)
    requires i <= k <= |source|
    ensures Slice(source, Offset(source, i), Offset(source, k)) == Some(source[i..k])
    ensures Offset(source, i) <= Offset(source, k) <= |Encode(source)|
  {
    assert source == source[..k] + source[k..] && source[..k] == source[..i] + source[i..k];
    EncodeConcat(source[..k], source[k..]);
    EncodeConcat(source[..i], source[i..k]);
    assert Encode(source)[Offset(source, i)..Offset(source, k)] == Encode(source[i..k]);
    RoundTrip(source[i..k]);
  }

  lemma PrefixBytes(source: string, k: nat)
    requires k <= |source|
    ensures Offset(source, k) <= |Encode(source)| && Encode(source)[..Offset(source, k)] == Encode(source[..k])
  {
    assert source == source[..k] + source[k..];
    EncodeConcat(source[..k], source[k..]);
  }

  /** At every character both forms give the place that reading the source character by character gives. */
  lemma PlaceOfCharacter(source: string, k: nat)
    requires k <= |source|
    ensures LineColumn(source, Offset(source, k)) == Some(Walk(source, k))
    ensures LocationFromOffset(source, Offset(source, k)) == Some(Walk(source, k))
  {
    PrefixBytes(source, k);
    WalkedPlace(source, k);
    assert Before(Encode(source), Offset(source, k)) == Encode(source[..k]);
    IndexAgreesWithScan(source, Offset(source, k));
  }

  lemma WalkedPlace(source: string, k: nat)
    requires k <= |source|
    ensures var prefix := Encode(source[..k]);
      PlaceAfter(source, Newlines(prefix), LastStart(prefix), Offset(source, k)) == Some(Walk(source, k))
  {
    var start := WalkReadsBytes(source, k);
    SliceAtCharacters(source, start, k);
  }

  /** What decodes from a character on ends at a character. */
  lemma SliceEndsAtCharacter(source: string, i: nat, offset: nat) returns (k: nat)
    requires i <= |source| && Offset(source, i) <= offset <= |Encode(source)|
    requires Decode(Encode(source)[Offset(source, i)..offset]).Some?
    ensures k <= |source| && offset == Offset(source, k)
  {
    var text := DecodedText(Encode(source)[Offset(source, i)..offset]);
    k := TextEnds(source, i, offset, text);
  }

  lemma DecodedText(piece: seq<Byte>) returns (text: string)
    requires Decode(piece).Some?
    ensures Encode(text) == piece
  {
    DecodedIsEncoded(piece);
    text := Decode(piece).value;
  }

  lemma TextEnds(source: string, i: nat, offset: nat, text: string) returns (k: nat)
    requires i <= |source| && Offset(source, i) <= offset <= |Encode(source)|
    requires Encode(text) == Encode(source)[Offset(source, i)..offset]
    ensures k <= |source| && offset == Offset(source, k)
  {
    PrefixBytes(source, i);
    BytesApart(Encode(source), Offset(source, i), offset, Encode(text));
    TextFits(source, i, text);
    k := i + |text|;
  }

  lemma BytesApart(bytes: seq<Byte>, start: nat, offset: nat, piece: seq<Byte>)
    requires start <= offset <= |bytes| && piece == bytes[start..offset]
    ensures start + |piece| == offset && bytes[..start] + piece == bytes[..offset] <= bytes
  {
  }

  lemma TextFits(source: string, i: nat, text: string)
    requires i <= |source| && Encode(source[..i]) + Encode(text) <= Encode(source)
    ensures i + |text| <= |source| && source[..i + |text|] == source[..i] + text
    ensures Offset(source, i + |text|) == Offset(source, i) + |Encode(text)|
  {
    EncodeConcat(source[..i], text);
    EncodedPrefix(source[..i] + text, source);
    assert |source[..i] + text| == i + |text|;
  }

  /** Inside a character there is no place: the slice panics. */
  lemma OnlyCharactersHavePlaces(source: string, offset: nat)
    ensures LineColumn(source, offset).Some? <==> exists k: nat :: k <= |source| && offset == Offset(source, k)
  {
    if k: nat :| k <= |source| && offset == Offset(source, k) { PlaceOfCharacter(source, k); }
    if LocationFromOffset(source, offset).Some? {
      var i := StartIsCharacter(source, offset);
      var k := SliceEndsAtCharacter(source, i, offset);
    }
    IndexAgreesWithScan(source, offset);
  }

  predicate Earlier(a: Place, b: Place) {
    a.line < b.line || (a.line == b.line && a.column < b.column)
  }

  /** Places grow strictly with the character, so different characters have different places. */
  lemma {:induction false} PlacesGrow(source: string, j: nat, k: nat)
    requires j < k <= |source|
    ensures Earlier(Walk(source, j), Walk(source, k))
  {
    if j < k - 1 { PlacesGrow(source, j, k - 1); }
  }

  lemma IndexIsInjective(source: string, j: nat, k: nat)
    requires j <= |source| && k <= |source|
    ensures LineColumn(source, Offset(source, j)) == LineColumn(source, Offset(source, k)) <==> j == k
    ensures LineColumn(source, Offset(source, j)).Some? && LineColumn(source, Offset(source, k)).Some?
    ensures j < k <==> Earlier(LineColumn(source, Offset(source, j)).value, LineColumn(source, Offset(source, k)).value)
  {
    PlaceOfCharacter(source, j);
    PlaceOfCharacter(source, k);
    if j < k { PlacesGrow(source, j, k); }
    if k < j { PlacesGrow(source, k, j); }
  }

  /** A string whose bytes begin another string's bytes begins that string. */
  lemma {:induction false} EncodedPrefix(a: string, b: string)
    requires Encode(a) <= Encode(b)
    ensures a <= b
  {
    if a != [] {
      assert Encode(a) == EncodeChar(a[0]) + Encode(a[1..]);
      assert b != [];
      assert Encode(b) == EncodeChar(b[0]) + Encode(b[1..]);
      var rest := Encode(b)[Len(a[0])..];
      assert Encode(b) == EncodeChar(a[0]) + rest;
      FirstOfEncoded(a[0], rest);
      FirstOfEncoded(b[0], Encode(b[1..]));
      assert a[0] == b[0];
      assert Encode(a[1..]) == Encode(a)[Len(a[0])..] && Encode(b[1..]) == Encode(b)[Len(a[0])..];
      EncodedPrefix(a[1..], b[1..]);
      assert a == [a[0]] + a[1..] && b == [b[0]] + b[1..];
    }
  }

  /** What a beginning that ends in the last character adds to the beginning before it. */
  lemma StartWithinLast(bytes: seq<Byte>, c: char, n: nat)
    requires 0 < n <= Len(c)
    ensures LastStart(bytes + EncodeChar(c)[..n]) == if c == '\n' then |bytes| + 1 else LastStart(bytes)
  {
    StartBytes(c, n);
    BytesAdded(bytes, EncodeChar(c)[..n], c == '\n');
  }

  lemma StartBytes(c: char, n: nat)
    requires 0 < n <= Len(c)
    ensures if c == '\n' then EncodeChar(c)[..n] == [NEWLINE]
      else forall i :: 0 <= i < n ==> EncodeChar(c)[..n][i] != NEWLINE
  {
    NewlineByte(c);
    var bytes := EncodeChar(c);
    if c != '\n' {
      forall i | 0 <= i < n ensures bytes[..n][i] != NEWLINE { assert bytes[i] != NEWLINE; }
    }
  }

  /** The start of a line is the start of a character. */
  lemma {:induction false} StartIsCharacter(source: string, offset: nat) returns (i: nat)
    requires offset <= |Encode(source)|
    ensures i <= |source| && LastStart(Encode(source)[..offset]) == Offset(source, i)
  {
    if source == [] {
      i := 0;
    } else {
      var k := |source| - 1;
      var head := source[..k];
      EncodeOneMore(source, k);
      Seqs.TakeAll(source);
      if offset <= |Encode(head)| {
        i := StartIsCharacter(head, offset);
        Seqs.TakeFirst(Encode(head), EncodeChar(source[k]), offset);
        Seqs.TakeTwice(source, k, i);
      } else {
        i := StartIsCharacter(head, |Encode(head)|);
        Seqs.TakeAll(Encode(head));
        i := StartPastHead(source, i, offset);
      }
    }
  }

  lemma StartPastHead(source: string, i: nat, offset: nat) returns (j: nat)
    requires source != [] && i < |source|
    requires var head := source[..|source| - 1];
      |Encode(head)| < offset <= |Encode(source)| && LastStart(Encode(head)) == Offset(head, i)
    ensures j <= |source| && LastStart(Encode(source)[..offset]) == Offset(source, j)
  {
    var k := |source| - 1;
    var bytes, c := Encode(source[..k]), source[k];
    EncodeOneMore(source, k);
    Seqs.TakeAll(source);
    Seqs.TakePast(bytes, EncodeChar(c), offset);
    StartWithinLast(bytes, c, offset - |bytes|);
    Seqs.TakeTwice(source, k, i);
    NewlineByte(c);
    j := if c == '\n' then k + 1 else i;
  }
}
