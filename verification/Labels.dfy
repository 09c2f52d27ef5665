/** Compact labels (analyzer/document.rs, compact_document_text): words joined by single spaces, at most 240 bytes. */
module Labels {
  import opened SourceText
  import Utf8

  const MAX_DOCUMENT_LABEL_BYTES: nat := 240

  const ELLIPSIS: char := '\U{2026}'

  /** Length in UTF-8 bytes. */
  function Bytes(s: string): nat {
    if s == [] then 0 else Bytes(s[..|s| - 1]) + Utf8.Len(s[|s| - 1])
  }

  lemma {:induction false} BytesAreEncoded(s: string)
    ensures Bytes(s) == |Utf8.Encode(s)|
  {
    if s != [] {
      var p, c := s[..|s| - 1], s[|s| - 1];
      BytesAreEncoded(p);
      assert s == p + [c];
      Utf8.EncodeConcat(p, [c]);
      Utf8.EncodeCons(c, []);
      assert [c] + [] == [c] && Utf8.EncodeChar(c) + [] == Utf8.EncodeChar(c);
    }
  }

  /** The words of a text: its maximal runs of characters that are not white. */
  function Words(v: string): (w: seq<string>)
    ensures v != [] && !IsWhite(v[|v| - 1]) ==> w != []
  {
    if v == [] then []
    else
      var w, c := Words(v[..|v| - 1]), v[|v| - 1];
      if IsWhite(c) then w
      else if |v| == 1 || IsWhite(v[|v| - 2]) then w + [[c]]
      else w[|w| - 1 := w[|w| - 1] + [c]]
  }

  function Join(w: seq<string>): string {
    if w == [] then ""
    else if |w| == 1 then w[0]
    else Join(w[..|w| - 1]) + [' '] + w[|w| - 1]
  }

  /** The text with its words joined by single spaces. */
  function Collapsed(v: string): string {
    Join(Words(v))
  }

  ghost predicate AllWords(w: seq<string>) {
    forall i :: 0 <= i < |w| ==> w[i] != []
  }

  lemma {:induction false} WordsNotEmpty(v: string)
    ensures AllWords(Words(v))
  {
    if v != [] { WordsNotEmpty(v[..|v| - 1]); }
  }

  lemma JoinAddsWord(w: seq<string>, c: char)
    requires w != []
    ensures Join(w + [[c]]) == Join(w) + [' ', c]
  {
    assert (w + [[c]])[..|w|] == w;
    assert Join(w) + [' '] + [c] == Join(w) + [' ', c];
  }

  lemma JoinExtendsWord(w: seq<string>, c: char)
    requires w != []
    ensures Join(w[|w| - 1 := w[|w| - 1] + [c]]) == Join(w) + [c]
  {
    var x := w[|w| - 1 := w[|w| - 1] + [c]];
    if |w| > 1 {
      assert x[..|w| - 1] == w[..|w| - 1];
      assert Join(w[..|w| - 1]) + [' '] + (w[|w| - 1] + [c]) == (Join(w[..|w| - 1]) + [' '] + w[|w| - 1]) + [c];
    }
  }

  lemma JoinEmpty(w: seq<string>)
    requires AllWords(w)
    ensures Join(w) == "" <==> w == []
  {
  }

  /** One more character: white space adds nothing; another one is added, after a space when it begins a later word. */
  lemma CollapsedOneMore(v: string, c: char)
    ensures Collapsed(v + [c]) ==
      if IsWhite(c) then Collapsed(v)
      else Collapsed(v) + (if Collapsed(v) != "" && IsWhite(v[|v| - 1]) then [' '] else []) + [c]
  {
    var t := v + [c];
    assert t[..|v|] == v;
    WordsNotEmpty(v);
    JoinEmpty(Words(v));
    if !IsWhite(c) {
      if v == [] {
        assert Words(t) == [[c]];
      } else if IsWhite(v[|v| - 1]) {
        if Words(v) != [] {
          JoinAddsWord(Words(v), c);
          assert Collapsed(v) + [' '] + [c] == Collapsed(v) + [' ', c];
        } else {
          assert Words(t) == [[c]];
        }
      } else {
        JoinExtendsWord(Words(v), c);
        assert Collapsed(v) + [] + [c] == Collapsed(v) + [c];
      }
    }
  }

  /** The collapsed text of a longer source begins with that of the shorter. */
  lemma {:induction false} CollapsedGrows(v: string, i: nat)
    requires i <= |v|
    ensures Collapsed(v[..i]) <= Collapsed(v)
  {
    if i == |v| {
      assert v[..i] == v;
    } else {
      var p := v[..|v| - 1];
      CollapsedGrows(p, i);
      assert p[..i] == v[..i];
      assert v == p + [v[|v| - 1]];
      CollapsedOneMore(p, v[|v| - 1]);
    }
  }

  lemma {:induction false} BytesGrow(s: string, t: string)
    requires s <= t
    ensures Bytes(s) <= Bytes(t)
  {
    if |s| < |t| { BytesGrow(s, t[..|t| - 1]); } else { assert s == t; }
  }

  /** The longest beginning of a text that fits and does not end in a space: the next character, with the space before
      it, would not fit. */
  ghost predicate CutAt(whole: string, kept: string, m: nat) {
    && kept <= whole && |kept| < m <= |kept| + 2 && m <= |whole| && (m == |kept| + 2 ==> whole[|kept|] == ' ')
    && (kept != "" ==> kept[|kept| - 1] != ' ')
    && Bytes(kept) <= MAX_DOCUMENT_LABEL_BYTES < Bytes(whole[..m])
  }

  ghost predicate Cut(whole: string, kept: string) {
    exists m: nat {:trigger whole[..m]} :: CutAt(whole, kept, m)
  }

  /** What a label says about the text it stands for. */
  ghost predicate LabelOf(value: string, text: string, truncated: bool) {
    var whole := Collapsed(value);
    && (truncated <==> Bytes(whole) > MAX_DOCUMENT_LABEL_BYTES)
    && (!truncated ==> text == whole)
    && (truncated ==> text != "" && text[|text| - 1] == ELLIPSIS && Cut(whole, text[..|text| - 1]))
  }

  lemma CutIsLabel(value: string, i: nat, kept: string)
    requires i <= |value| && CutAt(Collapsed(value[..i]), kept, |Collapsed(value[..i])|)
    ensures LabelOf(value, kept + [ELLIPSIS], true)
  {
    var next, whole := Collapsed(value[..i]), Collapsed(value);
    CollapsedGrows(value, i);
    BytesGrow(next, whole);
    assert (kept + [ELLIPSIS])[..|kept|] == kept;
    assert next[..|next|] == next == whole[..|next|];
    assert CutAt(whole, kept, |next|);
  }

  /** The label of one character more. */
  lemma OneCharacterMore(value: string, i: nat, text: string, pendingSpace: bool)
    requires i < |value| && text == Collapsed(value[..i])
    requires pendingSpace == (text != "" && IsWhite(value[i - 1]))
    ensures var (c, after) := (value[i], Collapsed(value[..i + 1]));
      if IsWhite(c) then after == text
      else
        && after == text + (if pendingSpace then [' '] else []) + [c] && after[..|after|] == after
        && Bytes(after) == Bytes(text) + Utf8.Len(c) + if pendingSpace then 1 else 0
  {
    assert value[..i + 1] == value[..i] + [value[i]];
    CollapsedOneMore(value[..i], value[i]);
    BytesOfTail(text, pendingSpace, value[i]);
  }

  lemma {:induction false} CollapsedEnds(v: string)
    ensures Collapsed(v) != "" ==> !IsWhite(Collapsed(v)[|Collapsed(v)| - 1])
  {
    if v != "" {
      var p := v[..|v| - 1];
      CollapsedEnds(p);
      assert v == p + [v[|v| - 1]];
      CollapsedOneMore(p, v[|v| - 1]);
    }
  }

  lemma CutNotLonger(whole: string, kept: string, m: nat, kept': string, m': nat)
    requires CutAt(whole, kept, m) && CutAt(whole, kept', m')
    ensures |kept| >= |kept'|
  {
    assert kept' == whole[..|kept'|];
    if |kept'| >= m { BytesGrow(whole[..m], kept'); }
  }

  /** Of two ways to cut a text neither is longer. */
  lemma CutOnce(whole: string, kept: string, kept': string)
    requires Cut(whole, kept) && Cut(whole, kept')
    ensures |kept| >= |kept'|
  {
    var m: nat :| CutAt(whole, kept, m);
    var m': nat :| CutAt(whole, kept', m');
    CutNotLonger(whole, kept, m, kept', m');
  }

  /** There is one label for a text. */
  lemma OneLabel(value: string, text: string, truncated: bool, text': string, truncated': bool)
    requires LabelOf(value, text, truncated) && LabelOf(value, text', truncated')
    ensures text == text' && truncated == truncated'
  {
    if truncated {
      var kept, kept' := text[..|text| - 1], text'[..|text'| - 1];
      CutOnce(Collapsed(value), kept, kept');
      CutOnce(Collapsed(value), kept', kept);
      assert kept == kept' && text == kept + [ELLIPSIS] && text' == kept' + [ELLIPSIS];
    }
  }

  // ---------- what the words are ----------

  ghost predicate AllWhite(s: string) {
    forall i :: 0 <= i < |s| ==> IsWhite(s[i])
  }

  ghost predicate IsWord(s: string) {
    s != "" && forall i :: 0 <= i < |s| ==> !IsWhite(s[i])
  }

  /** Words with gaps of white space before, between and after them. */
  ghost function Woven(words: seq<string>, gaps: seq<string>): string
    requires |gaps| == |words| + 1
  {
    var n := |words|;
    if words == [] then gaps[0] else Woven(words[..n - 1], gaps[..n]) + words[n - 1] + gaps[n]
  }

  ghost predicate AreGaps(gaps: seq<string>, words: seq<string>) {
    && |gaps| == |words| + 1 && (forall i :: 0 <= i < |words| ==> IsWord(words[i]))
    && (forall i :: 0 <= i < |gaps| ==> AllWhite(gaps[i])) && forall i :: 0 < i < |words| ==> gaps[i] != ""
  }

  /** The text is the words with gaps around them, and ends in white space when the last gap does. */
  ghost predicate IsWovenOf(v: string, words: seq<string>, gaps: seq<string>) {
    && AreGaps(gaps, words) && Woven(words, gaps) == v
    && (v != "" ==> (IsWhite(v[|v| - 1]) <==> gaps[|words|] != ""))
  }

  /** The words of a text are its runs of characters that are not white: the text is these words, with white space
      between any two of them and perhaps around them. */
  lemma {:induction false} WordsWoven(v: string) returns (gaps: seq<string>)
    ensures IsWovenOf(v, Words(v), gaps)
  {
    if v == "" {
      gaps := [""];
    } else {
      var p, c := v[..|v| - 1], v[|v| - 1];
      var before := WordsWoven(p);
      assert v == p + [c];
      gaps := WovenMore(p, c, Words(p), before);
    }
  }

  ghost function WordsWith(p: string, words: seq<string>, c: char): seq<string>
    requires p != "" && !IsWhite(p[|p| - 1]) ==> words != []
  {
    if IsWhite(c) then words
    else if p == "" || IsWhite(p[|p| - 1]) then words + [[c]]
    else words[|words| - 1 := words[|words| - 1] + [c]]
  }

  lemma WovenMore(p: string, c: char, words: seq<string>, before: seq<string>) returns (gaps: seq<string>)
    requires IsWovenOf(p, words, before) && (p != "" && !IsWhite(p[|p| - 1]) ==> words != [])
    ensures IsWovenOf(p + [c], WordsWith(p, words, c), gaps)
  {
    if IsWhite(c) {
      gaps := WhiteMore(words, before, c);
    } else if p == "" {
      NothingWoven(words, before);
      gaps := WordMore(words, before, c);
    } else if IsWhite(p[|p| - 1]) {
      gaps := WordMore(words, before, c);
    } else {
      gaps := before;
      LetterMore(words, before, c);
    }
  }

  lemma NothingWoven(words: seq<string>, gaps: seq<string>)
    requires AreGaps(gaps, words)
    ensures Woven(words, gaps) == "" ==> words == []
  {
    if words != [] {
      var n := |words| - 1;
      var before := Woven(words[..n], gaps[..n + 1]);
      assert |before + words[n] + gaps[n + 1]| >= |words[n]| > 0;
    }
  }

  lemma WhiteMore(words: seq<string>, before: seq<string>, c: char) returns (gaps: seq<string>)
    requires AreGaps(before, words) && IsWhite(c)
    ensures AreGaps(gaps, words) && Woven(words, gaps) == Woven(words, before) + [c] && gaps[|words|] != ""
  {
    var n := |words|;
    gaps := before[..n] + [before[n] + [c]];
    assert forall i :: 0 <= i < n ==> gaps[i] == before[i];
    if n > 0 { assert gaps[..n] == before[..n]; }
  }

  lemma WordMore(words: seq<string>, before: seq<string>, c: char) returns (gaps: seq<string>)
    requires AreGaps(before, words) && !IsWhite(c) && (words != [] ==> before[|words|] != "")
    ensures AreGaps(gaps, words + [[c]]) && Woven(words + [[c]], gaps) == Woven(words, before) + [c]
    ensures gaps[|words| + 1] == ""
  {
    gaps := before + [""];
    assert (words + [[c]])[..|words|] == words && gaps[..|words| + 1] == before;
    assert IsWord([c]);
    assert Woven(words, before) + [c] + "" == Woven(words, before) + [c];
  }

  lemma LetterMore(words: seq<string>, gaps: seq<string>, c: char)
    requires words != [] && AreGaps(gaps, words) && !IsWhite(c) && gaps[|words|] == ""
    ensures var more := words[|words| - 1 := words[|words| - 1] + [c]];
      AreGaps(gaps, more) && Woven(more, gaps) == Woven(words, gaps) + [c]
  {
    var n := |words| - 1;
    var more := words[n := words[n] + [c]];
    assert more[..n] == words[..n];
    assert IsWord(words[n] + [c]);
    var before := Woven(words[..n], gaps[..|words|]);
    assert before + (words[n] + [c]) + "" == before + words[n] + "" + [c];
  }

  /** The collapsed text is the same words with one space between any two of them. */
  lemma {:induction false} JoinIsWoven(w: seq<string>)
    ensures Join(w) == Woven(w, SingleSpaces(|w|))
  {
    if w != [] {
      var n := |w| - 1;
      JoinIsWoven(w[..n]);
      if n == 0 { OneWord(w); } else { JoinedOneMore(w, Join(w[..n])); }
    }
  }

  lemma OneWord(w: seq<string>)
    requires |w| == 1
    ensures w[0] == Woven(w, SingleSpaces(1))
  {
    var gaps := SingleSpaces(1);
    assert w[..0] == [] && gaps[0] == "" && gaps[1] == "" && gaps[..1][0] == "";
    assert Woven(w, gaps) == "" + w[0] + "";
  }

  lemma JoinedOneMore(w: seq<string>, joined: string)
    requires |w| > 1 && joined == Woven(w[..|w| - 1], SingleSpaces(|w| - 1))
    ensures joined + [' '] + w[|w| - 1] == Woven(w, SingleSpaces(|w|))
  {
    var n := |w| - 1;
    LastGap(w[..n], n);
    var before := Woven(w[..n], SingleSpaces(n + 1)[..n + 1]);
    assert before == joined + " ";
    assert before + w[n] + "" == joined + [' '] + w[n];
  }

  ghost function SingleSpaces(n: nat): (gaps: seq<string>)
    ensures |gaps| == n + 1
  {
    seq(n + 1, i => if 0 < i < n then " " else "")
  }

  lemma LastGap(w: seq<string>, n: nat)
    requires n == |w| > 0
    ensures Woven(w, SingleSpaces(n + 1)[..n + 1]) == Woven(w, SingleSpaces(n)) + " "
  {
    var gaps, more := SingleSpaces(n), SingleSpaces(n + 1)[..n + 1];
    assert gaps[..n] == more[..n] && more[n] == " " && gaps[n] == "";
    var before := Woven(w[..n - 1], gaps[..n]);
    assert before + w[n - 1] + " " == before + w[n - 1] + "" + " ";
  }

  method CompactText(value: string) returns (text: string, truncated: bool)
    ensures LabelOf(value, text, truncated)
    ensures value != "" && !IsWhite(value[0]) ==> text != ""
  {
    text := "";
    var pendingSpace := false;
    for i := 0 to |value|
      invariant text == Collapsed(value[..i])
      invariant pendingSpace == (text != "" && IsWhite(value[i - 1]))
      invariant Bytes(text) <= MAX_DOCUMENT_LABEL_BYTES
      invariant i > 0 && !IsWhite(value[0]) ==> text != ""
    {
      var c := value[i];
      OneCharacterMore(value, i, text, pendingSpace);
      if IsWhite(c) {
        pendingSpace := pendingSpace || text != "";
        continue;
      }
      var longer := text + (if pendingSpace then [' '] else []) + [c];
      if Bytes(text) + Utf8.Len(c) + (if pendingSpace then 1 else 0) > MAX_DOCUMENT_LABEL_BYTES {
        CollapsedEnds(value[..i]);
        CutIsLabel(value, i + 1, text);
        return text + [ELLIPSIS], true;
      }
      text := longer;
      pendingSpace := false;
    }
    assert value[..|value|] == value;
    truncated := false;
  }

  lemma BytesOfTail(s: string, space: bool, c: char)
    ensures Bytes(s + (if space then [' '] else []) + [c]) == Bytes(s) + Utf8.Len(c) + if space then 1 else 0
  {
    var t := s + if space then [' '] else [];
    assert (t + [c])[..|t|] == t;
    if space { assert t[..|s|] == s; } else { assert t == s; }
  }
}
