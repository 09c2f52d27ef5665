/** UTF-8 (RFC 3629): how a string is laid out in bytes, and back.
    Strings are sequences of Unicode scalar values; bytes are numbers below 256. */
module Utf8 {
  import opened Options
  import Seqs

  type Byte = b: int | 0 <= b < 256

  /** Bytes a character takes (Rust's `len_utf8`). */
  function Len(c: char): (n: nat)
    ensures 1 <= n <= 4
  {
    var v := c as int;
    if v < 0x80 then 1 else if v < 0x800 then 2 else if v < 0x1_0000 then 3 else 4
  }

  function EncodeChar(c: char): (b: seq<Byte>)
    ensures |b| == Len(c)
  {
    var v := c as int;
    if v < 0x80 then [v]
    else if v < 0x800 then [0xC0 + v / 64, 0x80 + v % 64]
    else if v < 0x1_0000 then [0xE0 + v / 4096, 0x80 + v / 64 % 64, 0x80 + v % 64]
    else [0xF0 + v / 262144, 0x80 + v / 4096 % 64, 0x80 + v / 64 % 64, 0x80 + v % 64]
  }

  function Encode(s: string): (b: seq<Byte>) {
    if s == [] then [] else EncodeChar(s[0]) + Encode(s[1..])
  }

  /** The number that a leading byte and the bytes after it spell; negative when there is none. */
  function Spelled(b: seq<Byte>): int
    requires b != []
  {
    var at := (i: int) requires 0 <= i < |b| => b[i] as int;
    if at(0) < 0x80 then at(0)
    else if at(0) < 0xE0 && |b| >= 2 then (at(0) - 0xC0) * 64 + (at(1) - 0x80)
    else if at(0) < 0xF0 && |b| >= 3 then ((at(0) - 0xE0) * 64 + (at(1) - 0x80)) * 64 + (at(2) - 0x80)
    else if |b| >= 4 then
      (((at(0) - 0xF0) * 64 + (at(1) - 0x80)) * 64 + (at(2) - 0x80)) * 64 + (at(3) - 0x80)
    else -1
  }

  predicate IsScalar(v: int) {
    0 <= v < 0xD800 || 0xE000 <= v < 0x11_0000
  }

  /** The character whose encoding begins the bytes, if there is one. */
  function FirstChar(b: seq<Byte>): (c: Option<char>)
    requires b != []
    ensures c.Some? ==> EncodeChar(c.value) <= b
  {
    var v := Spelled(b);
    if IsScalar(v) && EncodeChar(v as char) <= b then Some(v as char) else None
  }

  /** Strict decoding: overlong forms, surrogates and stray bytes are errors. */
  function Decode(b: seq<Byte>): (r: Option<string>) {
    if b == [] then Some([])
    else
      match FirstChar(b)
      case None => None
      case Some(c) =>
        match Decode(b[Len(c)..])
        case None => None
        case Some(tail) => Some([c] + tail)
  }

  lemma SpelledEncoded(c: char, rest: seq<Byte>)
    ensures Spelled(EncodeChar(c) + rest) == c as int
  {
    var v := c as int;
    assert v == v / 64 * 64 + v % 64;
    assert v / 64 == v / 4096 * 64 + v / 64 % 64;
    assert v / 4096 == v / 262144 * 64 + v / 4096 % 64;
  }

  lemma EncodeCons(c: char, s: string)
    ensures Encode([c] + s) == EncodeChar(c) + Encode(s)
  {
    assert ([c] + s)[0] == c && ([c] + s)[1..] == s;
  }

  lemma FirstOfEncoded(c: char, rest: seq<Byte>)
    ensures FirstChar(EncodeChar(c) + rest) == Some(c)
  {
    SpelledEncoded(c, rest);
  }

  lemma DecodeCons(c: char, rest: seq<Byte>)
    ensures Decode(EncodeChar(c) + rest) ==
      if Decode(rest) == None then None else Some([c] + Decode(rest).value)
  {
    FirstOfEncoded(c, rest);
    assert (EncodeChar(c) + rest)[Len(c)..] == rest;
  }

  /** Decoding inverts encoding, and nothing but an encoding decodes. */
  lemma {:induction false} RoundTrip(s: string)
    ensures Decode(Encode(s)) == Some(s)
  {
    if s != [] {
      RoundTrip(s[1..]);
      DecodeCons(s[0], Encode(s[1..]));
      assert s == [s[0]] + s[1..];
    }
  }

  lemma {:induction false} DecodedIsEncoded(b: seq<Byte>)
    ensures Decode(b).Some? ==> Encode(Decode(b).value) == b
  {
    if b != [] && FirstChar(b).Some? {
      var c := FirstChar(b).value;
      var rest := b[Len(c)..];
      DecodedIsEncoded(rest);
      assert b == EncodeChar(c) + rest;
      if Decode(rest).Some? { EncodeCons(c, Decode(rest).value); }
    }
  }

  lemma EncodeInjective(s: string, t: string)
    requires Encode(s) == Encode(t)
    ensures s == t
  {
    RoundTrip(s);
    RoundTrip(t);
  }

  lemma {:induction false} EncodeConcat(s: string, t: string)
    ensures Encode(s + t) == Encode(s) + Encode(t)
  {
    if s == [] {
      assert s + t == t;
    } else {
      EncodeConcat(s[1..], t);
      assert (s + t)[1..] == s[1..] + t && (s + t)[0] == s[0];
      Seqs.Associative(EncodeChar(s[0]), Encode(s[1..]), Encode(t));
    }
  }
}
