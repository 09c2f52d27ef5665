/** Rust compares strings by their UTF-8 bytes. That is the order of code points, in which Lex compares. */
module ByteOrder {
  import opened Utf8
  import Lex
  import Seqs

  predicate BytesLess(a: seq<Byte>, b: seq<Byte>) {
    if b == [] then false
    else if a == [] then true
    else if a[0] != b[0] then a[0] < b[0]
    else BytesLess(a[1..], b[1..])
  }

  lemma {:induction false} NotBoth(a: seq<Byte>, b: seq<Byte>)
    ensures !(BytesLess(a, b) && BytesLess(b, a))
  {
    if a != [] && b != [] && a[0] == b[0] { NotBoth(a[1..], b[1..]); }
  }

  /** The bytes that both begin with make no difference. */
  lemma {:induction false} SameBeginning(p: seq<Byte>, a: seq<Byte>, b: seq<Byte>)
    ensures BytesLess(p + a, p + b) <==> BytesLess(a, b)
  {
    if p == [] {
      assert p + a == a && p + b == b;
    } else {
      SameBeginning(p[1..], a, b);
      assert (p + a)[1..] == p[1..] + a && (p + b)[1..] == p[1..] + b;
    }
  }

  /** The first byte that differs decides. */
  lemma FirstDecides(p: seq<Byte>, x: Byte, y: Byte, a: seq<Byte>, b: seq<Byte>)
    requires x < y
    ensures BytesLess(p + ([x] + a), p + ([y] + b))
  {
    SameBeginning(p, [x] + a, [y] + b);
  }

  /** The first place where two encodings differ, and that the smaller character has the smaller byte there. */
  lemma WhereCharsDiffer(c: char, d: char) returns (k: nat)
    requires c < d
    ensures k < Len(c) && k < Len(d)
    ensures EncodeChar(c)[..k] == EncodeChar(d)[..k] && EncodeChar(c)[k] < EncodeChar(d)[k]
  {
    k := 0;
    if EncodeChar(c)[0] == EncodeChar(d)[0] {
      var v, w := c as int, d as int;
      LeadsTellLengths(c, d);
      DigitsDecide(v, w, 64);
      DigitsDecide(v / 64, w / 64, 64);
      DigitsDecide(v / 4096, w / 4096, 64);
      DivTwice(v);
      DivTwice(w);
      var third, second := v / 64 % 64 == w / 64 % 64, v / 4096 % 64 == w / 4096 % 64;
      k := if Len(c) == 2 then 1
           else if Len(c) == 3 then if third then 2 else 1
           else if second then if third then 3 else 2 else 1;
    }
  }

  lemma DigitsDecide(v: int, w: int, base: int)
    requires 0 <= v && 0 <= w && base == 64
    ensures v / base == w / base ==> (v < w <==> v % base < w % base)
    ensures v < w ==> v / base <= w / base
  {
  }

  lemma DivTwice(v: int)
    requires v >= 0
    ensures v / 64 / 64 == v / 4096 && v / 4096 / 64 == v / 262144
  {
  }

  lemma LeadsTellLengths(c: char, d: char)
    ensures Len(c) < Len(d) ==> EncodeChar(c)[0] < EncodeChar(d)[0]
    ensures Len(c) == Len(d) && c < d ==> EncodeChar(c)[0] <= EncodeChar(d)[0]
  {
  }

  lemma CharsInOrder(c: char, d: char, a: seq<Byte>, b: seq<Byte>)
    requires c < d
    ensures BytesLess(EncodeChar(c) + a, EncodeChar(d) + b)
  {
    LeadsTellLengths(c, d);
    LeadsTellLengths(d, c);
    var k := WhereCharsDiffer(c, d);
    var p, q := EncodeChar(c), EncodeChar(d);
    Seqs.AtPlace(p, k, a);
    Seqs.AtPlace(q, k, b);
    FirstDecides(p[..k], p[k], q[k], p[k + 1..] + a, q[k + 1..] + b);
  }

  /** The order of the strings is the order of their bytes. */
  lemma {:induction false} LessIsByteOrder(a: string, b: string)
    ensures Lex.Less(a, b) <==> BytesLess(Encode(a), Encode(b))
  {
    if a != [] && b != [] {
      if a[0] < b[0] {
        CharsInOrder(a[0], b[0], Encode(a[1..]), Encode(b[1..]));
      } else if b[0] < a[0] {
        CharsInOrder(b[0], a[0], Encode(b[1..]), Encode(a[1..]));
        NotBoth(Encode(a), Encode(b));
      } else {
        LessIsByteOrder(a[1..], b[1..]);
        SameBeginning(EncodeChar(a[0]), Encode(a[1..]), Encode(b[1..]));
      }
    }
  }
}
