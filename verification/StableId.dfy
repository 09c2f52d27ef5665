/** Identifiers made by hashing a length-prefixed encoding (analyzer/ids.rs).
    BLAKE3 is a parameter: any function from bytes to text. Statements that need it take it to be collision-free. */
module StableId {
  import opened Utf8

  type Hash = seq<Byte> -> string

  ghost predicate CollisionFree(hash: Hash) {
    forall a, b :: hash(a) == hash(b) ==> a == b
  }

  const U64: nat := 0x1_0000_0000_0000_0000

  /** Little-endian bytes of a number, as many as asked for. */
  function LittleEndian(n: nat, width: nat): (b: seq<Byte>)
    ensures |b| == width
  {
    if width == 0 then [] else [n % 256] + LittleEndian(n / 256, width - 1)
  }

  function LengthBytes(n: nat): (b: seq<Byte>)
    ensures |b| == 8
  {
    LittleEndian(n, 8)
  }

  function Framed(part: string): seq<Byte> {
    LengthBytes(|Encode(part)|) + Encode(part)
  }

  function FramedAll(parts: seq<string>): seq<Byte> {
    if parts == [] then [] else Framed(parts[0]) + FramedAll(parts[1..])
  }

  function Preimage(prefix: string, parts: seq<string>): seq<Byte> {
    Encode(prefix) + FramedAll(parts)
  }

  function Id(hash: Hash, prefix: string, parts: seq<string>): string {
    prefix + ":" + hash(Preimage(prefix, parts))
  }

  /** A string that a 64-bit machine can hold: its length in bytes is a u64. */
  predicate Fits(part: string) {
    |Encode(part)| < U64
  }

  predicate AllFit(parts: seq<string>) {
    forall i :: 0 <= i < |parts| ==> Fits(parts[i])
  }

  /** stable_id: the prefix and then every part, each after its own length, goes into the hasher. */
  method MakeId(hash: Hash, prefix: string, parts: seq<string>) returns (id: string)
    ensures id == Id(hash, prefix, parts)
  {
    var fed := Encode(prefix);
    for i := 0 to |parts|
      invariant fed + FramedAll(parts[i..]) == Preimage(prefix, parts)
    {
      assert parts[i..][0] == parts[i] && parts[i..][1..] == parts[i + 1..];
      assert fed + (Framed(parts[i]) + FramedAll(parts[i + 1..])) ==
        (fed + Framed(parts[i])) + FramedAll(parts[i + 1..]);
      fed := fed + (LengthBytes(|Encode(parts[i])|) + Encode(parts[i]));
    }
    assert fed == fed + FramedAll(parts[|parts|..]) == Preimage(prefix, parts);
    id := prefix + ":" + hash(fed);
  }

  // ---------- the encoding is injective ----------

  lemma {:induction false} LittleEndianInjective(m: nat, n: nat, width: nat, bound: nat)
    requires LittleEndian(m, width) == LittleEndian(n, width)
    requires m < bound && n < bound && bound == Pow256(width)
    ensures m == n
  {
    if width != 0 {
      assert LittleEndian(m, width)[0] == LittleEndian(n, width)[0];
      assert LittleEndian(m, width)[1..] == LittleEndian(n, width)[1..];
      LittleEndianInjective(m / 256, n / 256, width - 1, Pow256(width - 1));
    }
  }

  ghost function Pow256(k: nat): nat {
    if k == 0 then 1 else 256 * Pow256(k - 1)
  }

  lemma LengthBytesInjective(m: nat, n: nat)
    requires LengthBytes(m) == LengthBytes(n) && m < U64 && n < U64
    ensures m == n
  {
    assert Pow256(4) == 0x1_0000_0000;
    assert Pow256(8) == U64 by { assert Pow256(6) == 256 * 256 * Pow256(4); }
    LittleEndianInjective(m, n, 8, U64);
  }

  /** A framed part can be read back off the front of any byte string. */
  lemma FramedSplits(p: string, q: string, x: seq<Byte>, y: seq<Byte>)
    requires Framed(p) + x == Framed(q) + y && Fits(p) && Fits(q)
    ensures p == q && x == y
  {
    assert (Framed(p) + x)[..8] == LengthBytes(|Encode(p)|);
    assert (Framed(q) + y)[..8] == LengthBytes(|Encode(q)|);
    LengthBytesInjective(|Encode(p)|, |Encode(q)|);
    var n := 8 + |Encode(p)|;
    assert Encode(p) == (Framed(p) + x)[8..n] == (Framed(q) + y)[8..n] == Encode(q);
    EncodeInjective(p, q);
    assert x == (Framed(p) + x)[n..] && y == (Framed(q) + y)[n..];
  }

  lemma {:induction false} FramedAllInjective(ps: seq<string>, qs: seq<string>)
    requires FramedAll(ps) == FramedAll(qs) && AllFit(ps) && AllFit(qs)
    ensures ps == qs
  {
    if ps != [] && qs != [] {
      FramedSplits(ps[0], qs[0], FramedAll(ps[1..]), FramedAll(qs[1..]));
      FramedAllInjective(ps[1..], qs[1..]);
      assert ps == [ps[0]] + ps[1..] && qs == [qs[0]] + qs[1..];
    }
  }

  /** For one prefix, different lists of parts have different encodings, however many parts there are. */
  lemma PreimageInjective(prefix: string, ps: seq<string>, qs: seq<string>)
    requires AllFit(ps) && AllFit(qs)
    ensures Preimage(prefix, ps) == Preimage(prefix, qs) <==> ps == qs
  {
    if Preimage(prefix, ps) == Preimage(prefix, qs) {
      var n := |Encode(prefix)|;
      assert FramedAll(ps) == Preimage(prefix, ps)[n..] && FramedAll(qs) == Preimage(prefix, qs)[n..];
      FramedAllInjective(ps, qs);
    }
  }

  /** Identifiers with prefixes free of ':' name their prefix and parts uniquely. */
  lemma IdInjective(hash: Hash, p: string, q: string, ps: seq<string>, qs: seq<string>)
    requires CollisionFree(hash) && ':' !in p && ':' !in q && AllFit(ps) && AllFit(qs)
    ensures Id(hash, p, ps) == Id(hash, q, qs) <==> p == q && ps == qs
  {
    var a, b := Id(hash, p, ps), Id(hash, q, qs);
    if a == b {
      assert a[|p|] == ':' && b[|q|] == ':';
      assert forall i :: 0 <= i < |p| ==> a[i] == p[i] && a[i] in p;
      assert forall i :: 0 <= i < |q| ==> b[i] == q[i] && b[i] in q;
      assert |p| == |q|;
      assert p == a[..|p|] && q == b[..|q|];
      assert hash(Preimage(p, ps)) == a[|p| + 1..] && hash(Preimage(q, qs)) == b[|q| + 1..];
      PreimageInjective(p, ps, qs);
    }
  }

  /** Equal identifiers have the same prefix, whatever the hash, when the prefixes hold no ':'. */
  lemma PrefixOfId(hash: Hash, p: string, q: string, ps: seq<string>, qs: seq<string>)
    requires ':' !in p && ':' !in q && Id(hash, p, ps) == Id(hash, q, qs)
    ensures p == q
  {
    var a := Id(hash, p, ps);
    FirstColon(p, hash(Preimage(p, ps)));
    FirstColon(q, hash(Preimage(q, qs)));
    assert |p| == |q|;
    assert p == a[..|p|] && q == a[..|q|];
  }

  lemma FirstColon(p: string, rest: string)
    requires ':' !in p
    ensures var a := p + ":" + rest;
      a[|p|] == ':' && forall i :: 0 <= i < |p| ==> a[i] != ':'
  {
    var a := p + ":" + rest;
    assert forall i :: 0 <= i < |p| ==> a[i] == p[i] && p[i] in p;
  }

  // ---------- decimal ordinals ----------

  function Digit(d: nat): char
    requires d < 10
  {
    ('0' as int + d) as char
  }

  function Decimal(n: nat): (s: string)
    ensures s != []
    ensures ':' !in s
  {
    if n < 10 then [Digit(n)] else Decimal(n / 10) + [Digit(n % 10)]
  }

  lemma {:induction false} DecimalInjective(m: nat, n: nat)
    requires Decimal(m) == Decimal(n)
    ensures m == n
  {
    var a, b := Decimal(m), Decimal(n);
    assert a[|a| - 1] == Digit(m % 10) && b[|b| - 1] == Digit(n % 10);
    assert m % 10 == n % 10;
    if m >= 10 && n >= 10 {
      assert Decimal(m / 10) == a[..|a| - 1] == b[..|b| - 1] == Decimal(n / 10);
      DecimalInjective(m / 10, n / 10);
    }
  }

  ghost function ReadDecimal(s: string): int {
    if s == [] then 0 else 10 * ReadDecimal(s[..|s| - 1]) + (s[|s| - 1] as int - '0' as int)
  }

  /** Decimal text, read from the left, is the number, and its first digit is 0 only for 0. */
  lemma {:induction false} DecimalReads(n: nat)
    ensures ReadDecimal(Decimal(n)) == n && forall i :: 0 <= i < |Decimal(n)| ==> '0' <= Decimal(n)[i] <= '9'
    ensures Decimal(n)[0] == '0' <==> n == 0
  {
    if n >= 10 {
      DecimalReads(n / 10);
      assert Decimal(n)[..|Decimal(n)| - 1] == Decimal(n / 10);
    } else {
      assert Decimal(n)[..0] == [];
    }
  }

  ghost function ReadLittleEndian(b: seq<Byte>): nat {
    if b == [] then 0 else b[0] + 256 * ReadLittleEndian(b[1..])
  }

  lemma {:induction false} LittleEndianReads(n: nat, width: nat)
    requires n < Pow256(width)
    ensures ReadLittleEndian(LittleEndian(n, width)) == n
  {
    if width != 0 {
      LittleEndianReads(n / 256, width - 1);
      assert LittleEndian(n, width)[1..] == LittleEndian(n / 256, width - 1);
    }
  }

  /** Lengths go into the hasher as eight bytes, the least significant first. */
  lemma LengthBytesRead(n: nat)
    requires n < U64
    ensures |LengthBytes(n)| == 8 && ReadLittleEndian(LengthBytes(n)) == n
  {
    assert Pow256(4) == 0x1_0000_0000;
    assert Pow256(8) == U64 by { assert Pow256(6) == 256 * 256 * Pow256(4); }
    LittleEndianReads(n, 8);
  }
}
