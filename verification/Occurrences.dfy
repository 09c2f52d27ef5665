/** Identifiers numbered by occurrence: the n-th use of one semantic identity gets the ordinal n
    (document segments, named definitions and static events all use this scheme). */
module Occurrences {
  import Utf8
  import opened StableId

  ghost function CountIn(seen: seq<string>, s: string): nat {
    if seen == [] then 0
    else CountIn(seen[..|seen| - 1], s) + if seen[|seen| - 1] == s then 1 else 0
  }

  /** The identifier of the k-th use. */
  ghost function NumberedId(hash: Hash, prefix: string, seen: seq<string>, k: nat): string
    requires k < |seen|
  {
    Id(hash, prefix, [seen[k], Decimal(CountIn(seen[..k], seen[k]))])
  }

  /** A count of uses so far, by semantic identity. */
  class Counter {
    var counts: map<string, nat>
    ghost var seen: seq<string>

    ghost predicate Valid()
      reads this
    {
      forall s :: CountIn(seen, s) == if s in counts then counts[s] else 0
    }

    constructor ()
      ensures Valid() && seen == []
    {
      counts := map[];
      seen := [];
    }

    method Next(hash: Hash, prefix: string, semantic: string) returns (id: string)
      requires Valid()
      modifies this
      ensures Valid()
      ensures seen == old(seen) + [semantic]
      ensures id == NumberedId(hash, prefix, seen, |old(seen)|)
    {
      var occurrence := if semantic in counts then counts[semantic] else 0;
      var ordinal := Decimal(occurrence);
      counts := counts[semantic := occurrence + 1];
      id := MakeId(hash, prefix, [semantic, ordinal]);
      ghost var before := seen;
      seen := seen + [semantic];
      assert seen[..|before|] == before;
      assert forall s :: CountIn(seen, s) == CountIn(before, s) + if semantic == s then 1 else 0;
    }
  }

  /** Later uses of one identity have larger ordinals. */
  lemma {:induction false} CountGrows(seen: seq<string>, s: string, i: nat, j: nat)
    requires i <= j <= |seen|
    ensures CountIn(seen[..i], s) <= CountIn(seen[..j], s)
    ensures i < j && seen[i] == s ==> CountIn(seen[..i], s) < CountIn(seen[..j], s)
    decreases j
  {
    if i < j {
      assert seen[..j][..j - 1] == seen[..j - 1];
      CountGrows(seen, s, i, j - 1);
    }
  }

  /** However often identities repeat, all the numbered identifiers are different. */
  lemma NumberedDistinct(hash: Hash, prefix: string, seen: seq<string>, i: nat, j: nat)
    requires CollisionFree(hash) && i < j < |seen| < U64 && AllFit(seen)
    ensures NumberedId(hash, prefix, seen, i) != NumberedId(hash, prefix, seen, j)
  {
    var m, n := CountIn(seen[..i], seen[i]), CountIn(seen[..j], seen[j]);
    if NumberedId(hash, prefix, seen, i) == NumberedId(hash, prefix, seen, j) {
      CountAtMostLength(seen[..i], seen[i]);
      CountAtMostLength(seen[..j], seen[j]);
      DecimalShort(m);
      DecimalShort(n);
      var p, q := [seen[i], Decimal(m)], [seen[j], Decimal(n)];
      SamePrefix(hash, prefix, p, q);
      assert p[0] == q[0] && p[1] == q[1];
      DecimalInjective(m, n);
      CountGrows(seen, seen[i], i, j);
    }
  }

  lemma {:induction false} CountAtMostLength(seen: seq<string>, s: string)
    ensures CountIn(seen, s) <= |seen|
  {
    if seen != [] { CountAtMostLength(seen[..|seen| - 1], s); }
  }

  lemma {:induction false} DecimalShort(n: nat)
    ensures |Utf8.Encode(Decimal(n))| <= n + 1
  {
    if n < 10 {
      assert Utf8.Encode([Digit(n)]) == Utf8.EncodeChar(Digit(n)) + Utf8.Encode([]);
    } else {
      DecimalShort(n / 10);
      Utf8.EncodeConcat(Decimal(n / 10), [Digit(n % 10)]);
      assert Utf8.Encode([Digit(n % 10)]) == Utf8.EncodeChar(Digit(n % 10)) + Utf8.Encode([]);
    }
  }

  lemma SamePrefix(hash: Hash, prefix: string, ps: seq<string>, qs: seq<string>)
    requires CollisionFree(hash) && AllFit(ps) && AllFit(qs)
    requires Id(hash, prefix, ps) == Id(hash, prefix, qs)
    ensures ps == qs
  {
    var n := |prefix| + 1;
    assert hash(Preimage(prefix, ps)) == Id(hash, prefix, ps)[n..];
    assert hash(Preimage(prefix, qs)) == Id(hash, prefix, qs)[n..];
    PreimageInjective(prefix, ps, qs);
  }
}
