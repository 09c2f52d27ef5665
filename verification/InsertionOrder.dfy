/** JavaScript's `Map` and `Set`: keys in the order of their first insertion; setting a key again keeps its place. */
module InsertionOrder {
  import Seqs
  import opened Places

  function Keys<T>(key: T -> string, m: seq<T>): (k: seq<string>)
    ensures |k| == |m|
  {
    seq(|m|, i requires 0 <= i < |m| => key(m[i]))
  }

  ghost predicate Distinct(keys: seq<string>) {
    forall i, j :: 0 <= i < j < |keys| ==> keys[i] != keys[j]
  }

  ghost function KeySet<T>(key: T -> string, m: seq<T>): set<string> {
    set i | 0 <= i < |m| :: key(m[i])
  }

  /** The place of a key, or the length when there is none. */
  function IndexOf<T>(key: T -> string, m: seq<T>, k: string): (i: nat)
    ensures i <= |m| && (i < |m| ==> key(m[i]) == k)
    ensures forall j :: 0 <= j < i ==> key(m[j]) != k
  {
    if m == [] then 0
    else if key(m[0]) == k then 0
    else 1 + IndexOf(key, m[1..], k)
  }

  function Put<T>(key: T -> string, join: (T, T) -> T, m: seq<T>, x: T): seq<T> {
    var i := IndexOf(key, m, key(x));
    if i < |m| then m[i := join(m[i], x)] else m + [x]
  }

  function PutAll<T>(key: T -> string, join: (T, T) -> T, m: seq<T>, xs: seq<T>): seq<T> {
    if xs == [] then m else Put(key, join, PutAll(key, join, m, xs[..|xs| - 1]), xs[|xs| - 1])
  }

  function Replace<T>(): (T, T) -> T {
    (before: T, after: T) => after
  }

  ghost predicate KeepsKey<T(!new)>(key: T -> string, join: (T, T) -> T) {
    forall a, b :: key(a) == key(b) ==> key(join(a, b)) == key(a)
  }

  lemma PutKeys<T(!new)>(key: T -> string, join: (T, T) -> T, m: seq<T>, x: T)
    requires KeepsKey(key, join)
    ensures Keys(key, m) <= Keys(key, Put(key, join, m, x))
    ensures Distinct(Keys(key, m)) ==> Distinct(Keys(key, Put(key, join, m, x)))
    ensures KeySet(key, Put(key, join, m, x)) == KeySet(key, m) + {key(x)}
  {
    var i, after := IndexOf(key, m, key(x)), Put(key, join, m, x);
    if i < |m| {
      assert forall j :: 0 <= j < |m| ==> key(after[j]) == key(m[j]);
    } else {
      assert forall j :: 0 <= j < |m| ==> key(after[j]) == key(m[j]);
      assert key(after[|m|]) == key(x);
    }
  }

  /** Inserting keeps what was there in its place and adds exactly the new keys, each once. */
  lemma {:induction false} PutAllKeys<T(!new)>(key: T -> string, join: (T, T) -> T, m: seq<T>, xs: seq<T>)
    requires KeepsKey(key, join)
    ensures Keys(key, m) <= Keys(key, PutAll(key, join, m, xs))
    ensures Distinct(Keys(key, m)) ==> Distinct(Keys(key, PutAll(key, join, m, xs)))
    ensures KeySet(key, PutAll(key, join, m, xs)) == KeySet(key, m) + KeySet(key, xs)
  {
    if xs != [] {
      var n := |xs| - 1;
      PutAllKeys(key, join, m, xs[..n]);
      PutKeys(key, join, PutAll(key, join, m, xs[..n]), xs[n]);
      assert KeySet(key, xs) == KeySet(key, xs[..n]) + {key(xs[n])};
    }
  }

  lemma LastIsNew<T>(key: T -> string, xs: seq<T>)
    requires Distinct(Keys(key, xs)) && xs != []
    ensures IndexOf(key, xs[..|xs| - 1], key(xs[|xs| - 1])) == |xs| - 1
    ensures Distinct(Keys(key, xs[..|xs| - 1]))
  {
    var n := |xs| - 1;
    assert Keys(key, xs[..n]) == Keys(key, xs)[..n];
    forall i | 0 <= i < n ensures key(xs[..n][i]) != key(xs[n]) {
      assert Keys(key, xs)[i] == key(xs[i]) && Keys(key, xs)[n] == key(xs[n]);
    }
  }

  /** A list without repeated keys is its own map. */
  lemma {:induction false} DistinctIsMap<T(!new)>(key: T -> string, join: (T, T) -> T, xs: seq<T>)
    requires Distinct(Keys(key, xs))
    ensures PutAll(key, join, [], xs) == xs
  {
    if xs != [] {
      var n := |xs| - 1;
      LastIsNew(key, xs);
      DistinctIsMap(key, join, xs[..n]);
      Seqs.LastApart(xs);
    }
  }

  // ---------- what a map of a list holds ----------

  lemma {:induction false} PutAllTwice<T>(key: T -> string, join: (T, T) -> T, m: seq<T>, a: seq<T>, b: seq<T>)
    ensures PutAll(key, join, PutAll(key, join, m, a), b) == PutAll(key, join, m, a + b)
  {
    if b == [] {
      assert a + b == a;
    } else {
      PutAllTwice(key, join, m, a, b[..|b| - 1]);
      assert (a + b)[..|a + b| - 1] == a + b[..|b| - 1];
    }
  }

  /** x stands at the place `last`, the key does not come later, and it first comes at the place `first`. */
  ghost predicate IsLatestAt<T>(key: T -> string, xs: seq<T>, x: T, first: nat, last: nat) {
    && first < |xs| && last < |xs| && x == xs[last] && key(xs[first]) == key(x)
    && (forall k :: 0 <= k < first ==> key(xs[k]) != key(x))
    && (forall k :: last < k < |xs| ==> key(xs[k]) != key(x))
  }

  /** Of each key the last element, in the order in which the keys first come. */
  ghost predicate IsLatest<T>(key: T -> string, xs: seq<T>, r: seq<T>, firsts: seq<nat>, lasts: seq<nat>) {
    && |firsts| == |r| && |lasts| == |r| && Ascending(firsts)
    && (forall i :: 0 <= i < |r| ==> IsLatestAt(key, xs, r[i], firsts[i], lasts[i]))
    && KeySet(key, r) == KeySet(key, xs)
  }

  lemma LatestAtMore<T>(key: T -> string, xs: seq<T>, x: T, first: nat, last: nat)
    requires xs != [] && IsLatestAt(key, xs[..|xs| - 1], x, first, last)
    ensures key(xs[|xs| - 1]) != key(x) ==> IsLatestAt(key, xs, x, first, last)
    ensures key(xs[|xs| - 1]) == key(x) ==> IsLatestAt(key, xs, xs[|xs| - 1], first, |xs| - 1)
  {
    var some := xs[..|xs| - 1];
    assert forall k :: 0 <= k < |some| ==> some[k] == xs[k];
  }

  lemma KeySetMore<T>(key: T -> string, xs: seq<T>)
    requires xs != []
    ensures KeySet(key, xs) == KeySet(key, xs[..|xs| - 1]) + {key(xs[|xs| - 1])}
  {
  }

  /** An element whose key is there takes its place. */
  lemma LatestReplaced<T>(key: T -> string, xs: seq<T>, r: seq<T>, firsts: seq<nat>, lasts: seq<nat>, at: nat)
    requires xs != [] && IsLatest(key, xs[..|xs| - 1], r, firsts, lasts)
    requires at < |r| && key(r[at]) == key(xs[|xs| - 1])
    requires forall i :: 0 <= i < |r| && i != at ==> key(r[i]) != key(r[at])
    ensures IsLatest(key, xs, r[at := xs[|xs| - 1]], firsts, lasts[at := |xs| - 1])
  {
    var n := |xs| - 1;
    var after := r[at := xs[n]];
    forall i | 0 <= i < |r| ensures IsLatestAt(key, xs, after[i], firsts[i], lasts[at := n][i]) {
      LatestAtMore(key, xs, r[i], firsts[i], lasts[i]);
    }
    KeySetMore(key, xs);
    SameKeys(key, r, at, xs[n]);
  }

  lemma SameKeys<T>(key: T -> string, r: seq<T>, at: nat, x: T)
    requires at < |r| && key(r[at]) == key(x)
    ensures KeySet(key, r[at := x]) == KeySet(key, r)
  {
    var after := r[at := x];
    assert forall i :: 0 <= i < |r| ==> key(after[i]) == key(r[i]);
  }

  lemma KeyIsNew<T>(key: T -> string, xs: seq<T>, r: seq<T>, x: T)
    requires KeySet(key, r) == KeySet(key, xs) && forall i :: 0 <= i < |r| ==> key(r[i]) != key(x)
    ensures forall k :: 0 <= k < |xs| ==> key(xs[k]) != key(x)
  {
    forall k | 0 <= k < |xs| ensures key(xs[k]) != key(x) { assert key(xs[k]) in KeySet(key, xs); }
  }

  /** An element with a new key comes last. */
  lemma LatestAdded<T>(key: T -> string, xs: seq<T>, r: seq<T>, firsts: seq<nat>, lasts: seq<nat>)
    requires xs != [] && IsLatest(key, xs[..|xs| - 1], r, firsts, lasts)
    requires forall i :: 0 <= i < |r| ==> key(r[i]) != key(xs[|xs| - 1])
    ensures IsLatest(key, xs, r + [xs[|xs| - 1]], firsts + [|xs| - 1], lasts + [|xs| - 1])
  {
    var n := |xs| - 1;
    var some, x := xs[..n], xs[n];
    forall i | 0 <= i < |r| ensures IsLatestAt(key, xs, r[i], firsts[i], lasts[i]) && firsts[i] < n {
      assert IsLatestAt(key, some, r[i], firsts[i], lasts[i]);
      LatestAtMore(key, xs, r[i], firsts[i], lasts[i]);
    }
    KeyIsNew(key, some, r, x);
    assert forall k :: 0 <= k < n ==> some[k] == xs[k];
    assert IsLatestAt(key, xs, x, n, n);
    KeySetMore(key, xs);
    KeySetMore(key, r + [x]);
    Seqs.TakeFirst(r, [x], |r|);
    Seqs.TakeAll(r);
  }

  lemma LatestPut<T(!new)>(key: T -> string, xs: seq<T>, r: seq<T>, firsts: seq<nat>, lasts: seq<nat>)
    returns (firsts': seq<nat>, lasts': seq<nat>)
    requires xs != [] && IsLatest(key, xs[..|xs| - 1], r, firsts, lasts) && Distinct(Keys(key, r))
    ensures IsLatest(key, xs, Put(key, Replace(), r, xs[|xs| - 1]), firsts', lasts')
  {
    var at := IndexOf(key, r, key(xs[|xs| - 1]));
    if at < |r| {
      forall i | 0 <= i < |r| && i != at ensures key(r[i]) != key(r[at]) {
        assert Keys(key, r)[i] != Keys(key, r)[at];
      }
      LatestReplaced(key, xs, r, firsts, lasts, at);
      firsts', lasts' := firsts, lasts[at := |xs| - 1];
    } else {
      LatestAdded(key, xs, r, firsts, lasts);
      firsts', lasts' := firsts + [|xs| - 1], lasts + [|xs| - 1];
    }
  }

  /** A map filled from a list holds of each key the last element, in the order in which the keys first come. */
  lemma {:induction false} FilledIsLatest<T(!new)>(key: T -> string, xs: seq<T>)
    returns (firsts: seq<nat>, lasts: seq<nat>)
    ensures IsLatest(key, xs, PutAll(key, Replace(), [], xs), firsts, lasts)
  {
    if xs == [] {
      firsts, lasts := [], [];
    } else {
      var some := xs[..|xs| - 1];
      firsts, lasts := FilledIsLatest(key, some);
      PutAllKeys(key, Replace(), [], some);
      firsts, lasts := LatestPut(key, xs, PutAll(key, Replace(), [], some), firsts, lasts);
    }
  }

  lemma IndexByKeys<T>(key: T -> string, m: seq<T>, m': seq<T>, k: string)
    requires Keys(key, m) == Keys(key, m')
    ensures IndexOf(key, m, k) == IndexOf(key, m', k)
  {
    assert forall i :: 0 <= i < |m| ==> key(m[i]) == Keys(key, m)[i] == key(m'[i]);
  }

  lemma PutSameKeys<T(!new)>(key: T -> string, join: (T, T) -> T, m: seq<T>, m': seq<T>, x: T)
    requires KeepsKey(key, join) && Keys(key, m) == Keys(key, m')
    ensures Keys(key, Put(key, join, m, x)) == Keys(key, Put(key, Replace(), m', x))
  {
    IndexByKeys(key, m, m', key(x));
    var a, b := Put(key, join, m, x), Put(key, Replace(), m', x);
    forall i | 0 <= i < |m| ensures key(a[i]) == key(b[i]) {
      assert Keys(key, m)[i] == key(m[i]) && Keys(key, m')[i] == key(m'[i]);
    }
  }

  /** Which keys there are, and in which order, does not depend on how values are joined. */
  lemma {:induction false} SameKeysInOrder<T(!new)>(key: T -> string, join: (T, T) -> T, m: seq<T>, m': seq<T>,
                                                    xs: seq<T>)
    requires KeepsKey(key, join) && Keys(key, m) == Keys(key, m')
    ensures Keys(key, PutAll(key, join, m, xs)) == Keys(key, PutAll(key, Replace(), m', xs))
  {
    if xs != [] {
      SameKeysInOrder(key, join, m, m', xs[..|xs| - 1]);
      PutSameKeys(key, join, PutAll(key, join, m, xs[..|xs| - 1]), PutAll(key, Replace(), m', xs[..|xs| - 1]),
                  xs[|xs| - 1]);
    }
  }
}
