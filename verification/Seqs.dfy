/** Facts about sequences that the loops share. */
module Seqs {

  /** What a function gives for each element. */
  ghost function Mapped<T, U>(f: T -> U, q: seq<T>): (r: seq<U>)
    ensures |r| == |q| && forall i :: 0 <= i < |q| ==> r[i] == f(q[i])
  {
    seq(|q|, i requires 0 <= i < |q| => f(q[i]))
  }

  lemma TakeOneMore<T>(q: seq<T>, i: nat)
    requires i < |q|
    ensures q[..i + 1] == q[..i] + [q[i]]
  {
  }

  lemma TakeAll<T>(q: seq<T>)
    ensures q[..|q|] == q
  {
  }

  lemma TakeTwice<T>(q: seq<T>, k: nat, i: nat)
    requires i <= k <= |q|
    ensures q[..k][..i] == q[..i]
  {
  }

  lemma DropTwice<T>(q: seq<T>, i: nat, j: nat)
    requires i + j <= |q|
    ensures q[i..][j..] == q[i + j..]
  {
  }

  lemma TakeFirst<T>(a: seq<T>, b: seq<T>, n: nat)
    requires n <= |a|
    ensures (a + b)[..n] == a[..n]
  {
  }

  lemma TakePast<T>(a: seq<T>, b: seq<T>, n: nat)
    requires |a| <= n <= |a| + |b|
    ensures (a + b)[..n] == a + b[..n - |a|]
  {
  }

  lemma LastApart<T>(q: seq<T>)
    requires q != []
    ensures q == q[..|q| - 1] + [q[|q| - 1]]
  {
  }

  lemma Associative<T>(a: seq<T>, b: seq<T>, c: seq<T>)
    ensures a + (b + c) == (a + b) + c
  {
  }

  lemma AtPlace<T>(q: seq<T>, k: nat, rest: seq<T>)
    requires k < |q|
    ensures q + rest == q[..k] + ([q[k]] + (q[k + 1..] + rest))
  {
  }

  lemma Regroup<T>(a: seq<T>, b: seq<T>, c: seq<T>, d: seq<T>)
    ensures a + (b + c + d) == (a + b + c) + d
  {
  }

  lemma {:induction false} SubsetSize<T>(a: set<T>, b: set<T>)
    requires a <= b
    ensures |a| <= |b|
  {
    if a != {} {
      var x :| x in a;
      SubsetSize(a - {x}, b - {x});
    }
  }

  /** The pieces between separators; a sequence without any is one piece. */
  function Split<T(==)>(separator: T, s: seq<T>): (pieces: seq<seq<T>>)
    ensures pieces != []
  {
    if s == [] then [[]]
    else
      var rest := Split(separator, s[1..]);
      if s[0] == separator then [[]] + rest else [[s[0]] + rest[0]] + rest[1..]
  }

  lemma {:induction false} SplitFirst<T>(separator: T, piece: seq<T>, rest: seq<T>)
    requires separator !in piece
    ensures Split(separator, piece + ([separator] + rest)) == [piece] + Split(separator, rest)
  {
    var all := piece + ([separator] + rest);
    if piece == [] {
      assert all[1..] == rest;
    } else {
      assert all[0] == piece[0] && all[1..] == piece[1..] + ([separator] + rest);
      SplitFirst(separator, piece[1..], rest);
      var pieces := [piece[1..]] + Split(separator, rest);
      assert pieces[1..] == Split(separator, rest) && [piece[0]] + piece[1..] == piece;
    }
  }

  lemma {:induction false} SplitNone<T>(separator: T, s: seq<T>)
    requires separator !in s
    ensures Split(separator, s) == [s]
  {
    if s != [] {
      SplitNone(separator, s[1..]);
      assert [s[0]] + s[1..] == s;
    }
  }
}
