/** The order Rust gives to `String`, and sets of strings walked in that order.
    Characters are compared by their code points; ByteOrder shows that Rust's comparison of UTF-8 bytes is the same. */
module Lex {

  predicate Less(a: string, b: string) {
    if b == [] then false
    else if a == [] then true
    else if a[0] != b[0] then a[0] < b[0]
    else Less(a[1..], b[1..])
  }

  predicate AtMost(a: string, b: string) {
    a == b || Less(a, b)
  }

  lemma {:induction false} Trichotomy(a: string, b: string)
    ensures Less(a, b) || a == b || Less(b, a)
    ensures !(Less(a, b) && Less(b, a))
    ensures Less(a, b) ==> a != b
  {
    if a != [] && b != [] && a[0] == b[0] {
      Trichotomy(a[1..], b[1..]);
      assert a == [a[0]] + a[1..] && b == [b[0]] + b[1..];
    }
  }

  lemma {:induction false} Transitive(a: string, b: string, c: string)
    requires Less(a, b) && Less(b, c)
    ensures Less(a, c)
  {
    if a != [] && a[0] == b[0] == c[0] {
      Transitive(a[1..], b[1..], c[1..]);
    }
  }

  predicate IsLeast(m: string, s: set<string>) {
    m in s && forall x :: x in s ==> AtMost(m, x)
  }

  lemma {:induction false} LeastExists(s: set<string>)
    requires s != {}
    ensures exists m :: IsLeast(m, s)
  {
    var x :| x in s;
    if s == {x} {
      assert IsLeast(x, s);
    } else {
      var rest := s - {x};
      LeastExists(rest);
      var m :| IsLeast(m, rest);
      Trichotomy(m, x);
      if Less(x, m) {
        forall y | y in s ensures AtMost(x, y) {
          if y != x {
            assert y in rest;
            if y != m { Transitive(x, m, y); }
          }
        }
        assert IsLeast(x, s);
      } else {
        assert IsLeast(m, s);
      }
    }
  }

  ghost predicate Ascending(q: seq<string>) {
    forall i, j :: 0 <= i < j < |q| ==> Less(q[i], q[j])
  }

  /** The elements of a set in ascending order: how a BTreeSet, or the keys of a BTreeMap, are walked. */
  ghost function Sorted(s: set<string>): (q: seq<string>)
    ensures Ascending(q)
    ensures forall x :: x in q <==> x in s
    ensures |q| == |s|
  {
    if s == {} then []
    else
      LeastExists(s);
      var m :| IsLeast(m, s);
      var tail := Sorted(s - {m});
      assert forall j :: 0 <= j < |tail| ==> tail[j] in tail && tail[j] in s && tail[j] != m && AtMost(m, tail[j]);
      [m] + tail
  }

  lemma AscendingDistinct(q: seq<string>)
    requires Ascending(q)
    ensures forall i, j :: 0 <= i < j < |q| ==> q[i] != q[j]
  {
    forall i, j | 0 <= i < j < |q| ensures q[i] != q[j] {
      Trichotomy(q[i], q[j]);
    }
  }

  lemma FirstIsIn(q: seq<string>)
    ensures q != [] ==> q[0] in q
  {
  }

  /** A set has only one ascending sequence. */
  lemma {:induction false} AscendingUnique(p: seq<string>, q: seq<string>)
    requires Ascending(p) && Ascending(q)
    requires forall x :: x in p <==> x in q
    ensures p == q
  {
    FirstIsIn(p);
    FirstIsIn(q);
    if p != [] {
      var i :| 0 <= i < |q| && q[i] == p[0];
      var j :| 0 <= j < |p| && p[j] == q[0];
      Trichotomy(p[0], q[0]);
      assert p[0] == q[0];
      AscendingDistinct(p);
      AscendingDistinct(q);
      assert forall x :: x in p[1..] <==> x in p && x != p[0];
      assert forall x :: x in q[1..] <==> x in q && x != q[0];
      AscendingUnique(p[1..], q[1..]);
      assert p == [p[0]] + p[1..] && q == [q[0]] + q[1..];
    }
  }

  /** Takes the least element again and again. */
  method Ascend(s: set<string>) returns (q: seq<string>)
    ensures q == Sorted(s)
  {
    q := [];
    var rest := s;
    while rest != {}
      invariant rest <= s
      invariant forall x :: x in s <==> x in q || x in rest
      invariant forall i, x :: 0 <= i < |q| && x in rest ==> Less(q[i], x)
      invariant Ascending(q)
      decreases |rest|
    {
      LeastExists(rest);
      var m :| m in rest && IsLeast(m, rest);
      assert forall x :: x in rest - {m} ==> AtMost(m, x) && x != m;
      q := q + [m];
      rest := rest - {m};
    }
    AscendingUnique(q, Sorted(s));
  }
}
