/** Choosing elements of a list by their places. */
module Places {
  import Seqs

  ghost predicate Ascending(places: seq<nat>) {
    forall i, j :: 0 <= i < j < |places| ==> places[i] < places[j]
  }

  /** k is one of the places. */
  ghost predicate HasPlace(places: seq<nat>, k: int) {
    exists i :: 0 <= i < |places| && places[i] == k
  }

  /** The places, in order, of all wanted elements. */
  ghost predicate ArePlaces<T>(all: seq<T>, places: seq<nat>, wanted: T -> bool) {
    && Ascending(places)
    && (forall i :: 0 <= i < |places| ==> places[i] < |all| && wanted(all[places[i]]))
    && forall k :: 0 <= k < |all| && wanted(all[k]) ==> HasPlace(places, k)
  }

  lemma HasPlaceMore(places: seq<nat>, n: nat, k: int)
    ensures HasPlace(places + [n], k) <==> HasPlace(places, k) || k == n
  {
    var more := places + [n];
    assert more[|places|] == n;
    if HasPlace(places, k) {
      var i :| 0 <= i < |places| && places[i] == k;
      assert more[i] == k;
    }
  }

  lemma PlacesMore<T>(all: seq<T>, places: seq<nat>, wanted: T -> bool)
    requires all != [] && ArePlaces(all[..|all| - 1], places, wanted)
    ensures ArePlaces(all, if wanted(all[|all| - 1]) then places + [|all| - 1] else places, wanted)
  {
    var n := |all| - 1;
    var places' := if wanted(all[n]) then places + [n] else places;
    forall k | 0 <= k < |all| && wanted(all[k]) ensures HasPlace(places', k) {
      HasPlaceMore(places, n, k);
      if k < n { assert all[..n][k] == all[k]; }
    }
    forall i | 0 <= i < |places| ensures places[i] < n && wanted(all[places[i]]) {
      assert all[..n][places[i]] == all[places[i]];
    }
  }

  /** The elements at these places. */
  ghost predicate Picks<T>(r: seq<T>, all: seq<T>, places: seq<nat>) {
    |r| == |places| && forall i :: 0 <= i < |r| ==> places[i] < |all| && r[i] == all[places[i]]
  }

  lemma PicksMore<T>(r: seq<T>, all: seq<T>, places: seq<nat>)
    requires all != [] && Picks(r, all[..|all| - 1], places)
    ensures Picks(r, all, places) && Picks(r + [all[|all| - 1]], all, places + [|all| - 1])
  {
    assert forall k :: 0 <= k < |all| - 1 ==> all[..|all| - 1][k] == all[k];
  }

  /** There are at most n ascending places below n, and n of them only if each number is one. */
  lemma {:induction false} PlacesFill(places: seq<nat>, n: nat)
    requires Ascending(places) && forall i :: 0 <= i < |places| ==> places[i] < n
    ensures |places| <= n
    ensures |places| == n <==> forall k :: 0 <= k < n ==> HasPlace(places, k)
    decreases n
  {
    assert places == [] || places[0] < n;
    if n > 0 {
      var last := |places| - 1;
      if last >= 0 && places[last] == n - 1 {
        PlacesFill(places[..last], n - 1);
        Seqs.LastApart(places);
        forall k | 0 <= k < n ensures HasPlace(places, k) <==> HasPlace(places[..last], k) || k == n - 1 {
          HasPlaceMore(places[..last], n - 1, k);
        }
      } else {
        assert forall i :: 0 <= i < |places| ==> places[i] <= places[last];
        PlacesFill(places, n - 1);
        assert !HasPlace(places, n - 1);
      }
    }
  }

  lemma AllWanted<T>(all: seq<T>, places: seq<nat>, wanted: T -> bool)
    requires ArePlaces(all, places, wanted)
    ensures (forall k :: 0 <= k < |all| ==> HasPlace(places, k)) <==> forall k :: 0 <= k < |all| ==> wanted(all[k])
  {
    forall k | 0 <= k < |all| ensures HasPlace(places, k) <==> wanted(all[k]) {
      if HasPlace(places, k) { var i :| 0 <= i < |places| && places[i] == k; }
    }
  }
}
