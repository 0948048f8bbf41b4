/** Walking a map entry by entry, as `dict.items()` does. The model promises
    no particular order, only that every entry comes out exactly once.
 */
module Listing {
  import opened Store

  /** `es` lists the entries of `m`: each element is an entry of `m`, no key
      is listed twice, and every key of `m` is listed. */
  ghost predicate Enumerates(es: seq<(UserId, Room)>, m: map<UserId, Room>)
  {
    && (forall i :: 0 <= i < |es| ==> es[i].0 in m && m[es[i].0] == es[i].1)
    && (forall i, j :: 0 <= i < j < |es| ==> es[i].0 != es[j].0)
    && (forall k :: k in m ==> exists i :: 0 <= i < |es| && es[i].0 == k)
  }

  /** The keys a list of entries mentions. */
  function KeysOf(es: seq<(UserId, Room)>): (ks: set<UserId>)
    ensures forall i :: 0 <= i < |es| ==> es[i].0 in ks
    ensures forall k :: k in ks ==> exists i :: 0 <= i < |es| && es[i].0 == k
  {
    if es == [] then {} else {es[0].0} + KeysOf(es[1..])
  }

  /** A list whose keys are pairwise distinct has as many keys as elements. */
  lemma {:induction false} DistinctKeysCount(es: seq<(UserId, Room)>)
    requires forall i, j :: 0 <= i < j < |es| ==> es[i].0 != es[j].0
    ensures |KeysOf(es)| == |es|
  {
    if es != [] {
      DistinctKeysCount(es[1..]);
      assert forall i :: 0 <= i < |es[1..]| ==> es[1..][i].0 != es[0].0 by {
        forall i | 0 <= i < |es[1..]| ensures es[1..][i].0 != es[0].0 {
          assert es[1..][i] == es[i + 1];
        }
      }
    }
  }

  /** A listing of `m` has exactly one element per entry of `m`. */
  lemma EnumerationSize(es: seq<(UserId, Room)>, m: map<UserId, Room>)
    requires Enumerates(es, m)
    ensures |es| == |m|
  {
    DistinctKeysCount(es);
    assert KeysOf(es) == m.Keys;
  }

  /** The entries of `m` in some order, one element per key. */
  method Items(m: map<UserId, Room>) returns (es: seq<(UserId, Room)>)
    ensures Enumerates(es, m)
    ensures |es| == |m|
  {
    es := [];
    var rest := m.Keys;
    while rest != {}
      invariant rest <= m.Keys
      invariant forall i :: 0 <= i < |es| ==> es[i].0 in m && es[i].0 !in rest && m[es[i].0] == es[i].1
      invariant forall i, j :: 0 <= i < j < |es| ==> es[i].0 != es[j].0
      invariant forall k :: k in m && k !in rest ==> exists i :: 0 <= i < |es| && es[i].0 == k
      decreases rest
    {
      var k :| k in rest;
      ghost var before := es;
      es := es + [(k, m[k])];
      assert es[|before|].0 == k;
      assert forall i :: 0 <= i < |before| ==> es[i] == before[i];
      rest := rest - {k};
    }
    EnumerationSize(es, m);
  }
}
