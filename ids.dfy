/**
 * Identities of model entities and the iteration order of the canvas maps.
 *
 * The canvas keys its visuals by the model entity's pointer in a QMap, which
 * iterates in ascending key order. Model identities are natural numbers here,
 * so "map order" is ascending numeric order of the keys.
 */
module Ids {

  /** Identity of a model node (a QDataflowModelNode pointer). */
  type NodeId = nat

  /** Identity of a model connection (a QDataflowModelConnection pointer). */
  type ConnId = nat

  /** A port addressed by its owning node and its index in the node's inlet or outlet list. */
  datatype PortRef = PortRef(node: NodeId, index: nat)

  /** A least element of a non-empty set of naturals. */
  lemma {:induction false} LeastOf(s: set<nat>) returns (m: nat)
    requires s != {}
    ensures m in s && forall x :: x in s ==> m <= x
    decreases |s|
  {
    var y :| y in s;
    var rest := s - {y};
    if rest == {} {
      m := y;
    } else {
      assert |rest| == |s| - 1;
      var r := LeastOf(rest);
      m := if y < r then y else r;
    }
    forall x | x in s
      ensures m <= x
    {
      if x != y {
        assert x in rest;
      }
    }
  }

  /** Every non-empty set of naturals has a least element. */
  lemma HasMin(s: set<nat>)
    requires s != {}
    ensures exists m :: m in s && forall x :: x in s ==> m <= x
  {
    var m := LeastOf(s);
  }

  /** The least key of a non-empty key set. */
  function Min(s: set<nat>): (m: nat)
    requires s != {}
    ensures m in s && forall x :: x in s ==> m <= x
  {
    HasMin(s);
    var m :| m in s && forall x :: x in s ==> m <= x;
    m
  }

  /** Strictly ascending order, the order in which a QMap visits its keys. */
  predicate Ascending(r: seq<nat>)
  {
    forall i, j :: 0 <= i < j < |r| ==> r[i] < r[j]
  }

  /** The keys of a map in the order a QMap iterates them. */
  function SortedKeys(s: set<nat>): (r: seq<nat>)
    ensures forall x :: x in r <==> x in s
    ensures Ascending(r)
    ensures |r| == |s|
    decreases |s|
  {
    if s == {} then []
    else
      var m := Min(s);
      var rest := SortedKeys(s - {m});
      assert forall x :: x in [m] + rest <==> x == m || x in rest;
      assert forall x :: x in rest ==> m < x;
      PrependLeast(m, rest);
      [m] + rest
  }

  lemma PrependLeast(m: nat, rest: seq<nat>)
    requires Ascending(rest) && forall x :: x in rest ==> m < x
    ensures Ascending([m] + rest)
  {
    var r := [m] + rest;
    forall i, j | 0 <= i < j < |r|
      ensures r[i] < r[j]
    {
      assert r[j] == rest[j - 1];
      if i > 0 {
        assert r[i] == rest[i - 1];
      } else {
        assert rest[j - 1] in rest;
      }
    }
  }
}
