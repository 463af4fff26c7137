/**
 * The selection shared by find_nodes_with_highest_deg_cent and
 * find_node_with_highest_bet_cent: take the maximum of a centrality map,
 * then walk its items and collect every node whose value equals it.
 * The centralities themselves are inputs here.
 */
module Centrality {
  import opened Wrappers

  /** Python's ValueError from max() of an empty sequence. */
  datatype Error = EmptySequence

  /** The nodes whose value no other node exceeds. */
  function TopKeys<K>(m: map<K, real>): (top: set<K>)
    ensures top <= m.Keys
    ensures forall a, b :: a in top && b in top ==> m[a] == m[b]
    ensures forall a, b :: a in top && b in m ==> m[b] <= m[a]
  {
    set k | k in m.Keys && forall j :: j in m.Keys ==> m[j] <= m[k]
  }

  /** A finite, non-empty map has a node of maximal value. */
  lemma {:induction false} MaximumExists<K>(m: map<K, real>)
    requires m != map[]
    ensures exists k :: k in m && forall j :: j in m ==> m[j] <= m[k]
    decreases |m|
  {
    var k0 :| k0 in m;
    var rest := m - {k0};
    if rest != map[] {
      MaximumExists(rest);
      var k1 :| k1 in rest && forall j :: j in rest ==> rest[j] <= rest[k1];
      if m[k0] <= m[k1] {
        assert forall j :: j in m ==> m[j] <= m[k1] by {
          forall j | j in m ensures m[j] <= m[k1] {
            if j != k0 { assert j in rest; }
          }
        }
      } else {
        assert forall j :: j in m ==> m[j] <= m[k0] by {
          forall j | j in m ensures m[j] <= m[k0] {
            if j != k0 { assert j in rest; }
          }
        }
      }
    } else {
      assert m.Keys == {k0} by {
        assert rest.Keys == m.Keys - {k0};
        assert rest.Keys == {};
      }
    }
  }

  /** A non-empty map has at least one top node. */
  lemma TopKeysNonEmpty<K>(m: map<K, real>)
    requires m != map[]
    ensures TopKeys(m) != {}
  {
    MaximumExists(m);
    var k :| k in m && forall j :: j in m ==> m[j] <= m[k];
    assert k in TopKeys(m);
  }

  /** Once the maximum is known, the top nodes are exactly those carrying it. */
  lemma TopKeysAtMaximum<K>(m: map<K, real>, max: real)
    requires max in m.Values && forall k :: k in m ==> m[k] <= max
    ensures TopKeys(m) == set k | k in m.Keys && m[k] == max
  {
  }

  /** max(list(m.values())): raises on an empty map. */
  method MaxOfValues<K>(m: map<K, real>) returns (r: Result<real, Error>)
    ensures r.Failure? <==> m == map[]
    ensures r.Success? ==> r.value in m.Values && forall k :: k in m ==> m[k] <= r.value
  {
    if m == map[] {
      return Failure(EmptySequence);
    }
    var rest := m.Keys;
    var k0 :| k0 in rest;
    var max := m[k0];
    rest := rest - {k0};
    while rest != {}
      invariant rest <= m.Keys
      invariant max in m.Values
      invariant forall k :: k in m && k !in rest ==> m[k] <= max
      decreases rest
    {
      var k :| k in rest;
      if m[k] > max {
        max := m[k];
      }
      rest := rest - {k};
    }
    return Success(max);
  }

  /**
   * The body of both selection functions: the maximum, then a loop over the
   * items adding each node whose value equals it.
   */
  method NodesWithHighest<K>(cent: map<K, real>) returns (r: Result<set<K>, Error>)
    ensures r.Failure? <==> cent == map[]
    ensures r.Success? ==> r.value == TopKeys(cent) && r.value != {}
  {
    var mx := MaxOfValues(cent);
    if mx.Failure? {
      return Failure(mx.error);
    }
    var max := mx.value;
    var nodes: set<K> := {};
    var items := cent.Keys;
    while items != {}
      invariant items <= cent.Keys
      invariant nodes == set k | k in cent.Keys && k !in items && cent[k] == max
      decreases items
    {
      var k :| k in items;
      if cent[k] == max {
        nodes := nodes + {k};
      }
      items := items - {k};
    }
    TopKeysAtMaximum(cent, max);
    TopKeysNonEmpty(cent);
    return Success(nodes);
  }

  /** find_nodes_with_highest_deg_cent, given the degree centralities. */
  method FindNodesWithHighestDegCent<K>(degCent: map<K, real>) returns (r: Result<set<K>, Error>)
    ensures r.Failure? <==> degCent == map[]
    ensures r.Success? ==> r.value == TopKeys(degCent) && r.value != {}
  {
    r := NodesWithHighest(degCent);
  }

  /** find_node_with_highest_bet_cent, given the betweenness centralities. */
  method FindNodeWithHighestBetCent<K>(betCent: map<K, real>) returns (r: Result<set<K>, Error>)
    ensures r.Failure? <==> betCent == map[]
    ensures r.Success? ==> r.value == TopKeys(betCent) && r.value != {}
  {
    r := NodesWithHighest(betCent);
  }
}
