// The helpers of utils.py that work on sensors: the distance between two
// sensors and the complete weighted graph over a sensor list (as its edge
// list).
module Utils {
  import opened Sensors

  /** A weighted edge `(name_i, name_j, w)` as handed to networkx. */
  datatype Edge = Edge(u: Name, v: Name, weight: int)

  // ---------------------------------------------------------------------
  // Distance

  lemma SquareSumZero(a: int, b: int)
    ensures a * a + b * b >= 0
    ensures a * a + b * b == 0 <==> a == 0 && b == 0
  {
  }

  /** `calc_sensor_distance`, squared (the square root is left out). */
  function SqDistance(s1: Sensor, s2: Sensor): (r: int)
    ensures r >= 0
    ensures r == 0 <==> s1.GetPosition() == s2.GetPosition()
  {
    var (x1, y1) := s1.GetPosition();
    var (x2, y2) := s2.GetPosition();
    SquareSumZero(x1 - x2, y1 - y2);
    (x1 - x2) * (x1 - x2) + (y1 - y2) * (y1 - y2)
  }

  lemma SqDistanceSymmetric(s1: Sensor, s2: Sensor)
    ensures SqDistance(s1, s2) == SqDistance(s2, s1)
  {
  }

  /** Two sensors with the same name are at the same distance from every sensor. */
  lemma SqDistanceByName(s1: Sensor, s2: Sensor, t1: Sensor, t2: Sensor)
    requires s1.GetName() == t1.GetName() && s2.GetName() == t2.GetName()
    ensures SqDistance(s1, s2) == SqDistance(t1, t2)
  {
  }

  // ---------------------------------------------------------------------
  // itertools.combinations(range(n), 2)

  /** The pairs (i, j), (i, j + 1), ..., (i, n - 1). */
  function Row(i: nat, j: nat, n: nat): seq<(nat, nat)>
    decreases n - j
  {
    if j >= n then [] else [(i, j)] + Row(i, j + 1, n)
  }

  /** All pairs (a, b) with i <= a < b < n, in lexicographic order. */
  function PairsFrom(i: nat, n: nat): seq<(nat, nat)>
    decreases n - i
  {
    if i >= n then [] else Row(i, i + 1, n) + PairsFrom(i + 1, n)
  }

  /** Index pairs of `itertools.combinations(xs, 2)` for `|xs| == n`. */
  function Combinations(n: nat): seq<(nat, nat)>
  {
    PairsFrom(0, n)
  }

  predicate LexLess(p: (nat, nat), q: (nat, nat))
  {
    p.0 < q.0 || (p.0 == q.0 && p.1 < q.1)
  }

  lemma {:induction false} RowAt(i: nat, j: nat, n: nat)
    ensures |Row(i, j, n)| == if j <= n then n - j else 0
    ensures forall k :: 0 <= k < |Row(i, j, n)| ==> Row(i, j, n)[k] == (i, j + k)
    decreases n - j
  {
    if j < n {
      RowAt(i, j + 1, n);
      var r := Row(i, j, n);
      forall k | 0 <= k < |r|
        ensures r[k] == (i, j + k)
      {
        if k > 0 {
          assert r[k] == Row(i, j + 1, n)[k - 1];
        }
      }
    }
  }

  lemma {:induction false} PairsFromLength(i: nat, n: nat)
    requires i <= n
    ensures 2 * |PairsFrom(i, n)| == (n - i) * (n - i - 1)
    decreases n - i
  {
    if i < n {
      PairsFromLength(i + 1, n);
      RowAt(i, i + 1, n);
      var m := n - i - 1;
      assert |PairsFrom(i, n)| == m + |PairsFrom(i + 1, n)|;
      assert 2 * |PairsFrom(i + 1, n)| == m * (m - 1);
      assert (m + 1) * m == m * (m - 1) + 2 * m;
    }
  }

  lemma {:induction false} PairsFromMembers(i: nat, n: nat)
    ensures forall p :: p in PairsFrom(i, n) <==> i <= p.0 && p.0 < p.1 && p.1 < n
    decreases n - i
  {
    if i < n {
      PairsFromMembers(i + 1, n);
      RowAt(i, i + 1, n);
      var r := Row(i, i + 1, n);
      forall p: (nat, nat) | i <= p.0 && p.0 < p.1 && p.1 < n
        ensures p in PairsFrom(i, n)
      {
        if p.0 == i {
          assert r[p.1 - i - 1] == p;
        }
      }
    }
  }

  lemma {:induction false} PairsFromOrdered(i: nat, n: nat)
    ensures forall a, b :: 0 <= a < b < |PairsFrom(i, n)| ==> LexLess(PairsFrom(i, n)[a], PairsFrom(i, n)[b])
    decreases n - i
  {
    if i < n {
      PairsFromOrdered(i + 1, n);
      PairsFromMembers(i + 1, n);
      RowAt(i, i + 1, n);
      var r, t := Row(i, i + 1, n), PairsFrom(i + 1, n);
      var s := PairsFrom(i, n);
      assert s == r + t;
      forall a, b | 0 <= a < b < |s|
        ensures LexLess(s[a], s[b])
      {
        if b < |r| {
          assert s[a] == (i, i + 1 + a) && s[b] == (i, i + 1 + b);
        } else if a < |r| {
          assert s[b] == t[b - |r|] && s[b] in t;
        } else {
          assert s[a] == t[a - |r|] && s[b] == t[b - |r|];
        }
      }
    }
  }

  /**
   * `combinations(xs, 2)` lists every index pair i < j of n elements exactly
   * once, in lexicographic order: n(n-1)/2 pairs.
   */
  lemma CombinationsFacts(n: nat)
    ensures |Combinations(n)| == n * (n - 1) / 2
    ensures forall p :: p in Combinations(n) <==> p.0 < p.1 < n
    ensures forall a, b :: 0 <= a < b < |Combinations(n)| ==> LexLess(Combinations(n)[a], Combinations(n)[b])
    ensures forall a, b :: 0 <= a < b < |Combinations(n)| ==> Combinations(n)[a] != Combinations(n)[b]
  {
    PairsFromLength(0, n);
    PairsFromMembers(0, n);
    PairsFromOrdered(0, n);
  }

  // ---------------------------------------------------------------------
  // complete_graph_from_list

  /** The edge between the i-th and j-th sensor, weighted by their distance. */
  function EdgeBetween(nodes: seq<Sensor>, p: (nat, nat)): Edge
    requires p.0 < |nodes| && p.1 < |nodes|
  {
    Edge(nodes[p.0].GetName(), nodes[p.1].GetName(), SqDistance(nodes[p.0], nodes[p.1]))
  }

  /** Reference edge list: one edge per combination of two list positions. */
  function CompleteEdges(nodes: seq<Sensor>): seq<Edge>
  {
    var pairs := Combinations(|nodes|);
    CombinationsFacts(|nodes|);
    seq(|pairs|, k requires 0 <= k < |pairs| => EdgeBetween(nodes, pairs[k]))
  }

  /** The nodes networkx creates for an edge list: every endpoint. */
  function GraphNodes(edges: seq<Edge>): set<Name>
  {
    (set e | e in edges :: e.u) + (set e | e in edges :: e.v)
  }

  function Names(nodes: seq<Sensor>): set<Name>
  {
    set s | s in nodes :: s.GetName()
  }

  /** No sensor after position i shares the name of `nodes[i]`. */
  predicate LastWithName(nodes: seq<Sensor>, i: nat)
    requires i < |nodes|
  {
    forall j :: i < j < |nodes| ==> nodes[j].GetName() != nodes[i].GetName()
  }

  /** `dict(zip(names, nodes))`: a later sensor with the same name wins. */
  function NodeAttr(nodes: seq<Sensor>): (attr: map<Name, Sensor>)
    ensures attr.Keys == Names(nodes)
    ensures forall a :: a in attr ==> attr[a].GetName() == a
  {
    if nodes == [] then map[]
    else
      var init := nodes[..|nodes| - 1];
      var last := nodes[|nodes| - 1];
      assert nodes == init + [last];
      NodeAttr(init)[last.GetName() := last]
  }

  /**
   * Every value of `dict(zip(names, nodes))` is one of the nodes, and a name maps to
   * the last node that carries it.
   */
  lemma {:induction false} NodeAttrLastWins(nodes: seq<Sensor>)
    ensures forall a :: a in NodeAttr(nodes) ==> NodeAttr(nodes)[a] in nodes
    ensures forall i :: 0 <= i < |nodes| && LastWithName(nodes, i) ==> NodeAttr(nodes)[nodes[i].GetName()] == nodes[i]
  {
    if nodes != [] {
      var init, last := nodes[..|nodes| - 1], nodes[|nodes| - 1];
      assert nodes == init + [last];
      NodeAttrLastWins(init);
      forall i | 0 <= i < |nodes| && LastWithName(nodes, i)
        ensures NodeAttr(nodes)[nodes[i].GetName()] == nodes[i]
      {
        if i < |init| {
          assert LastWithName(init, i) by {
            forall j | i < j < |init| ensures init[j].GetName() != init[i].GetName() {
              assert init[j] == nodes[j];
            }
          }
          assert last.GetName() != nodes[i].GetName();
        }
      }
    }
  }

  lemma {:induction false} CompleteEdgesShape(nodes: seq<Sensor>)
    ensures |CompleteEdges(nodes)| == |nodes| * (|nodes| - 1) / 2
    ensures |nodes| <= 1 ==> CompleteEdges(nodes) == []
    ensures forall i, j :: 0 <= i < j < |nodes| ==>
      exists k :: (0 <= k < |CompleteEdges(nodes)| && Combinations(|nodes|)[k] == (i, j)
                   && CompleteEdges(nodes)[k] == EdgeBetween(nodes, (i, j)))
    ensures forall a, b :: 0 <= a < b < |CompleteEdges(nodes)| ==>
      Combinations(|nodes|)[a] != Combinations(|nodes|)[b]
  {
    var n := |nodes|;
    CombinationsFacts(n);
    var c := Combinations(n);
    forall i, j | 0 <= i < j < n
      ensures exists k :: (0 <= k < |CompleteEdges(nodes)| && c[k] == (i, j)
                           && CompleteEdges(nodes)[k] == EdgeBetween(nodes, (i, j)))
    {
      assert (i, j) in c;
      var k :| 0 <= k < |c| && c[k] == (i, j);
      assert CompleteEdges(nodes)[k] == EdgeBetween(nodes, (i, j));
    }
  }

  /** Each edge's weight is the distance between its two endpoints. */
  lemma CompleteEdgesWeights(nodes: seq<Sensor>, k: nat)
    requires k < |CompleteEdges(nodes)|
    ensures var (i, j) := Combinations(|nodes|)[k];
      && i < j < |nodes|
      && CompleteEdges(nodes)[k] == Edge(nodes[i].GetName(), nodes[j].GetName(), SqDistance(nodes[i], nodes[j]))
  {
    CombinationsFacts(|nodes|);
    assert Combinations(|nodes|)[k] in Combinations(|nodes|);
  }

  /** With two or more sensors the graph's nodes are exactly the sensors' names; with fewer it has none. */
  lemma CompleteGraphNodes(nodes: seq<Sensor>)
    ensures |nodes| >= 2 ==> GraphNodes(CompleteEdges(nodes)) == Names(nodes)
    ensures |nodes| <= 1 ==> GraphNodes(CompleteEdges(nodes)) == {}
  {
    CompleteEdgesShape(nodes);
    var edges := CompleteEdges(nodes);
    if |nodes| >= 2 {
      forall k | 0 <= k < |edges|
        ensures edges[k].u in Names(nodes) && edges[k].v in Names(nodes)
      {
        CompleteEdgesWeights(nodes, k);
        var (i, j) := Combinations(|nodes|)[k];
        assert nodes[i] in nodes && nodes[j] in nodes;
      }
      forall s | s in nodes
        ensures s.GetName() in GraphNodes(edges)
      {
        var i :| 0 <= i < |nodes| && nodes[i] == s;
        var (a, b) := if i == 0 then (0, 1) else (0, i);
        var k :| 0 <= k < |edges| && Combinations(|nodes|)[k] == (a, b)
          && edges[k] == EdgeBetween(nodes, (a, b));
        assert edges[k] in edges;
        if i == 0 {
          assert edges[k].u == s.GetName();
        } else {
          assert edges[k].v == s.GetName();
        }
      }
    }
  }

  /**
   * `complete_graph_from_list`: the weighted edge list added to the (always
   * undirected) graph; empty when the list has fewer than two sensors.
   */
  method CompleteGraphFromList(nodeList: seq<Sensor>) returns (edgesW: seq<Edge>)
    ensures edgesW == CompleteEdges(nodeList)
  {
    edgesW := [];
    var n := |nodeList|;
    CompleteEdgesShape(nodeList);
    if n > 1 {
      var names := seq(n, k requires 0 <= k < n => nodeList[k].GetName());
      var nodeAttr := NodeAttr(nodeList);
      var pairs := Combinations(n);
      CombinationsFacts(n);
      var edges := seq(|pairs|, k requires 0 <= k < |pairs| => (names[pairs[k].0], names[pairs[k].1]));
      assert |CompleteEdges(nodeList)| == |edges|;
      var idx := 0;
      while idx < |edges|
        invariant 0 <= idx <= |edges|
        invariant |edgesW| == idx
        invariant forall k :: 0 <= k < idx ==> edgesW[k] == CompleteEdges(nodeList)[k]
      {
        var (a, b) := edges[idx];
        var (i, j) := pairs[idx];
        assert pairs[idx] in pairs;
        assert nodeList[i] in nodeList && nodeList[j] in nodeList;
        SqDistanceByName(nodeAttr[a], nodeAttr[b], nodeList[i], nodeList[j]);
        edgesW := edgesW + [Edge(a, b, SqDistance(nodeAttr[a], nodeAttr[b]))];
        idx := idx + 1;
      }
    }
  }
}
