// The resource graph of deadlock_demolition/libdrm.c, read as an undirected graph: walks, cycles, forests.
module DrmGraph {
  import opened Listing

  // A vertex is a drm_t or a thread id.
  datatype Vertex = Drm(id: nat) | Thread(id: nat)

  type Edge = (Vertex, Vertex)

  datatype Graph = Graph(vertices: set<Vertex>, edges: set<Edge>) {
    // Edges lead from a drm to a thread that holds or waits for it.
    ghost predicate Valid() {
      forall e :: e in edges ==> e.0 in vertices && e.1 in vertices && e.0.Drm? && e.1.Thread?
    }

    predicate Adjacent(a: Vertex, b: Vertex) {
      (a, b) in edges || (b, a) in edges
    }

    function Plus(e: Edge): Graph { Graph(vertices, edges + {e}) }
  }

  ghost predicate Walk(g: Graph, p: seq<Vertex>) {
    p != [] && forall i :: 0 <= i < |p| - 1 ==> g.Adjacent(p[i], p[i + 1])
  }

  ghost predicate Cycle(g: Graph, p: seq<Vertex>) {
    |p| >= 3 && Distinct(p) && Walk(g, p) && g.Adjacent(p[|p| - 1], p[0])
  }

  ghost predicate Forest(g: Graph) {
    forall p :: !Cycle(g, p)
  }

  ghost predicate Connected(g: Graph, a: Vertex, b: Vertex) {
    exists p :: Walk(g, p) && p[0] == a && p[|p| - 1] == b
  }

  lemma ReverseWalk(g: Graph, p: seq<Vertex>)
    requires Walk(g, p)
    ensures Connected(g, p[|p| - 1], p[0])
  {
    var q := seq(|p|, i requires 0 <= i < |p| => p[|p| - 1 - i]);
    forall i | 0 <= i < |q| - 1 ensures g.Adjacent(q[i], q[i + 1]) {
      var j := |p| - 2 - i;
      assert g.Adjacent(p[j], p[j + 1]);
    }
    assert Walk(g, q);
  }

  // A walk that meets a vertex twice can be cut short until it meets none twice.
  lemma {:induction false} ShortCut(g: Graph, p: seq<Vertex>) returns (q: seq<Vertex>)
    requires Walk(g, p)
    ensures Walk(g, q) && Distinct(q) && q[0] == p[0] && q[|q| - 1] == p[|p| - 1]
    decreases |p|
  {
    if Distinct(p) {
      q := p;
    } else {
      var i, j :| 0 <= i < j < |p| && p[i] == p[j];
      var r := p[..i] + p[j..];
      forall k | 0 <= k < |r| - 1 ensures g.Adjacent(r[k], r[k + 1]) {
        if k < i {
          assert r[k] == p[k] && r[k + 1] == p[k + 1];
        } else {
          assert r[k] == p[k + j - i] && r[k + 1] == p[k + j - i + 1];
        }
      }
      assert r[0] == p[0] && r[|r| - 1] == p[|p| - 1];
      q := ShortCut(g, r);
    }
  }

  // A cycle whose last edge is the new edge (a, b) is, without it, a walk between the ends.
  lemma CycleClosedByEdge(g: Graph, a: Vertex, b: Vertex, q: seq<Vertex>)
    requires a != b && Cycle(g.Plus((a, b)), q) && !g.Adjacent(q[|q| - 1], q[0])
    ensures Connected(g, a, b)
  {
    var h := g.Plus((a, b));
    forall i | 0 <= i < |q| - 1 ensures g.Adjacent(q[i], q[i + 1]) {
      assert h.Adjacent(q[i], q[i + 1]);
    }
    assert Walk(g, q);
    if q[0] == b {
      ReverseWalk(g, q);
    }
  }

  // A cycle of the larger graph that is none of the smaller one can be turned so that it ends
  // with the new edge.
  lemma CycleUsesEdge(g: Graph, a: Vertex, b: Vertex, p: seq<Vertex>)
    requires a != b && Cycle(g.Plus((a, b)), p) && !Cycle(g, p)
    ensures Connected(g, a, b)
  {
    hide Connected;
    if !g.Adjacent(p[|p| - 1], p[0]) {
      CycleClosedByEdge(g, a, b, p);
    } else {
      var i :| 0 <= i < |p| - 1 && !g.Adjacent(p[i], p[i + 1]);
      var q := p[i + 1..] + p[..i + 1];
      assert q[|q| - 1] == p[i] && q[0] == p[i + 1];
      CycleClosedByEdge(g, a, b, q);
    }
  }

  // Adding an edge to a forest leaves a forest exactly when its ends were not connected before.
  lemma ForestPlusEdge(g: Graph, a: Vertex, b: Vertex)
    requires Forest(g) && a != b && !Connected(g, a, b)
    ensures Forest(g.Plus((a, b)))
  {
    forall p ensures !Cycle(g.Plus((a, b)), p) {
      if Cycle(g.Plus((a, b)), p) {
        CycleUsesEdge(g, a, b, p);
      }
    }
  }

  lemma Subforest(g: Graph, h: Graph)
    requires Forest(g) && h.edges <= g.edges
    ensures Forest(h)
  {
    forall p ensures !Cycle(h, p) {
      if Cycle(h, p) {
        assert Cycle(g, p);
      }
    }
  }

  // A set that contains a, not b, and all neighbours of its members separates them.
  lemma Separated(g: Graph, s: set<Vertex>, a: Vertex, b: Vertex)
    requires a in s && b !in s
    requires forall u, x :: u in s && g.Adjacent(u, x) ==> x in s
    ensures !Connected(g, a, b) && !Connected(g, b, a)
  {
    forall p | Walk(g, p) && p[0] == a ensures p[|p| - 1] in s {
      StaysInside(g, s, p, |p| - 1);
    }
    forall p | Walk(g, p) && p[0] == b ensures p[|p| - 1] != a {
      if p[|p| - 1] == a {
        ReverseWalk(g, p);
      }
    }
  }

  lemma {:induction false} StaysInside(g: Graph, s: set<Vertex>, p: seq<Vertex>, i: nat)
    requires Walk(g, p) && p[0] in s && i < |p|
    requires forall u, x :: u in s && g.Adjacent(u, x) ==> x in s
    ensures p[i] in s
  {
    if i > 0 {
      StaysInside(g, s, p, i - 1);
      assert g.Adjacent(p[i - 1], p[i - 1 + 1]);
    }
  }
}
