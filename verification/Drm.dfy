// deadlock_demolition/libdrm.c: a graph of resources and threads that refuses every wait that
// would close a cycle.
module Drm {
  import opened DrmGraph
  import opened Listing

  // What the search knows when it looks at one more vertex: the vertices on the stack form a
  // path and are marked; every other marked vertex was left behind with all its neighbours marked.
  ghost predicate Searching(g: Graph, visit: set<Vertex>, stack: seq<Vertex>) {
    && Walk(g, stack) && Distinct(stack)
    && (forall i :: 0 <= i < |stack| ==> stack[i] in visit)
    && (forall u, x :: u in visit && u !in stack && g.Adjacent(u, x) ==> x in visit)
  }

  // The marks a search from v (reached from prev) leaves when it finds nothing: a set that
  // contains v and is left by no edge except the one from v back to prev.
  ghost predicate ClosedExcept(g: Graph, s: set<Vertex>, v: Vertex, prev: Vertex) {
    v in s && forall u, x :: u in s && g.Adjacent(u, x) && !(u == v && x == prev) ==> x in s
  }

  // The same, while the neighbours of v that are not yet in `seen` are still to be searched.
  ghost predicate ClosedBelow(g: Graph, s: set<Vertex>, v: Vertex, seen: seq<Vertex>) {
    forall u, x :: u in s && g.Adjacent(u, x) && x !in s ==> x == v && u in seen
  }

  lemma StackedCycle(g: Graph, stack: seq<Vertex>, v: Vertex)
    requires Walk(g, stack) && Distinct(stack) && v in stack && g.Adjacent(stack[|stack| - 1], v)
    requires v != stack[|stack| - 1] && (|stack| >= 2 ==> v != stack[|stack| - 2])
    ensures !Forest(g)
  {
    var k :| 0 <= k < |stack| && stack[k] == v;
    var p := stack[k..];
    forall i | 0 <= i < |p| - 1 ensures g.Adjacent(p[i], p[i + 1]) {
      assert g.Adjacent(stack[i + k], stack[i + k + 1]);
    }
    assert Cycle(g, p);
  }

  // Going one level down from v keeps what the search knows.
  lemma Descend(g: Graph, before: set<Vertex>, visit: set<Vertex>, stack: seq<Vertex>, v: Vertex,
                done: set<Vertex>, seen: seq<Vertex>, x: Vertex)
    requires g.Valid() && v in g.vertices
    requires Searching(g, before, stack) && v !in before && g.Adjacent(stack[|stack| - 1], v)
    requires visit == before + {v} + done && done !! before + {v}
    requires ClosedBelow(g, done, v, seen)
    requires g.Adjacent(v, x) && x !in seen
    ensures Searching(g, visit, stack + [v]) && (x in visit ==> x in stack + [v]) && x !in done
  {
  }

  class Resources {
    var g: Graph
    var visit: set<Vertex>

    constructor ()
      ensures g == Graph({}, {})
    {
      g := Graph({}, {});
      visit := {};
    }

    // graph_neighbors and graph_antineighbors list ends of edges in an order of their own.
    method Neighbors(v: Vertex) returns (list: seq<Vertex>)
      ensures Distinct(list) && forall x :: x in list <==> (v, x) in g.edges
    {
      list := Enumerate(set e | e in g.edges && e.0 == v :: e.1);
    }

    method Antineighbors(v: Vertex) returns (list: seq<Vertex>)
      ensures Distinct(list) && forall x :: x in list <==> (x, v) in g.edges
    {
      list := Enumerate(set e | e in g.edges && e.1 == v :: e.0);
    }

    method IsCyclic(vertex: Vertex, prev: Vertex, ghost stack: seq<Vertex>) returns (cyclic: bool)
      requires g.Valid() && vertex in g.vertices
      requires Searching(g, visit, stack) && stack[|stack| - 1] == prev && g.Adjacent(prev, vertex)
      requires |stack| >= 2 ==> vertex != stack[|stack| - 2]
      requires vertex in visit ==> vertex in stack
      modifies this`visit
      ensures old(visit) <= visit
      ensures cyclic ==> !Forest(g)
      ensures !cyclic ==> vertex !in old(visit) && ClosedExcept(g, visit - old(visit), vertex, prev)
      decreases g.vertices - visit, 1
    {
      if vertex in visit {
        StackedCycle(g, stack, vertex);
        return true;
      }
      ghost var before := visit;
      visit := visit + {vertex};
      var neighbors := Neighbors(vertex);
      cyclic := SearchAll(vertex, prev, neighbors, stack, before, []);
      if cyclic {
        return true;
      }
      var anti := Antineighbors(vertex);
      cyclic := SearchAll(vertex, prev, anti, stack, before, neighbors);
      if !cyclic {
        ghost var done := visit - before - {vertex};
        assert visit - before == done + {vertex};
      }
    }

    // One of the two loops of the search: go down into each vertex of the list, except back to
    // prev. `seen` is what an earlier list held.
    method SearchAll(vertex: Vertex, prev: Vertex, list: seq<Vertex>, ghost stack: seq<Vertex>,
                     ghost before: set<Vertex>, ghost seen: seq<Vertex>) returns (cyclic: bool)
      requires g.Valid() && vertex in g.vertices && vertex !in before && before + {vertex} <= visit
      requires Searching(g, before, stack) && stack[|stack| - 1] == prev && g.Adjacent(prev, vertex)
      requires forall x :: x in list ==> g.Adjacent(vertex, x) && x !in seen
      requires Distinct(list)
      requires ClosedBelow(g, visit - before - {vertex}, vertex, seen)
      requires forall x :: x in seen && x != prev ==> x in visit - before - {vertex}
      modifies this`visit
      ensures old(visit) <= visit
      ensures cyclic ==> !Forest(g)
      ensures !cyclic ==> ClosedBelow(g, visit - before - {vertex}, vertex, seen + list)
      ensures !cyclic ==> forall x :: x in seen + list && x != prev ==> x in visit - before - {vertex}
      decreases g.vertices - before - {vertex}, 2
    {
      var i := 0;
      while i < |list|
        invariant 0 <= i <= |list|
        invariant before + {vertex} <= visit && old(visit) <= visit
        invariant ClosedBelow(g, visit - before - {vertex}, vertex, seen + list[..i])
        invariant forall x :: x in seen + list[..i] && x != prev ==> x in visit - before - {vertex}
      {
        ghost var done := visit - before - {vertex};
        assert list[i] in list;
        assert list[..i + 1] == list[..i] + [list[i]];
        assert seen + list[..i + 1] == seen + list[..i] + [list[i]];
        if list[i] != prev {
          Descend(g, before, visit, stack, vertex, done, seen + list[..i], list[i]);
          cyclic := IsCyclic(list[i], vertex, stack + [vertex]);
          if cyclic {
            return true;
          }
          ghost var found := visit - before - {vertex} - done;
          assert visit - before - {vertex} == done + found;
        }
        i := i + 1;
      }
      assert list[..i] == list;
      return false;
    }

    // drm_init: a new drm, with no edge.
    method Init(drm: Vertex)
      requires g.Valid() && drm.Drm? && drm !in g.vertices
      modifies this`g
      ensures g == InitGraph(old(g), drm) && g.Valid()
      ensures g.vertices == old(g.vertices) + {drm} && g.edges == old(g.edges)
    {
      g := Graph(g.vertices + {drm}, g.edges);
    }

    // drm_post
    method Post(drm: Vertex, thread: Vertex) returns (posted: bool)
      requires g.Valid()
      modifies this`g
      ensures g == PostGraph(old(g), drm, thread) && g.Valid()
      ensures g.vertices == old(g.vertices) && g.edges == old(g.edges) - {(drm, thread)}
      ensures posted <==> (drm, thread) in old(g.edges)
    {
      if thread !in g.vertices || drm !in g.vertices {
        assert (drm, thread) !in g.edges;
        assert g == PostGraph(g, drm, thread);
        return false;
      } else {
        if (drm, thread) in g.edges {
          g := Graph(g.vertices, g.edges - {(drm, thread)});
          return true;
        }
      }
      assert g == PostGraph(g, drm, thread);
      return false;
    }

    // drm_wait
    method Wait(drm: Vertex, thread: Vertex) returns (granted: bool)
      requires g.Valid() && Forest(g) && drm.Drm? && drm in g.vertices && thread.Thread?
      modifies this
      ensures g == WaitGraph(old(g), drm, thread) && g.Valid() && Forest(g)
      ensures granted <==> (drm, thread) !in old(g.edges) && !Connected(old(g), drm, thread)
      ensures g.vertices == old(g.vertices) + {thread}
      ensures g.edges == old(g.edges) + if granted then {(drm, thread)} else {}
    {
      hide Forest, Connected, Searching;
      ghost var start := g;
      if thread !in g.vertices {
        g := Graph(g.vertices + {thread}, g.edges);
      }
      SameEdges(start, g);
      if (drm, thread) in g.edges {
        return false;
      }
      ghost var bare := g;
      g := Graph(g.vertices, g.edges + {(drm, thread)});
      visit := {};
      visit := visit + {drm};
      SearchStarts(g, drm);
      var cyclic := IsCyclic(thread, drm, [drm]);
      if cyclic {
        ClosesCycle(bare, drm, thread);
        g := Graph(g.vertices, g.edges - {(drm, thread)});
        assert g == bare;
        return false;
      } else {
        // The thread now blocks on the mutex of the drm, which leaves the graph as it is.
        ClosesNothing(bare, drm, thread, visit - {drm});
        return true;
      }
    }

    // drm_destroy: the drm goes, and with it the edges at it.
    method Destroy(drm: Vertex)
      requires g.Valid() && drm in g.vertices
      modifies this`g
      ensures g == DestroyGraph(old(g), drm) && g.Valid()
      ensures g.vertices == old(g.vertices) - {drm}
      ensures forall e :: e in g.edges <==> e in old(g.edges) && e.0 != drm && e.1 != drm
    {
      g := Graph(g.vertices - {drm}, set e | e in g.edges && e.0 != drm && e.1 != drm);
    }
  }

  // ----- What each call makes of the graph, without the search -----

  function InitGraph(g: Graph, drm: Vertex): Graph { Graph(g.vertices + {drm}, g.edges) }

  function PostGraph(g: Graph, drm: Vertex, thread: Vertex): Graph {
    Graph(g.vertices, g.edges - {(drm, thread)})
  }

  // A wait is granted, and its edge stays, exactly when the two were not connected before.
  ghost function WaitGraph(g: Graph, drm: Vertex, thread: Vertex): Graph {
    Graph(g.vertices + {thread}, if Connected(g, drm, thread) then g.edges else g.edges + {(drm, thread)})
  }

  function DestroyGraph(g: Graph, drm: Vertex): Graph {
    Graph(g.vertices - {drm}, set e | e in g.edges && e.0 != drm && e.1 != drm)
  }

  lemma SameEdges(g: Graph, h: Graph)
    requires g.edges == h.edges
    ensures Forest(g) ==> Forest(h)
    ensures forall a, b :: Connected(g, a, b) <==> Connected(h, a, b)
    ensures forall a, b :: (a, b) in g.edges ==> Connected(g, a, b)
  {
    if Forest(g) {
      Subforest(g, h);
    }
    forall p ensures Walk(g, p) <==> Walk(h, p) {
    }
    forall a, b | (a, b) in g.edges ensures Connected(g, a, b) {
      assert Walk(g, [a, b]);
    }
  }

  lemma SearchStarts(g: Graph, drm: Vertex)
    ensures Searching(g, {drm}, [drm])
  {
  }

  lemma ClosesCycle(g: Graph, a: Vertex, b: Vertex)
    requires Forest(g) && a != b && !Forest(g.Plus((a, b)))
    ensures Connected(g, a, b)
  {
    if !Connected(g, a, b) {
      ForestPlusEdge(g, a, b);
    }
  }

  lemma ClosesNothing(g: Graph, drm: Vertex, thread: Vertex, found: set<Vertex>)
    requires Forest(g) && g.Valid() && drm.Drm? && thread.Thread? && (drm, thread) !in g.edges
    requires ClosedExcept(g.Plus((drm, thread)), found, thread, drm) && drm !in found
    ensures !Connected(g, drm, thread) && Forest(g.Plus((drm, thread)))
  {
    forall u, x | u in found && g.Adjacent(u, x) ensures x in found {
      assert g.Plus((drm, thread)).Adjacent(u, x);
      if u == thread && x == drm {
        assert false;
      }
    }
    Separated(g, found, thread, drm);
    ForestPlusEdge(g, drm, thread);
  }

  // ----- Whole runs -----

  datatype Call =
    | Init(drm: nat)
    | Wait(drm: nat, thread: nat)
    | Post(drm: nat, thread: nat)
    | Destroy(drm: nat)

  // A program only names drms it got from drm_init and has not destroyed.
  predicate Allowed(g: Graph, c: Call) {
    match c
    case Init(d) => Vertex.Drm(d) !in g.vertices
    case Post(_, _) => true
    case _ => Vertex.Drm(c.drm) in g.vertices
  }

  ghost function Step(g: Graph, c: Call): Graph {
    match c
    case Init(d) => InitGraph(g, Vertex.Drm(d))
    case Wait(d, t) => WaitGraph(g, Vertex.Drm(d), Thread(t))
    case Post(d, t) => PostGraph(g, Vertex.Drm(d), Thread(t))
    case Destroy(d) => DestroyGraph(g, Vertex.Drm(d))
  }

  ghost predicate Run(g: Graph, calls: seq<Call>)
    decreases calls
  {
    calls == [] || (Allowed(g, calls[0]) && Run(Step(g, calls[0]), calls[1..]))
  }

  ghost function After(g: Graph, calls: seq<Call>): Graph
    decreases calls
  {
    if calls == [] then g else After(Step(g, calls[0]), calls[1..])
  }

  lemma StepForest(g: Graph, c: Call)
    requires g.Valid() && Forest(g) && Allowed(g, c)
    ensures Step(g, c).Valid() && Forest(Step(g, c))
  {
    var h := Step(g, c);
    if c.Wait? && !Connected(g, Vertex.Drm(c.drm), Thread(c.thread)) {
      ForestPlusEdge(g, Vertex.Drm(c.drm), Thread(c.thread));
      SameEdges(g.Plus((Vertex.Drm(c.drm), Thread(c.thread))), h);
    } else {
      Subforest(g, h);
    }
  }

  // Whatever a program calls, and in whatever order, the graph stays a forest.
  lemma {:induction false} RunForest(g: Graph, calls: seq<Call>)
    requires g.Valid() && Forest(g) && Run(g, calls)
    ensures After(g, calls).Valid() && Forest(After(g, calls))
    decreases calls
  {
    if calls != [] {
      StepForest(g, calls[0]);
      RunForest(Step(g, calls[0]), calls[1..]);
    }
  }

  // ----- Who holds what -----

  const NOTHING := Graph({}, {})

  // Call number i is a wait that was granted.
  ghost predicate GrantedAt(calls: seq<Call>, i: nat, d: nat, t: nat)
    requires i < |calls|
  {
    calls[i] == Call.Wait(d, t) && !Connected(After(NOTHING, calls[..i]), Vertex.Drm(d), Thread(t))
  }

  // Neither posted nor destroyed by any call from number i on.
  predicate Keeps(calls: seq<Call>, i: nat, d: nat, t: nat) {
    forall j :: i <= j < |calls| ==> calls[j] != Call.Post(d, t) && calls[j] != Call.Destroy(d)
  }

  ghost predicate Holds(calls: seq<Call>, d: nat, t: nat) {
    exists i :: 0 <= i < |calls| && GrantedAt(calls, i, d, t) && Keeps(calls, i + 1, d, t)
  }

  lemma {:induction false} AfterLast(g: Graph, calls: seq<Call>, c: Call)
    ensures After(g, calls + [c]) == Step(After(g, calls), c)
    decreases |calls|
  {
    if calls == [] {
      assert [c][1..] == [];
      assert calls + [c] == [c];
    } else {
      assert (calls + [c])[1..] == calls[1..] + [c];
      AfterLast(Step(g, calls[0]), calls[1..], c);
    }
  }

  // From an empty graph the edges are exactly the waits that were granted and neither posted nor destroyed since.
  lemma {:induction false} HeldExactly(calls: seq<Call>, d: nat, t: nat)
    ensures (Vertex.Drm(d), Thread(t)) in After(NOTHING, calls).edges <==> Holds(calls, d, t)
    decreases |calls|
  {
    if calls != [] {
      var k := |calls| - 1;
      var before, c := calls[..k], calls[k];
      assert calls == before + [c];
      AfterLast(NOTHING, before, c);
      HeldExactly(before, d, t);
      HoldsOn(before, c, d, t);
    }
  }

  lemma HoldsOn(before: seq<Call>, c: Call, d: nat, t: nat)
    ensures Holds(before + [c], d, t) <==>
      || (c == Call.Wait(d, t) && !Connected(After(NOTHING, before), Vertex.Drm(d), Thread(t)))
      || (c != Call.Post(d, t) && c != Call.Destroy(d) && Holds(before, d, t))
  {
    var calls, k := before + [c], |before|;
    hide After, Connected;
    assert calls[..k] == before;
    forall i | 0 <= i < k ensures GrantedAt(calls, i, d, t) <==> GrantedAt(before, i, d, t) {
      assert calls[..i] == before[..i];
    }
    forall i | 0 <= i <= k
      ensures Keeps(calls, i, d, t) <==> Keeps(before, i, d, t) && c != Call.Post(d, t) && c != Call.Destroy(d)
    {
      assert calls[k] == c;
    }
    assert Keeps(calls, k + 1, d, t);
    assert GrantedAt(calls, k, d, t) <==> c == Call.Wait(d, t) && !Connected(After(NOTHING, before), Vertex.Drm(d), Thread(t));
  }

  // Refusing is no more than is needed: the edge of a wait, kept, makes a cycle exactly when the
  // drm and the thread were connected before.
  lemma RefusedExactly(g: Graph, drm: Vertex, thread: Vertex)
    requires g.Valid() && Forest(g) && drm.Drm? && thread.Thread? && (drm, thread) !in g.edges
    ensures Connected(g, drm, thread) <==> !Forest(g.Plus((drm, thread)))
  {
    if Connected(g, drm, thread) {
      var p :| Walk(g, p) && p[0] == drm && p[|p| - 1] == thread;
      var q := ShortCut(g, p);
      assert |q| >= 2;
      assert g.Adjacent(q[0], q[0 + 1]);
      forall i | 0 <= i < |q| - 1 ensures g.Plus((drm, thread)).Adjacent(q[i], q[i + 1]) {
        assert g.Adjacent(q[i], q[i + 1]);
      }
      assert Cycle(g.Plus((drm, thread)), q);
    } else {
      ForestPlusEdge(g, drm, thread);
    }
  }
}
