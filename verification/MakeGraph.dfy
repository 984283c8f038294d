// Rules and what they depend on: paths, cycles, and orders that list dependencies first.
module MakeGraph {
  import opened Listing

  // Rule v depends on the rules in g[v] (an edge from v to each of them).
  type Graph = seq<set<nat>>

  ghost predicate Valid(g: Graph) {
    forall v, x :: 0 <= v < |g| && x in g[v] ==> x < |g|
  }

  function Below(n: nat): (s: set<nat>)
    ensures forall v: nat :: v in s <==> v < n
  {
    if n == 0 then {} else Below(n - 1) + {n - 1}
  }

  // graph_antineighbors
  function Dependents(g: Graph, v: nat): (s: set<nat>)
    ensures forall x: nat :: x in s <==> x < |g| && v in g[x]
  {
    set x | x in Below(|g|) && v in g[x]
  }

  ghost predicate Path(g: Graph, p: seq<nat>) {
    && p != []
    && (forall i :: 0 <= i < |p| ==> p[i] < |g|)
    && (forall i :: 0 <= i < |p| - 1 ==> p[i + 1] in g[p[i]])
  }

  ghost predicate Reaches(g: Graph, a: nat, b: nat) {
    exists p :: Path(g, p) && p[0] == a && p[|p| - 1] == b
  }

  lemma ReachesSelf(g: Graph, v: nat)
    requires v < |g|
    ensures Reaches(g, v, v)
  {
    assert Path(g, [v]) && [v][0] == v && [v][|[v]| - 1] == v;
  }

  lemma ReachesThrough(g: Graph, v: nat, n: nat, x: nat)
    requires v < |g| && n in g[v] && Reaches(g, n, x)
    ensures Reaches(g, v, x)
  {
    var p :| Path(g, p) && p[0] == n && p[|p| - 1] == x;
    assert Path(g, [v]);
    var q := [v] + [n] + p[1..];
    assert Path(g, q) && q[0] == v && q[|q| - 1] == x;
  }

  // A walk along at least one edge, from a rule that can be reached from `start` back to itself.
  ghost predicate Loops(g: Graph, start: nat, c: seq<nat>) {
    Path(g, c) && |c| >= 2 && c[0] == c[|c| - 1] && Reaches(g, start, c[0])
  }

  ghost predicate CycleFrom(g: Graph, start: nat) {
    exists c :: Loops(g, start, c)
  }

  // A list in which every rule comes after all it depends on.
  ghost predicate Sorted(g: Graph, order: seq<nat>) {
    && Distinct(order)
    && (forall i :: 0 <= i < |order| ==> order[i] < |g|)
    && (forall i, x :: 0 <= i < |order| && x in g[order[i]] ==> x in order[..i])
  }

  // A depth-first search: `stack` leads from its start to the rule it is at, `order` lists what
  // it is done with.
  ghost predicate Searching(g: Graph, stack: seq<nat>, order: seq<nat>, visited: set<nat>) {
    && (stack != [] ==> Path(g, stack)) && Distinct(stack)
    && Sorted(g, order)
    && (forall x :: x in stack ==> x !in order)
    && (forall x :: x in visited <==> x in stack || x in order)
  }

  // Rule v is next: the one the search starts with, or one the last rule on the stack depends on.
  ghost predicate Follows(g: Graph, stack: seq<nat>, v: nat) {
    v < |g| && (stack != [] ==> stack[|stack| - 1] < |g| && v in g[stack[|stack| - 1]])
  }

  function Start(stack: seq<nat>, v: nat): nat { if stack == [] then v else stack[0] }

  // Going down to v puts it on the stack.
  lemma Descend(g: Graph, stack: seq<nat>, order: seq<nat>, visited: set<nat>, v: nat)
    requires Searching(g, stack, order, visited) && Follows(g, stack, v) && v !in visited
    ensures Searching(g, stack + [v], order, visited + {v}) && (stack + [v])[0] == Start(stack, v)
  {
  }

  // A rule on the stack that the last one depends on closes a cycle.
  lemma BackEdge(g: Graph, stack: seq<nat>, x: nat)
    requires stack != [] && Path(g, stack) && x in g[stack[|stack| - 1]] && x in stack
    ensures CycleFrom(g, stack[0])
  {
    var k :| 0 <= k < |stack| && stack[k] == x;
    var tail := stack[k..];
    forall i | 0 <= i < |tail| - 1 ensures tail[i + 1] in g[tail[i]] {
      assert tail[i] == stack[i + k] && tail[i + 1] == stack[i + k + 1];
    }
    assert tail[|tail| - 1] == stack[|stack| - 1];
    var c := tail + [x];
    assert c[0] == x && c[|c| - 1] == x;
    assert Path(g, stack[..k + 1]);
    assert stack[..k + 1][0] == stack[0] && stack[..k + 1][k] == x;
    assert Loops(g, stack[0], c);
  }

  // Being done with the last rule on the stack moves it to the end of the order.
  lemma Ascend(g: Graph, stack: seq<nat>, v: nat, order: seq<nat>, visited: set<nat>)
    requires Searching(g, stack + [v], order, visited)
    requires v < |g| && forall x :: x in g[v] ==> x in order
    ensures Searching(g, stack, order + [v], visited)
  {
    var all := stack + [v];
    assert all[|stack|] == v && v in all;
    assert forall x :: x in all <==> x in stack || x == v;
    assert forall x :: x in order + [v] <==> x in order || x == v;
    if stack != [] {
      forall i | 0 <= i < |stack| ensures stack[i] < |g| {
        assert stack[i] == all[i];
      }
      forall i | 0 <= i < |stack| - 1 ensures stack[i + 1] in g[stack[i]] {
        assert all[i + 1] in g[all[i]];
      }
    }
    assert v !in stack by {
      forall i | 0 <= i < |stack| ensures stack[i] != v { assert all[i] != all[|stack|]; }
    }
    forall i, j | 0 <= i < j < |stack| ensures stack[i] != stack[j] { assert all[i] != all[j]; }
    SortedPlus(g, order, v);
  }

  lemma SortedPlus(g: Graph, order: seq<nat>, v: nat)
    requires Sorted(g, order) && v < |g| && v !in order && forall x :: x in g[v] ==> x in order
    ensures Sorted(g, order + [v])
  {
    var longer := order + [v];
    forall i, x | 0 <= i < |longer| && x in g[longer[i]] ensures x in longer[..i] {
      assert longer[..i] == order[..i];
      if i == |order| {
        assert order[..i] == order;
      }
    }
  }

  // Along a path from a rule of a sorted list the places go down, so nothing leads back.
  lemma {:induction false} PathGoesDown(g: Graph, order: seq<nat>, p: seq<nat>, k: nat) returns (m: nat)
    requires Sorted(g, order) && Path(g, p) && k < |order| && p[0] == order[k]
    ensures m <= k && order[m] == p[|p| - 1] && (|p| >= 2 ==> m < k)
    decreases |p|
  {
    if |p| == 1 {
      m := k;
    } else {
      assert p[0 + 1] in g[p[0]];
      assert p[1] in order[..k];
      var j :| 0 <= j < k && order[j] == p[1];
      var tail := p[1..];
      forall i | 0 <= i < |tail| - 1 ensures tail[i + 1] in g[tail[i]] {
        assert p[i + 1 + 1] in g[p[i + 1]];
      }
      m := PathGoesDown(g, order, tail, j);
    }
  }

  lemma ReachedIsListed(g: Graph, order: seq<nat>, a: nat, b: nat)
    requires Sorted(g, order) && a in order && Reaches(g, a, b)
    ensures b in order
  {
    var p :| Path(g, p) && p[0] == a && p[|p| - 1] == b;
    var k :| 0 <= k < |order| && order[k] == a;
    var m := PathGoesDown(g, order, p, k);
  }

  // A set that holds all its members depend on holds all they reach.
  lemma {:induction false} PathStaysIn(g: Graph, s: set<nat>, p: seq<nat>, i: nat)
    requires Path(g, p) && p[0] in s && i < |p|
    requires forall x, y :: x in s && x < |g| && y in g[x] ==> y in s
    ensures p[i] in s
  {
    if i > 0 {
      PathStaysIn(g, s, p, i - 1);
      assert p[i - 1 + 1] in g[p[i - 1]];
    }
  }

  lemma ClosedContains(g: Graph, s: set<nat>, a: nat, b: nat)
    requires a in s && Reaches(g, a, b)
    requires forall x, y :: x in s && x < |g| && y in g[x] ==> y in s
    ensures b in s
  {
    var p :| Path(g, p) && p[0] == a && p[|p| - 1] == b;
    PathStaysIn(g, s, p, |p| - 1);
  }

  // What can be sorted has no cycle.
  lemma SortedIsAcyclic(g: Graph, order: seq<nat>, start: nat)
    requires Sorted(g, order) && start in order
    ensures !CycleFrom(g, start)
  {
    forall c ensures !Loops(g, start, c) {
      if Loops(g, start, c) {
        ReachedIsListed(g, order, start, c[0]);
        var k :| 0 <= k < |order| && order[k] == c[0];
        var m := PathGoesDown(g, order, c, k);
        assert false;
      }
    }
  }
}
