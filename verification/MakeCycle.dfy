// The cycle check of parallel_make/parmake.c.
module MakeCycle {
  import opened Listing
  import opened MakeGraph

  class Search {
    const g: Graph
    var visit: set<nat>
    var recurv: set<nat>

    constructor (g: Graph)
      ensures this.g == g && visit == {} && recurv == {}
    {
      this.g := g;
      visit := {};
      recurv := {};
    }

    // The marks on the current path, recurv, are always those of the stack.
    ghost predicate At(stack: seq<nat>, order: seq<nat>)
      reads this
    {
      Searching(g, stack, order, visit) && forall x :: x in recurv <==> x in stack
    }

    // A cycle is reported only if there is one; otherwise `order` grows to a sorted list that
    // holds the vertex, and the path marks are as before.
    method IsCyclic(vertex: nat, ghost stack: seq<nat>, ghost order: seq<nat>)
      returns (cyclic: bool, ghost done: seq<nat>)
      requires Valid(g) && At(stack, order) && Follows(g, stack, vertex) && vertex !in visit
      modifies this
      ensures old(visit) <= visit
      ensures cyclic ==> CycleFrom(g, Start(stack, vertex))
      ensures !cyclic ==> At(stack, done) && recurv == old(recurv)
      ensures !cyclic ==> order <= done && vertex in done
      decreases Below(|g|) - visit
    {
      hide CycleFrom;
      Descend(g, stack, order, visit, vertex);
      ghost var deeper := stack + [vertex];
      assert forall x :: x in deeper <==> x in stack || x == vertex;
      visit := visit + {vertex};
      recurv := recurv + {vertex};
      done := order;
      var neighbors := Enumerate(g[vertex]);
      var i := 0;
      while i < |neighbors|
        invariant 0 <= i <= |neighbors|
        invariant At(deeper, done) && order <= done
        invariant old(visit) + {vertex} <= visit
        invariant forall x :: x in neighbors[..i] ==> x in done
      {
        assert neighbors[i] in neighbors;
        if neighbors[i] !in visit {
          ghost var before := done;
          cyclic, done := IsCyclic(neighbors[i], deeper, done);
          if cyclic {
            return;
          }
          assert forall x :: x in before ==> x in done;
        }
        if neighbors[i] in recurv {
          BackEdge(g, deeper, neighbors[i]);
          return true, done;
        }
        assert neighbors[..i + 1] == neighbors[..i] + [neighbors[i]];
        i := i + 1;
      }
      assert neighbors[..i] == neighbors;
      Ascend(g, stack, vertex, done, visit);
      assert forall x :: x in done + [vertex] <==> x in done || x == vertex;
      assert vertex !in stack;
      recurv := recurv - {vertex};
      done := done + [vertex];
      return false, done;
    }

    // As parmake asks it of each goal: with nothing marked, the answer is yes exactly when a
    // cycle can be reached.
    method HasCycle(vertex: nat) returns (cyclic: bool)
      requires Valid(g) && vertex < |g|
      modifies this
      ensures cyclic <==> CycleFrom(g, vertex)
    {
      visit := {};
      recurv := {};
      ghost var done;
      cyclic, done := IsCyclic(vertex, [], []);
      if !cyclic {
        SortedIsAcyclic(g, done, vertex);
      }
    }

    // Lines 183-196: goals with a cycle are found first and erased afterwards, each at the place
    // it had at first.
    method DropCyclic(goals: seq<nat>) returns (r: Erasure)
      requires Valid(g) && forall k :: 0 <= k < |goals| ==> goals[k] < |g|
      modifies this
      ensures r == EraseEach(goals, CyclicAt(g, goals, |goals|))
    {
      hide CycleFrom;
      var toerase := [];
      var i := 0;
      while i < |goals|
        invariant 0 <= i <= |goals|
        invariant toerase == CyclicAt(g, goals, i)
      {
        var cyclic := HasCycle(goals[i]);
        if cyclic {
          toerase := toerase + [i];
        }
        i := i + 1;
      }
      var kept := goals;
      i := 0;
      while i < |toerase|
        invariant 0 <= i <= |toerase|
        invariant EraseEach(kept, toerase[i..]) == EraseEach(goals, toerase)
      {
        var idx := toerase[i];
        if idx >= |kept| {
          return OutOfRange;
        }
        assert toerase[i..][1..] == toerase[i + 1..];
        kept := kept[..idx] + kept[idx + 1..];
        i := i + 1;
      }
      return Kept(kept);
    }
  }

  // vector_erase insists that there is something to erase.
  datatype Erasure = Kept(goals: seq<nat>) | OutOfRange

  function EraseEach(list: seq<nat>, places: seq<nat>): Erasure
    decreases |places|
  {
    if places == [] then Kept(list)
    else if places[0] >= |list| then OutOfRange
    else EraseEach(list[..places[0]] + list[places[0] + 1..], places[1..])
  }

  // Where among the first n goals those with a cycle are.
  ghost function CyclicAt(g: Graph, goals: seq<nat>, n: nat): seq<nat>
    requires n <= |goals|
  {
    if n == 0 then []
    else CyclicAt(g, goals, n - 1) + if CycleFrom(g, goals[n - 1]) then [n - 1] else []
  }

  ghost function AcyclicOnes(g: Graph, goals: seq<nat>, n: nat): seq<nat>
    requires n <= |goals|
  {
    if n == 0 then []
    else AcyclicOnes(g, goals, n - 1) + if CycleFrom(g, goals[n - 1]) then [] else [goals[n - 1]]
  }

  lemma {:induction false} CyclicPlaces(g: Graph, goals: seq<nat>, n: nat)
    requires n <= |goals|
    ensures forall k: nat :: k in CyclicAt(g, goals, n) <==> k < n && CycleFrom(g, goals[k])
    ensures forall i, j :: 0 <= i < j < |CyclicAt(g, goals, n)| ==> CyclicAt(g, goals, n)[i] < CyclicAt(g, goals, n)[j]
  {
    hide CycleFrom;
    if n > 0 {
      CyclicPlaces(g, goals, n - 1);
      var before := CyclicAt(g, goals, n - 1);
      assert forall i :: 0 <= i < |before| ==> before[i] in before;
    }
  }

  lemma {:induction false} AcyclicMembers(g: Graph, goals: seq<nat>, n: nat)
    requires n <= |goals|
    ensures forall x :: x in AcyclicOnes(g, goals, n) <==> x in goals[..n] && !CycleFrom(g, x)
    ensures Distinct(goals) ==> Distinct(AcyclicOnes(g, goals, n))
  {
    hide CycleFrom;
    if n > 0 {
      AcyclicMembers(g, goals, n - 1);
      assert goals[..n] == goals[..n - 1] + [goals[n - 1]];
      assert forall i :: 0 <= i < n - 1 ==> goals[..n - 1][i] == goals[i];
    }
  }

  lemma {:induction false} ErasedBehind(list: seq<nat>, places: seq<nat>, p: nat)
    requires p < |list| && (forall i :: 0 <= i < |places| ==> p < places[i]) && EraseEach(list, places).Kept?
    ensures list[p] in EraseEach(list, places).goals
    decreases |places|
  {
    if places != [] {
      ErasedBehind(list[..places[0]] + list[places[0] + 1..], places[1..], p);
    }
  }

  // Erasing leaves just the goals without a cycle exactly when at most one goal has a cycle: with
  // more, the second of them is always left.
  lemma DropExact(g: Graph, goals: seq<nat>)
    ensures EraseEach(goals, CyclicAt(g, goals, |goals|)) == Kept(AcyclicOnes(g, goals, |goals|))
        <==> |CyclicAt(g, goals, |goals|)| <= 1
  {
    hide CycleFrom;
    var places := CyclicAt(g, goals, |goals|);
    CyclicPlaces(g, goals, |goals|);
    if |places| <= 1 {
      OneErased(g, goals, |goals|);
      assert goals[..|goals|] == goals;
      if |places| == 1 {
        assert places[1..] == [];
        assert goals[places[0] + 1..|goals|] == goals[places[0] + 1..];
      }
    } else if EraseEach(goals, places).Kept? {
      assert places[0] in places && places[1] in places;
      var list := goals[..places[0]] + goals[places[0] + 1..];
      assert list[places[1] - 1] == goals[places[1]];
      ErasedBehind(list, places[1..], places[1] - 1);
      AcyclicMembers(g, goals, |goals|);
    }
  }

  lemma {:induction false} OneErased(g: Graph, goals: seq<nat>, n: nat)
    requires n <= |goals|
    ensures CyclicAt(g, goals, n) == [] ==> AcyclicOnes(g, goals, n) == goals[..n]
    ensures |CyclicAt(g, goals, n)| == 1 ==> CyclicAt(g, goals, n)[0] < n
    ensures |CyclicAt(g, goals, n)| == 1 ==>
      AcyclicOnes(g, goals, n) == goals[..CyclicAt(g, goals, n)[0]] + goals[CyclicAt(g, goals, n)[0] + 1..n]
  {
    hide CycleFrom;
    if n > 0 {
      OneErased(g, goals, n - 1);
      if CycleFrom(g, goals[n - 1]) {
        assert goals[..n - 1] + goals[n..n] == goals[..n - 1];
      } else {
        assert goals[..n] == goals[..n - 1] + [goals[n - 1]];
        if |CyclicAt(g, goals, n)| == 1 {
          var p := CyclicAt(g, goals, n)[0];
          assert goals[p + 1..n] == goals[p + 1..n - 1] + [goals[n - 1]];
        }
      }
    }
  }
}
