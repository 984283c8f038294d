// parallel_make/parmake.c: which rules are needed, and how one worker gets through them.
module Parmake {
  import opened Listing
  import opened MakeGraph
  import opened MakeRun
  import opened MakeCycle

  ghost predicate Wanted(g: Graph, goals: seq<nat>, x: nat) {
    exists k :: 0 <= k < |goals| && Reaches(g, goals[k], x)
  }

  // No goal without dependencies can be reached from an earlier goal.
  ghost predicate NoLeafTwice(g: Graph, goals: seq<nat>) {
    forall i, j :: 0 <= i < j < |goals| && goals[j] < |g| && g[goals[j]] == {} ==> !Reaches(g, goals[i], goals[j])
  }

  ghost predicate Acyclic(g: Graph, goals: seq<nat>) {
    forall k :: 0 <= k < |goals| ==> goals[k] < |g| && !CycleFrom(g, goals[k])
  }

  // `queue` holds exactly the leaves of `list`, each once.
  ghost predicate LeavesOnce(g: Graph, queue: seq<nat>, list: seq<nat>) {
    Distinct(queue) && forall x :: x in queue <==> x in list && x < |g| && g[x] == {}
  }

  // `left` lists the goals not done yet, and `finished` counts the others.
  ghost predicate GoalsLeft(goals: seq<nat>, done: seq<nat>, left: seq<nat>, finished: nat) {
    && Distinct(left) && |goals| == finished + |left|
    && forall x :: x in left <==> x in goals && x !in done
  }

  ghost function Elements(list: seq<nat>): set<nat> { set x | x in list }

  ghost predicate DependsOnFailed(g: Graph, st: seq<int>, x: nat)
    requires x < |g| == |st|
  {
    exists y :: y in g[x] && y < |g| && st[y] == FAILED
  }

  // ----- The world outside -----

  datatype Time = Absent | At(seconds: int)

  // When a file was last modified, as seen when rule number i is pulled; how many commands a rule has; and what command
  // number k returns when it is run then.
  datatype World = World(mtime: (nat, nat) -> Time, commands: nat -> nat, status: (nat, nat) -> int)

  // The file of rule x is missing, or one it depends on is missing or more than a second newer.
  ghost predicate OutOfDate(w: World, g: Graph, i: nat, x: nat)
    requires x < |g|
  {
    w.mtime(i, x).Absent? || exists y :: y in g[x] && Newer(w.mtime(i, y), w.mtime(i, x))
  }

  predicate Newer(a: Time, b: Time)
    requires b.At?
  {
    a.Absent? || a.seconds - b.seconds > 1
  }

  // Some command of rule x fails when they are run at pull number i.
  predicate Breaks(w: World, i: nat, x: nat) {
    exists k :: 0 <= k < w.commands(x) && w.status(i, k) != 0
  }

  // `ran` holds the numbers of the pulls at which commands were run. At pull number i those of x were, and failed.
  predicate FailedAt(w: World, pushed: seq<nat>, ran: set<nat>, i: nat, x: nat) {
    i in ran && i < |pushed| && pushed[i] == x && Breaks(w, i, x)
  }

  // Whether pull number i has to run commands: the rule is out of date, all it depends on is satisfied, and its commands
  // have not failed before.
  ghost predicate MustRun(w: World, g: Graph, st: seq<int>, pushed: seq<nat>, ran: set<nat>, i: nat)
    requires i < |pushed|
  {
    var x := pushed[i];
    && x < |g| && OutOfDate(w, g, i, x)
    && (forall y :: y in g[x] ==> y < |st| && st[y] == SATISFIED)
    && (forall j :: 0 <= j < i ==> !FailedAt(w, pushed, ran, j, x))
  }

  ghost predicate Logged(w: World, g: Graph, r: Run, ran: set<nat>) {
    && r.n <= |r.pushed|
    && (forall i :: i in ran ==> i < r.n)
    && (forall i :: 0 <= i < r.n ==> (i in ran <==> MustRun(w, g, r.st, r.pushed, ran, i)))
    && (forall x :: x in r.broken <==> exists i :: FailedAt(w, r.pushed, ran, i, x))
  }

  // Each rule on the list ended failed or satisfied; it failed exactly if its commands were run and one failed, or
  // something it depends on failed.
  ghost predicate Explained(w: World, g: Graph, list: seq<nat>, st: seq<int>, ran: set<nat>) {
    && |st| == |g|
    && (forall x :: x in list ==> x < |g| && (st[x] == SATISFIED || st[x] == FAILED))
    && (forall x :: x in list ==>
          (st[x] == FAILED <==> (exists i :: FailedAt(w, list, ran, i, x)) || DependsOnFailed(g, st, x)))
  }

  // Each rule on the list ended failed or satisfied; it failed exactly if its own commands did
  // or something it depends on failed.
  ghost predicate Settled(g: Graph, list: seq<nat>, st: seq<int>, broken: set<nat>) {
    && |st| == |g|
    && (forall x :: x in list ==> x < |g| && (st[x] == SATISFIED || st[x] == FAILED))
    && (forall x :: x in list ==> (st[x] == FAILED <==> x in broken || DependsOnFailed(g, st, x)))
  }

  class Make {
    const g: Graph
    var st: seq<int>
    var q: seq<nat>
    var visited: set<nat>
    var goal: seq<nat>
    var numgoals: nat
    var numgoalfin: nat
    // Whether "EOF" is on the queue, behind everything in q.
    var eof: bool

    // What is outside, and how many rules were pulled, which is the time at which it is asked.
    const world: World
    var n: nat

    // All pushes so far, the rules whose own commands failed, and the pulls at which commands were run.
    ghost var pushed: seq<nat>
    ghost var broken: set<nat>
    ghost var ran: set<nat>

    constructor (g: Graph, world: World)
      ensures this.g == g && this.world == world && q == [] && visited == {} && Marked(st, g, {})
    {
      this.g := g;
      this.world := world;
      st := seq(|g|, i => IDLE);
      q := [];
      visited := {};
    }

    // The rules needed are the visited ones.
    static ghost predicate Marked(st: seq<int>, g: Graph, visited: set<nat>) {
      |st| == |g| && forall x :: 0 <= x < |g| ==> st[x] == if x in visited then WAITING else IDLE
    }

    // dfs. On a rule not seen before, everything it reaches is marked as needed, and the leaves among
    // what is new go on the queue, each once. On one already seen (parmake calls it on every goal)
    // it does nothing but push a leaf once more.
    method Dfs(vertex: nat, ghost stack: seq<nat>, ghost order: seq<nat>) returns (ghost done: seq<nat>)
      requires Valid(g) && Marked(st, g, visited)
      requires Searching(g, stack, order, visited) && Follows(g, stack, vertex)
      requires vertex !in visited || stack == []
      requires !CycleFrom(g, Start(stack, vertex))
      modifies `st, `q, `visited
      ensures Marked(st, g, visited) && Searching(g, stack, done, visited) && old(visited) <= visited
      ensures order <= done && vertex in done
      ensures forall x :: x in done[|order|..] ==> Reaches(g, vertex, x)
      ensures old(q) <= q
      ensures vertex !in old(visited) ==> LeavesOnce(g, q[|old(q)|..], done[|order|..])
      ensures vertex in old(visited) ==> done == order && q == old(q) + if g[vertex] == {} then [vertex] else []
      decreases Below(|g|) - visited
    {
      hide CycleFrom, Reaches;
      ghost var again := vertex in visited;
      ghost var deeper := stack + [vertex];
      if again {
      } else {
        Descend(g, stack, order, visited, vertex);
      }
      st := st[vertex := WAITING];
      visited := visited + {vertex};
      done := order;
      var neighbors := Enumerate(g[vertex]);
      var i := 0;
      assert q[|q|..] == [] && done[|order|..] == [];
      while i < |neighbors|
        invariant 0 <= i <= |neighbors|
        invariant Marked(st, g, visited) && old(visited) + {vertex} <= visited
        invariant again ==> visited == old(visited) && q == old(q) && done == order
        invariant !again ==> Searching(g, deeper, done, visited)
        invariant order <= done && forall x :: x in neighbors[..i] ==> x in done
        invariant forall x :: x in done[|order|..] ==> Reaches(g, vertex, x)
        invariant old(q) <= q && LeavesOnce(g, q[|old(q)|..], done[|order|..])
      {
        assert neighbors[i] in neighbors;
        if neighbors[i] !in visited {
          ghost var done0, q0 := done, q;
          done := Dfs(neighbors[i], deeper, done);
          LeavesConcat(g, old(q), q0, q, order, done0, done);
          ReachesMore(g, vertex, neighbors[i], order, done0, done);
          assert forall x :: x in done0 ==> x in done;
        } else if !again {
          NoBackEdge(g, deeper, done, visited, neighbors[i]);
        }
        assert neighbors[..i + 1] == neighbors[..i] + [neighbors[i]];
        i := i + 1;
      }
      assert neighbors[..i] == neighbors;
      LeafOrNot(g[vertex], neighbors);
      if !again {
        assert deeper[|stack|] == vertex && vertex in deeper;
        Pushes(g, old(q), q, order, done, vertex);
        ReachesSelf(g, vertex);
        assert (done + [vertex])[|order|..] == done[|order|..] + [vertex];
        Ascend(g, stack, vertex, done, visited);
        done := done + [vertex];
      }
      if |neighbors| == 0 {
        q := q + [vertex];
      }
    }

    // ----- The worker -----

    ghost function Now(): Run
      reads this
    {
      Run(st, pushed, n, broken)
    }

    ghost predicate QueueIsRest()
      reads this
    {
      n <= |pushed| && q == pushed[n..]
    }

    ghost predicate Log()
      reads this
    {
      Logged(world, g, Now(), ran)
    }

    // run: the commands one after the other, up to one that fails.
    method RunCommands(vertex: nat, now: nat) returns (fail: bool)
      modifies `ran
      ensures fail <==> Breaks(world, now, vertex)
      ensures ran == old(ran) + {now}
    {
      ran := ran + {now};
      var i := 0;
      while i < world.commands(vertex)
        invariant 0 <= i <= world.commands(vertex)
        invariant forall k :: 0 <= k < i ==> world.status(now, k) == 0
      {
        var success := world.status(now, i);
        if success != 0 {
          return true;
        }
        i := i + 1;
      }
      return false;
    }

    // Lines 56-104: what becomes of a rule whose dependencies are all satisfied. Commands are run exactly if its file is
    // out of date.
    method Update(vertex: nat, now: nat) returns (fail: bool)
      requires vertex < |g| == |st| && Valid(g) && forall y :: y in g[vertex] ==> st[y] == SATISFIED
      modifies `ran
      ensures ran == old(ran) + if OutOfDate(world, g, now, vertex) then {now} else {}
      ensures fail <==> OutOfDate(world, g, now, vertex) && Breaks(world, now, vertex)
    {
      var buffer := world.mtime(now, vertex);
      if buffer.Absent? {
        fail := RunCommands(vertex, now);
      } else {
        var neighbors := Enumerate(g[vertex]);
        var outdated := false;
        for i := 0 to |neighbors|
          invariant forall k :: 0 <= k < i ==> !Newer(world.mtime(now, neighbors[k]), buffer)
          invariant !outdated
        {
          if Newer(world.mtime(now, neighbors[i]), buffer) {
            outdated := true;
            assert neighbors[i] in neighbors;
            break;
          }
        }
        if outdated {
          fail := RunCommands(vertex, now);
        } else {
          fail := false;
        }
      }
    }

    // Lines 129-145. In the program `ready` is set when a dependency is not done yet.
    method ReadDependencies(next: nat) returns (ready: bool, shouldfail: bool)
      requires Valid(g) && |st| == |g| && next < |g|
      requires forall y :: y in g[next] ==> st[y] != IDLE
      ensures ready <==> exists y :: y in g[next] && y < |g| && st[y] == WAITING
      ensures !ready ==> (shouldfail <==> exists y :: y in g[next] && y < |g| && st[y] == FAILED)
    {
      var dependency := Enumerate(g[next]);
      forall i | 0 <= i < |dependency| ensures dependency[i] < |g| {
        assert dependency[i] in dependency;
      }
      shouldfail := false;
      var j := 0;
      while j < |dependency|
        invariant 0 <= j <= |dependency|
        invariant forall i :: 0 <= i < j ==> st[dependency[i]] != WAITING
        invariant shouldfail <==> exists i :: 0 <= i < j && st[dependency[i]] == FAILED
      {
        assert dependency[j] in dependency && dependency[j] in g[next];
        if st[dependency[j]] == FAILED {
          shouldfail := true;
        }
        if st[dependency[j]] == WAITING {
          return true, shouldfail;
        }
        assert st[dependency[j]] != IDLE;
        j := j + 1;
      }
      return false, shouldfail;
    }

    // Lines 150-155. "EOF" stays behind everything else: once it is there, nothing is pushed.
    method Push(next: nat, shouldfail: bool, ghost active: set<nat>, ghost init: seq<nat>, ghost h: nat,
                ghost todo: set<nat>)
      requires Inv(g, active, init, Now(), h, todo) && QueueIsRest() && Log()
      requires next in todo && next in active && MayPush(g, Now(), next, shouldfail)
      requires eof ==> forall x :: x in active ==> x in pushed[..n]
      modifies `st, `q, `pushed
      ensures Inv(g, active, init, Now(), h, todo - {next}) && QueueIsRest() && Log() && !eof
      ensures pushed == old(pushed) + [next] && next !in pushed[..n]
    {
      hide Ordered, NoneSkipped, Caused, Once, Spread, Decided;
      AfterPush(g, active, init, Now(), h, todo, next, shouldfail);
      LogPush(world, g, active, init, Now(), h, todo, next, shouldfail, ran);
      assert next !in pushed[..n];
      if shouldfail {
        st := st[next := FAILED];
      }
      q := q + [next];
      pushed := pushed + [next];
      assert pushed[n..] == old(pushed)[n..] + [next];
      assert pushed[..n] == old(pushed)[..n];
    }

    // Lines 116-155: one rule that depends on the one just done.
    method Consider(next: nat, ghost active: set<nat>, ghost init: seq<nat>, ghost h: nat, ghost todo: set<nat>)
      requires Valid(g) && Inv(g, active, init, Now(), h, todo) && QueueIsRest() && Log()
      requires next < |g| && (next in active <==> next in todo)
      requires eof ==> forall x :: x in active ==> x in pushed[..n]
      modifies `st, `q, `pushed
      ensures Inv(g, active, init, Now(), h, todo - {next}) && QueueIsRest() && Log()
      ensures old(pushed) <= pushed && forall x :: x in pushed[|old(pushed)|..] ==> x !in pushed[..n]
      ensures eof ==> pushed == old(pushed)
    {
      hide Ordered, NoneSkipped, Caused, Once, Spread, Decided;
      assert pushed[|pushed|..] == [];
      if next !in active {
        assert todo - {next} == todo;
      }
      if st[next] == IDLE {
        return;
      }
      if st[next] == FAILED {
        Skip(g, active, init, Now(), h, todo, next);
        return;
      }
      NotYetSatisfied(g, active, init, Now(), h, todo, next);
      assert st[next] != SATISFIED;
      var ready, shouldfail := ReadDependencies(next);
      if ready {
        var y :| y in g[next] && y < |g| && st[y] == WAITING;
        NotReady(g, active, init, Now(), h, todo, next, y);
        return;
      }
      Push(next, shouldfail, active, init, h, todo);
    }

    // Lines 161-174
    method CountGoal(vertex: nat, ghost goals: seq<nat>, ghost done: seq<nat>)
      requires GoalsLeft(goals, done, goal, numgoalfin)
      modifies `goal, `numgoalfin
      ensures GoalsLeft(goals, done + [vertex], goal, numgoalfin) && old(numgoalfin) <= numgoalfin <= |goals|
    {
      var i := 0;
      while i < |goal|
        invariant 0 <= i <= |goal| && goal == old(goal) && numgoalfin == old(numgoalfin)
        invariant vertex !in goal[..i]
      {
        if vertex == goal[i] {
          numgoalfin := numgoalfin + 1;
          goal := goal[..i] + goal[i + 1..];
          return;
        }
        i := i + 1;
      }
      assert goal[..i] == goal;
    }

    // Lines 46-107: the next rule is pulled and, unless it failed already, brought up to date.
    method Take(ghost active: set<nat>, ghost init: seq<nat>, ghost prev: nat) returns (vertex: nat)
      requires Valid(g) && Inv(g, active, init, Now(), prev, {}) && QueueIsRest() && Log() && q != []
      requires eof ==> forall x :: x in active ==> x in pushed[..n]
      modifies `st, `q, `n, `broken, `ran
      ensures n == old(n) + 1 <= |pushed| && vertex == pushed[old(n)]
      ensures QueueIsRest() && Log() && pushed[..n] == pushed[..old(n)] + [vertex] && vertex < |g|
      ensures Inv(g, active, init, Now(), vertex, Dependents(g, vertex) * active)
      ensures eof ==> forall x :: x in active ==> x in pushed[..n]
    {
      hide Ordered, NoneSkipped, Caused, Once, Spread, Decided, OutOfDate, Breaks, MustRun, Logged;
      vertex := q[0];
      q := q[1..];
      PulledPrefix(pushed, n);
      ghost var before := Now();
      if st[vertex] != FAILED {
        ReadyToRun(g, active, init, Now(), prev, vertex);
        var fail := Update(vertex, n);
        if fail {
          st := st[vertex := FAILED];
          broken := broken + {vertex};
        } else {
          st := st[vertex := SATISFIED];
        }
      }
      n := n + 1;
      AfterPull(g, active, init, before, prev, Now());
      assert Pulled(world, g, before, Now(), old(ran), ran);
      hide Pulled, Inv;
      LogPull(world, g, active, init, before, prev, Now(), old(ran), ran);
    }

    // One turn of the worker's loop, on a queue that starts with a rule.
    method Turn(ghost active: set<nat>, ghost init: seq<nat>, ghost goals: seq<nat>, ghost prev: nat)
      returns (ghost h: nat)
      requires Valid(g) && Inv(g, active, init, Now(), prev, {}) && QueueIsRest() && Log() && q != []
      requires GoalsLeft(goals, pushed[..n], goal, numgoalfin)
      requires eof ==> forall x :: x in active ==> x in pushed[..n]
      modifies `st, `q, `pushed, `n, `broken, `ran, `goal, `numgoalfin
      ensures n == old(n) + 1 && old(pushed) <= pushed && h == old(pushed)[old(n)]
      ensures Inv(g, active, init, Now(), h, {}) && QueueIsRest() && Log()
      ensures GoalsLeft(goals, pushed[..n], goal, numgoalfin) && old(numgoalfin) <= numgoalfin <= |goals|
      ensures forall x :: x in pushed[|old(pushed)|..] ==> x !in pushed[..n]
      ensures eof ==> pushed == old(pushed)
    {
      hide Inv, GoalsLeft;
      var vertex := Take(active, init, prev);
      h := vertex;
      var antineighbor := Enumerate(Dependents(g, vertex));
      Scan(vertex, antineighbor, active, init);
      assert pushed[..n] == old(pushed)[..n];
      CountGoal(vertex, goals, old(pushed)[..old(n)]);
    }

    // Lines 110-159
    method Scan(vertex: nat, antineighbor: seq<nat>, ghost active: set<nat>, ghost init: seq<nat>)
      requires Valid(g) && QueueIsRest() && Log() && Distinct(antineighbor)
      requires Inv(g, active, init, Now(), vertex, Dependents(g, vertex) * active)
      requires forall x :: x in antineighbor <==> x in Dependents(g, vertex)
      requires eof ==> forall x :: x in active ==> x in pushed[..n]
      modifies `st, `q, `pushed
      ensures Inv(g, active, init, Now(), vertex, {}) && QueueIsRest() && Log()
      ensures old(pushed) <= pushed && forall x :: x in pushed[|old(pushed)|..] ==> x !in pushed[..n]
      ensures eof ==> pushed == old(pushed)
    {
      hide Ordered, NoneSkipped, Caused, Once, Spread, Decided;
      ghost var todo := Dependents(g, vertex) * active;
      var i := 0;
      while i < |antineighbor|
        invariant 0 <= i <= |antineighbor|
        invariant QueueIsRest() && Log() && Inv(g, active, init, Now(), vertex, todo)
        invariant forall x :: x in todo <==> x in antineighbor[i..] && x in active
        invariant old(pushed) <= pushed && forall x :: x in pushed[|old(pushed)|..] ==> x !in pushed[..n]
        invariant eof ==> pushed == old(pushed)
      {
        ghost var before := pushed;
        assert antineighbor[i] in antineighbor;
        assert antineighbor[i..] == [antineighbor[i]] + antineighbor[i + 1..];
        assert pushed[..n] == old(pushed)[..n];
        Consider(antineighbor[i], active, init, vertex, todo);
        assert pushed[|old(pushed)|..] == before[|old(pushed)|..] + pushed[|before|..];
        assert pushed[..n] == before[..n];
        todo := todo - {antineighbor[i]};
        i := i + 1;
      }
      assert todo == {};
    }

    // ----- The main thread -----

    // Lines 197-202: every goal is searched, with one set of visited rules.
    method SearchGoals(goals: seq<nat>) returns (ghost order: seq<nat>)
      requires Valid(g) && Acyclic(g, goals) && Marked(st, g, {}) && visited == {} && q == []
      modifies `st, `q, `visited
      ensures Marked(st, g, visited) && Searching(g, [], order, visited)
      ensures forall x :: x in order <==> Wanted(g, goals, x)
      ensures forall x :: x in q <==> x in order && x < |g| && g[x] == {}
      ensures Distinct(q) <==> NoLeafTwice(g, goals)
    {
      hide NoLeafTwice, Wanted, CycleFrom, Sorted, LeavesOnce, Marked, Distinct;
      order := [];
      EmptyIsSorted(g);
      NothingWanted(g, goals);
      var i := 0;
      while i < |goals|
        invariant 0 <= i <= |goals|
        invariant Marked(st, g, visited) && Searching(g, [], order, visited)
        invariant forall x :: x in order <==> Wanted(g, goals[..i], x)
        invariant forall x :: x in q <==> x in order && x < |g| && g[x] == {}
        invariant Distinct(q) <==> NoLeafTwice(g, goals[..i])
      {
        ghost var q0, order0 := q, order;
        order := Dfs(goals[i], [], order);
        MoreWanted(g, goals, i, order0, order);
        SortedIsDistinct(g, order);
        MoreLeaves(g, goals[i], q0, q, order0, order);
        LeafTwiceStep(g, goals, i);
        i := i + 1;
      }
      assert goals[..i] == goals;
    }

    // Lines 197-218, with one worker. What the rules have gone through when it is over:
    // `pushed` is then the list of all pulls.
    method Build(goals: seq<nat>)
      requires Valid(g) && Distinct(goals) && Acyclic(g, goals)
      requires Marked(st, g, {}) && visited == {} && q == []
      modifies this
      ensures forall x :: x in pushed <==> Wanted(g, goals, x)
      ensures Ordered(g, pushed)
      ensures Distinct(pushed) <==> NoLeafTwice(g, goals)
      ensures numgoals == numgoalfin == |goals| && q == []
      // Commands are run exactly for what is out of date and can be built, and failures spread from there.
      ensures Explained(world, g, pushed, st, ran)
      ensures forall i :: i in ran ==> i < |pushed|
      ensures forall i :: 0 <= i < |pushed| ==> (i in ran <==> MustRun(world, g, st, pushed, ran, i))
    {
      hide Ordered, NoLeafTwice, Wanted, GoalsLeft, Sorted, Inv, Settled, Distinct;
      ghost var order := SearchGoals(goals);
      ghost var init := q;
      ghost var active := visited;
      numgoalfin := 0;
      numgoals := |goals|;
      goal := goals;
      eof := false;
      pushed, n, broken, ran := q, 0, {}, {};
      NothingLogged(world, g, st, q);
      GoalsStart(goals);
      RunStarts(g, order, active, init, st);
      assert pushed[..n] == [];
      Work(goals, order, active, init);
    }

    // parmake as a whole, where dropping the goals with a cycle works: at most one has one.
    method MakeGoals(goals: seq<nat>)
      requires Valid(g) && Distinct(goals) && forall k :: 0 <= k < |goals| ==> goals[k] < |g|
      requires |CyclicAt(g, goals, |goals|)| <= 1
      requires Marked(st, g, {}) && visited == {} && q == []
      modifies this
      ensures forall x :: x in AcyclicOnes(g, goals, |goals|) <==> x in goals && !CycleFrom(g, x)
      ensures forall x :: x in pushed <==> Wanted(g, AcyclicOnes(g, goals, |goals|), x)
      ensures Ordered(g, pushed) && Explained(world, g, pushed, st, ran)
      ensures forall i :: i in ran ==> i < |pushed|
      ensures forall i :: 0 <= i < |pushed| ==> (i in ran <==> MustRun(world, g, st, pushed, ran, i))
      ensures Distinct(pushed) <==> NoLeafTwice(g, AcyclicOnes(g, goals, |goals|))
    {
      hide Ordered, NoLeafTwice, Wanted, Settled, CycleFrom;
      var search := new Search(g);
      var r := search.DropCyclic(goals);
      DropExact(g, goals);
      AcyclicMembers(g, goals, |goals|);
      assert goals[..|goals|] == goals;
      assert forall k :: 0 <= k < |r.goals| ==> r.goals[k] in r.goals;
      Build(r.goals);
    }

    // The worker's loop, and the main thread waiting for the last goal.
    method Work(ghost goals: seq<nat>, ghost order: seq<nat>, ghost active: set<nat>, ghost init: seq<nat>)
      requires Valid(g) && Inv(g, active, init, Now(), 0, {}) && QueueIsRest() && Log() && n == 0 && !eof
      requires GoalsLeft(goals, pushed[..n], goal, numgoalfin) && numgoals == |goals|
      requires Sorted(g, order) && forall x :: x in order <==> x in active
      requires forall x :: x in active <==> Wanted(g, goals, x)
      requires forall k :: 0 <= k < |goals| ==> goals[k] < |g|
      modifies `st, `q, `pushed, `n, `broken, `ran, `goal, `numgoalfin, `eof
      ensures forall x :: x in pushed <==> x in active
      ensures Ordered(g, pushed) && (Distinct(pushed) <==> Distinct(init))
      ensures numgoals == numgoalfin && q == []
      ensures Explained(world, g, pushed, st, ran) && Log() && n == |pushed|
    {
      hide Ordered, Wanted, Consistent, Decided, NoneSkipped, Caused, Once, Spread, GoalsLeft, Sorted, Inv, Settled;
      hide Logged, Explained, Elements, Repeats;
      ghost var h := 0;
      while !(eof && q == [])
        invariant Inv(g, active, init, Now(), h, {}) && QueueIsRest() && Log()
        invariant GoalsLeft(goals, pushed[..n], goal, numgoalfin) && numgoals == |goals|
        invariant eof ==> numgoalfin == numgoals && forall x :: x in active ==> x in pushed[..n]
        decreases active - Elements(pushed[..n]), Repeats(q, Elements(pushed[..n])), !eof
      {
        var soon: bool := *;
        if !eof && numgoalfin == numgoals && (q == [] || soon) {
          // The main thread wakes up and pushes "EOF".
          GoalsReached(g, goals, goal, numgoalfin, active, init, Now(), h);
          eof := true;
        } else {
          if q == [] {
            // The worker would sleep for good; but by now every goal was counted.
            QueueRunsDry(g, goals, goal, numgoalfin, active, init, Now(), h, order);
            assert false;
          }
          ghost var before, old_n := pushed, n;
          NextIsActive(g, active, init, Now(), h);
          h := Turn(active, init, goals, h);
          TurnDecreases(active, before, old_n, pushed);
        }
      }
      RunEnds(g, active, init, Now(), h);
      Explain(world, g, Now(), ran);
    }
  }

  lemma Explain(w: World, g: Graph, r: Run, ran: set<nat>)
    requires Settled(g, r.pushed, r.st, r.broken) && Logged(w, g, r, ran)
    ensures Explained(w, g, r.pushed, r.st, ran)
  {
  }

  lemma NothingLogged(w: World, g: Graph, st: seq<int>, init: seq<nat>)
    ensures Logged(w, g, Run(st, init, 0, {}), {})
  {
  }

  // What was pulled up to i does not depend on what is pulled at n or pushed later.
  lemma NotNeededBefore(g: Graph, pushed: seq<nat>, i: nat, k: nat)
    requires Ordered(g, pushed) && i <= k < |pushed| && pushed[i] < |g|
    ensures pushed[k] !in g[pushed[i]]
  {
    assert pushed[i..][k - i] == pushed[k];
  }

  // What a pull makes of the state, the rules that are broken and the log.
  ghost predicate Pulled(w: World, g: Graph, r: Run, s: Run, ran: set<nat>, ran': set<nat>)
    requires r.n < |r.pushed| && r.pushed[r.n] < |g| == |r.st|
  {
    var h := r.pushed[r.n];
    && s.pushed == r.pushed && s.n == r.n + 1
    && if r.st[h] == FAILED then
         s.st == r.st && s.broken == r.broken && ran' == ran
       else
         && ran' == ran + (if OutOfDate(w, g, r.n, h) then {r.n} else {})
         && if OutOfDate(w, g, r.n, h) && Breaks(w, r.n, h) then s.st == r.st[h := FAILED] && s.broken == r.broken + {h}
            else s.st == r.st[h := SATISFIED] && s.broken == r.broken
  }

  lemma LogPull(w: World, g: Graph, active: set<nat>, init: seq<nat>, r: Run, prev: nat, s: Run, ran: set<nat>, ran': set<nat>)
    requires Inv(g, active, init, r, prev, {}) && r.n < |r.pushed| && r.pushed[r.n] < |g|
    requires Logged(w, g, r, ran) && Pulled(w, g, r, s, ran, ran')
    ensures Logged(w, g, s, ran')
  {
    hide NoneSkipped, Once, Spread, Caused, Decided, OutOfDate, Breaks, MustRun;
    PullBroken(w, g, r, s, ran, ran');
    forall i | 0 <= i < s.n ensures i in ran' <==> MustRun(w, g, s.st, s.pushed, ran', i) {
      if i < r.n {
        PullKeepsMustRun(w, g, active, r, s, ran, ran', i);
      } else {
        PullMustRun(w, g, active, init, r, prev, s, ran, ran');
      }
    }
    hide FailedAt;
  }

  lemma PullBroken(w: World, g: Graph, r: Run, s: Run, ran: set<nat>, ran': set<nat>)
    requires r.n < |r.pushed| && r.pushed[r.n] < |g| == |r.st| && Logged(w, g, r, ran) && Pulled(w, g, r, s, ran, ran')
    ensures forall x :: x in s.broken <==> exists i :: FailedAt(w, s.pushed, ran', i, x)
  {
    hide OutOfDate, Breaks, MustRun;
    var h := r.pushed[r.n];
    forall x ensures x in s.broken <==> exists i :: FailedAt(w, s.pushed, ran', i, x) {
      if x in r.broken {
        var i :| FailedAt(w, r.pushed, ran, i, x);
        assert FailedAt(w, s.pushed, ran', i, x);
      } else if x in s.broken {
        assert FailedAt(w, s.pushed, ran', r.n, x);
      }
      forall i: nat | FailedAt(w, s.pushed, ran', i, x) ensures x in s.broken {
        if i < r.n {
          assert FailedAt(w, r.pushed, ran, i, x);
        }
      }
    }
  }

  lemma PullKeepsMustRun(w: World, g: Graph, active: set<nat>, r: Run, s: Run, ran: set<nat>, ran': set<nat>, i: nat)
    requires Consistent(g, active, r) && Ordered(g, r.pushed) && i < r.n < |r.pushed| && s.pushed == r.pushed
    requires r.pushed[r.n] < |g| && |s.st| == |r.st| && forall y :: 0 <= y < |g| && y != r.pushed[r.n] ==> s.st[y] == r.st[y]
    requires forall j :: 0 <= j < r.n ==> (j in ran' <==> j in ran)
    ensures MustRun(w, g, s.st, s.pushed, ran', i) <==> MustRun(w, g, r.st, r.pushed, ran, i)
  {
    assert r.pushed[i] in r.pushed;
    NotNeededBefore(g, r.pushed, i, r.n);
    assert forall j, x :: 0 <= j < i ==> (FailedAt(w, r.pushed, ran', j, x) <==> FailedAt(w, r.pushed, ran, j, x));
  }

  lemma PullMustRun(w: World, g: Graph, active: set<nat>, init: seq<nat>, r: Run, prev: nat, s: Run, ran: set<nat>, ran': set<nat>)
    requires Inv(g, active, init, r, prev, {}) && r.n < |r.pushed| && r.pushed[r.n] < |g| && s.pushed == r.pushed
    requires Logged(w, g, r, ran) && |s.st| == |r.st| && forall y :: 0 <= y < |g| && y != r.pushed[r.n] ==> s.st[y] == r.st[y]
    requires ran' == ran + (if r.st[r.pushed[r.n]] != FAILED && OutOfDate(w, g, r.n, r.pushed[r.n]) then {r.n} else {})
    ensures r.n in ran' <==> MustRun(w, g, s.st, s.pushed, ran', r.n)
  {
    hide NoneSkipped, Once;
    var h := r.pushed[r.n];
    assert h in r.pushed;
    NotNeededBefore(g, r.pushed, r.n, r.n);
    assert forall j, x :: 0 <= j < r.n ==> (FailedAt(w, r.pushed, ran', j, x) <==> FailedAt(w, r.pushed, ran, j, x));
    if r.st[h] == FAILED {
      if h in r.broken {
        var j :| FailedAt(w, r.pushed, ran, j, h);
      } else {
        assert Blocked(g, active, r.st, h);
      }
    } else {
      ReadyToRun(g, active, init, r, prev, h);
      assert h !in r.broken;
    }
  }

  lemma LogPush(w: World, g: Graph, active: set<nat>, init: seq<nat>, r: Run, h: nat, todo: set<nat>, x: nat, fails: bool,
                ran: set<nat>)
    requires Inv(g, active, init, r, h, todo) && x in todo && MayPush(g, r, x, fails) && Logged(w, g, r, ran)
    ensures Logged(w, g, Pushed(r, x, fails), ran)
  {
    hide NoneSkipped, Once, Spread, Caused, Decided, MustRun, Breaks;
    AfterPushOrdered(g, active, init, r, h, todo, x, fails);
    hide Ordered;
    var s := Pushed(r, x, fails);
    assert forall i, z :: FailedAt(w, s.pushed, ran, i, z) <==> FailedAt(w, r.pushed, ran, i, z);
    forall i | 0 <= i < s.n ensures MustRun(w, g, s.st, s.pushed, ran, i) <==> MustRun(w, g, r.st, r.pushed, ran, i) {
      PushKeepsMustRun(w, g, active, r, x, fails, ran, i);
    }
    hide FailedAt;
  }

  lemma PushKeepsMustRun(w: World, g: Graph, active: set<nat>, r: Run, x: nat, fails: bool, ran: set<nat>, i: nat)
    requires Consistent(g, active, r) && x < |g| && Ordered(g, r.pushed + [x]) && i < r.n && Logged(w, g, r, ran)
    ensures MustRun(w, g, Pushed(r, x, fails).st, r.pushed + [x], ran, i) <==> MustRun(w, g, r.st, r.pushed, ran, i)
  {
    var pushed := r.pushed + [x];
    assert pushed[i] == r.pushed[i] && r.pushed[i] in r.pushed;
    NotNeededBefore(g, pushed, i, |r.pushed|);
    assert forall j, z :: 0 <= j < i ==> (FailedAt(w, pushed, ran, j, z) <==> FailedAt(w, r.pushed, ran, j, z));
    hide FailedAt, Ordered, Logged, OutOfDate;
  }

  lemma NextIsActive(g: Graph, active: set<nat>, init: seq<nat>, r: Run, h: nat)
    requires Inv(g, active, init, r, h, {}) && r.n < |r.pushed|
    ensures r.pushed[r.n] in active
  {
  }

  lemma GoalsStart(goals: seq<nat>)
    requires Distinct(goals)
    ensures GoalsLeft(goals, [], goals, 0)
  {
  }

  lemma RunStarts(g: Graph, order: seq<nat>, active: set<nat>, init: seq<nat>, st: seq<int>)
    requires Sorted(g, order) && forall x :: x in order <==> x in active
    requires |st| == |g| && forall x :: 0 <= x < |g| ==> st[x] == if x in active then WAITING else IDLE
    requires forall x :: x in init <==> x in order && x < |g| && g[x] == {}
    ensures Inv(g, active, init, Run(st, init, 0, {}), 0, {})
  {
  }

  // A turn that pulls a rule for the first time leaves fewer to pull; any other leaves fewer
  // rules on the queue that were pulled before.
  lemma TurnDecreases(active: set<nat>, before: seq<nat>, n: nat, after: seq<nat>)
    requires n < |before| && before <= after && before[n] in active
    requires forall x :: x in after[|before|..] ==> x !in after[..n + 1]
    ensures before[n] !in before[..n] ==> active - Elements(after[..n + 1]) < active - Elements(before[..n])
    ensures before[n] in before[..n] ==> Elements(after[..n + 1]) == Elements(before[..n])
    ensures before[n] in before[..n] ==>
      Repeats(after[n + 1..], Elements(before[..n])) < Repeats(before[n..], Elements(before[..n]))
  {
    PulledPrefix(before, n);
    assert after[..n + 1] == before[..n + 1];
    assert after[n + 1..] == before[n + 1..] + after[|before|..];
    assert before[n..][1..] == before[n + 1..];
    if before[n] in before[..n] {
      assert Elements(after[..n + 1]) == Elements(before[..n]);
      RepeatsConcat(before[n + 1..], after[|before|..], Elements(before[..n]));
    } else {
      assert before[n] in active - Elements(before[..n]);
    }
  }

  // When every goal was counted, every active rule was pulled.
  lemma GoalsReached(g: Graph, goals: seq<nat>, left: seq<nat>, finished: nat, active: set<nat>,
                     init: seq<nat>, r: Run, h: nat)
    requires Inv(g, active, init, r, h, {}) && GoalsLeft(goals, r.pushed[..r.n], left, finished)
    requires finished == |goals| && forall x :: x in active <==> Wanted(g, goals, x)
    ensures forall x :: x in active ==> x in r.pushed[..r.n]
  {
    hide Inv, Reaches;
    PulledIsClosed(g, active, init, r, h);
    var done := Elements(r.pushed[..r.n]);
    forall x | x in active ensures x in done {
      var k :| 0 <= k < |goals| && Reaches(g, goals[k], x);
      assert goals[k] in goals && goals[k] in done;
      ClosedContains(g, done, goals[k], x);
    }
  }

  lemma PulledIsClosed(g: Graph, active: set<nat>, init: seq<nat>, r: Run, h: nat)
    requires Inv(g, active, init, r, h, {})
    ensures r.n <= |r.pushed|
    ensures forall x, y :: x in Elements(r.pushed[..r.n]) && x < |g| && y in g[x] ==> y in Elements(r.pushed[..r.n])
  {
  }

  lemma SomeMember(list: seq<nat>)
    ensures list != [] ==> exists x :: x in list
  {
    if list != [] {
      assert list[0] in list;
    }
  }

  lemma QueueRunsDry(g: Graph, goals: seq<nat>, left: seq<nat>, finished: nat, active: set<nat>,
                     init: seq<nat>, r: Run, h: nat, order: seq<nat>)
    requires Inv(g, active, init, r, h, {}) && GoalsLeft(goals, r.pushed[..r.n], left, finished)
    requires r.n == |r.pushed| && Sorted(g, order) && forall x :: x in order <==> x in active
    requires forall x :: x in active <==> Wanted(g, goals, x)
    requires forall k :: 0 <= k < |goals| ==> goals[k] < |g|
    ensures finished == |goals|
  {
    hide Reaches, Ordered, NoneSkipped, Caused, Once, Spread, Decided;
    AllPulled(g, active, init, r, h, order, |order|);
    assert order[..|order|] == order && r.pushed[..r.n] == r.pushed;
    forall k | 0 <= k < |goals| ensures goals[k] in active {
      ReachesSelf(g, goals[k]);
    }
    SomeMember(left);
  }

  lemma RunEnds(g: Graph, active: set<nat>, init: seq<nat>, r: Run, h: nat)
    requires Inv(g, active, init, r, h, {}) && r.n == |r.pushed|
    requires forall x :: x in active ==> x in r.pushed[..r.n]
    ensures forall x :: x in r.pushed <==> x in active
    ensures Ordered(g, r.pushed) && (Distinct(r.pushed) <==> Distinct(init))
    ensures Settled(g, r.pushed, r.st, r.broken)
  {
  }

  lemma EmptyIsSorted(g: Graph)
    ensures Sorted(g, []) && Distinct<nat>([])
  {
  }

  lemma SortedIsDistinct(g: Graph, order: seq<nat>)
    requires Sorted(g, order)
    ensures Distinct(order)
  {
  }

  lemma NothingWanted(g: Graph, goals: seq<nat>)
    ensures forall x :: !Wanted(g, goals[..0], x)
    ensures NoLeafTwice(g, goals[..0])
  {
  }

  // Searching one more goal lists exactly what it reaches and was not listed.
  lemma MoreWanted(g: Graph, goals: seq<nat>, i: nat, before: seq<nat>, after: seq<nat>)
    requires i < |goals| && goals[i] < |g| && Sorted(g, after) && before <= after && goals[i] in after
    requires forall x :: x in before <==> Wanted(g, goals[..i], x)
    requires forall x :: x in after[|before|..] ==> Reaches(g, goals[i], x)
    ensures forall x :: x in after <==> Wanted(g, goals[..i + 1], x)
  {
    hide Reaches;
    var more := goals[..i + 1];
    assert after == before + after[|before|..];
    forall x ensures x in after <==> Wanted(g, more, x) {
      if x in before {
        var k :| 0 <= k < i && Reaches(g, goals[..i][k], x);
        assert Reaches(g, more[k], x);
      } else if x in after {
        assert Reaches(g, more[i], x);
      }
      if Wanted(g, more, x) {
        var k :| 0 <= k <= i && Reaches(g, more[k], x);
        if k < i {
          assert Reaches(g, goals[..i][k], x);
        } else {
          ReachedIsListed(g, after, goals[i], x);
        }
      }
    }
  }

  lemma MoreLeaves(g: Graph, v: nat, q0: seq<nat>, q: seq<nat>, before: seq<nat>, after: seq<nat>)
    requires v < |g| && q0 <= q && before <= after && Distinct(after)
    requires forall x :: x in q0 <==> x in before && x < |g| && g[x] == {}
    requires v !in before ==> LeavesOnce(g, q[|q0|..], after[|before|..])
    requires v in before ==> after == before && q == q0 + if g[v] == {} then [v] else []
    ensures forall x :: x in q <==> x in after && x < |g| && g[x] == {}
    ensures Distinct(q) <==> Distinct(q0) && !(v in before && g[v] == {})
  {
    assert q == q0 + q[|q0|..] && after == before + after[|before|..];
    if v in before {
      if g[v] == {} {
        assert q[|q0|] == v && v in q0;
        var k :| 0 <= k < |q0| && q0[k] == v;
        assert q[k] == q[|q0|];
      }
    } else {
      if Distinct(q) {
        assert forall i :: 0 <= i < |q0| ==> q0[i] == q[i];
      }
      var fresh_ := q[|q0|..];
      forall i, j | 0 <= i < |q0| && 0 <= j < |fresh_| ensures q0[i] != fresh_[j] {
        assert q0[i] in before && fresh_[j] in after[|before|..];
        var k :| 0 <= k < |before| && before[k] == q0[i];
        var m :| 0 <= m < |after[|before|..]| && after[|before|..][m] == fresh_[j];
        assert after[k] == q0[i] && after[|before| + m] == fresh_[j];
      }
      assert forall j :: |q0| <= j < |q| ==> q[j] == fresh_[j - |q0|];
    }
  }

  lemma LeafTwiceStep(g: Graph, goals: seq<nat>, i: nat)
    requires i < |goals| && goals[i] < |g|
    ensures NoLeafTwice(g, goals[..i + 1])
        <==> NoLeafTwice(g, goals[..i]) && !(Wanted(g, goals[..i], goals[i]) && g[goals[i]] == {})
  {
  }

  lemma LeafOrNot(members: set<nat>, list: seq<nat>)
    requires forall x :: x in list <==> x in members
    ensures |list| == 0 <==> members == {}
  {
    if |list| > 0 {
      assert list[0] in list;
    }
  }

  lemma ReachesMore(g: Graph, v: nat, n: nat, order: seq<nat>, before: seq<nat>, after: seq<nat>)
    requires order <= before <= after && v < |g| && n in g[v]
    requires forall x :: x in before[|order|..] ==> Reaches(g, v, x)
    requires forall x :: x in after[|before|..] ==> Reaches(g, n, x)
    ensures forall x :: x in after[|order|..] ==> Reaches(g, v, x)
  {
    hide Reaches;
    assert after[|order|..] == before[|order|..] + after[|before|..];
    forall x | x in after[|before|..] ensures Reaches(g, v, x) {
      ReachesThrough(g, v, n, x);
    }
  }

  lemma NoBackEdge(g: Graph, stack: seq<nat>, order: seq<nat>, visited: set<nat>, x: nat)
    requires stack != [] && Searching(g, stack, order, visited) && x in visited
    requires x in g[stack[|stack| - 1]] && !CycleFrom(g, stack[0])
    ensures x in order
  {
    hide CycleFrom;
    if x in stack {
      BackEdge(g, stack, x);
    }
  }

  lemma LeavesConcat(g: Graph, q0: seq<nat>, q1: seq<nat>, q2: seq<nat>,
                     order0: seq<nat>, order1: seq<nat>, order2: seq<nat>)
    requires q0 <= q1 <= q2 && order0 <= order1 <= order2 && Distinct(order2)
    requires LeavesOnce(g, q1[|q0|..], order1[|order0|..]) && LeavesOnce(g, q2[|q1|..], order2[|order1|..])
    ensures LeavesOnce(g, q2[|q0|..], order2[|order0|..])
  {
    var a, b := order1[|order0|..], order2[|order1|..];
    var u, v := q1[|q0|..], q2[|q1|..];
    assert order2[|order0|..] == a + b && q2[|q0|..] == u + v;
    forall i, j | 0 <= i < |a| && 0 <= j < |b| ensures a[i] != b[j] {
      assert order2[|order0| + i] == a[i] && order2[|order1| + j] == b[j];
    }
    forall i, j | 0 <= i < j < |u + v| ensures (u + v)[i] != (u + v)[j] {
      if i < |u| <= j {
        assert (u + v)[i] in a && (u + v)[j] in v;
      }
    }
  }

  lemma Pushes(g: Graph, q0: seq<nat>, q: seq<nat>, order0: seq<nat>, order: seq<nat>, v: nat)
    requires q0 <= q && order0 <= order && LeavesOnce(g, q[|q0|..], order[|order0|..])
    requires v < |g| && v !in order
    ensures g[v] == {} ==> LeavesOnce(g, (q + [v])[|q0|..], (order + [v])[|order0|..])
    ensures g[v] != {} ==> LeavesOnce(g, q[|q0|..], (order + [v])[|order0|..])
  {
    assert (q + [v])[|q0|..] == q[|q0|..] + [v];
    assert (order + [v])[|order0|..] == order[|order0|..] + [v];
    assert forall x :: x in order[|order0|..] ==> x in order;
    assert v !in q[|q0|..];
  }

  // Rule 0 depends on rule 1, and both are goals, in that order: rule 1 is pulled twice.
  lemma LeafGoalTwice()
    ensures Acyclic([{1}, {}], [0, 1]) && !NoLeafTwice([{1}, {}], [0, 1])
  {
    var g: Graph := [{1}, {}];
    assert Path(g, [0, 1]);
    assert Reaches(g, 0, 1) by { assert [0, 1][0] == 0 && [0, 1][|[0, 1]| - 1] == 1; }
    assert [0, 1][0] == 0 && [0, 1][1] == 1;
    assert Sorted(g, [1, 0]) by { assert [1, 0][..1] == [1]; }
    assert 0 in [1, 0] && 1 in [1, 0];
    SortedIsAcyclic(g, [1, 0], 0);
    SortedIsAcyclic(g, [1, 0], 1);
  }
}
