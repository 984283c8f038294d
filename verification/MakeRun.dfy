// What a run of parmake with one worker keeps: the states of the rules and everything that was
// ever put on the queue.
module MakeRun {
  import opened Listing
  import opened MakeGraph

  // rule_t.state, parallel_make/parmake.c: 0 not needed, 1 not done, 2 failed, 4 satisfied.
  const IDLE := 0
  const WAITING := 1
  const FAILED := 2
  const SATISFIED := 4

  // `pushed` lists every push so far, in order; the first `n` of them were pulled and the rest is
  // the queue. `broken` holds the rules whose own commands failed.
  datatype Run = Run(st: seq<int>, pushed: seq<nat>, n: nat, broken: set<nat>)

  // No rule is on the list before something it depends on, nor is that ever put on it later.
  ghost predicate Ordered(g: Graph, list: seq<nat>) {
    forall i, y :: 0 <= i < |list| && list[i] < |g| && y in g[list[i]] ==> y in list[..i] && y !in list[i..]
  }

  // Something new that only needs what is on the list can be added.
  lemma OrderedPlus(g: Graph, list: seq<nat>, x: nat)
    requires Ordered(g, list) && x < |g| && forall y :: y in g[x] ==> y in list && y != x
    requires forall z :: z in list && z < |g| ==> x !in g[z]
    ensures Ordered(g, list + [x])
  {
    var all := list + [x];
    forall i, y | 0 <= i < |all| && all[i] < |g| && y in g[all[i]] ensures y in all[..i] && y !in all[i..] {
      if i < |list| {
        assert all[..i] == list[..i] && all[i..] == list[i..] + [x];
        assert all[i] in list;
      } else {
        assert all[..i] == list && all[i..] == [x];
      }
    }
  }

  ghost predicate Consistent(g: Graph, active: set<nat>, r: Run) {
    && |r.st| == |g| && r.n <= |r.pushed|
    && (forall x :: x in active ==> x < |g|)
    && (forall x :: 0 <= x < |g| ==> r.st[x] in {IDLE, WAITING, FAILED, SATISFIED})
    && (forall x :: 0 <= x < |g| ==> (r.st[x] == IDLE <==> x !in active))
    && (forall x :: x in r.pushed ==> x in active)
    && (forall x :: x in active && x in r.pushed[..r.n] ==> r.st[x] == FAILED || r.st[x] == SATISFIED)
    && (forall x :: x in active && r.st[x] == SATISFIED ==> x in r.pushed[..r.n])
    && (forall x :: x in active && r.st[x] == FAILED ==> x in r.pushed)
  }

  // Rules are pushed only when all they depend on is decided.
  ghost predicate Decided(g: Graph, active: set<nat>, r: Run)
    requires Consistent(g, active, r)
  {
    forall x, y :: x in r.pushed && y in g[x] ==> y in active && r.st[y] != WAITING
  }

  // A rule all of whose dependencies were pulled was pushed, or is still to be looked at.
  ghost predicate NoneSkipped(g: Graph, active: set<nat>, r: Run, todo: set<nat>)
    requires Consistent(g, active, r)
  {
    forall x :: x in active && (forall y :: y in g[x] ==> y in r.pushed[..r.n]) ==> x in r.pushed || x in todo
  }

  // Failure spreads to what was pushed, except while those that depend on h are being looked at.
  ghost predicate Spread(g: Graph, active: set<nat>, r: Run, h: nat, todo: set<nat>)
    requires Consistent(g, active, r)
  {
    forall x, y :: x in r.pushed && y in g[x] && y < |g| && r.st[y] == FAILED && !(y == h && x in todo)
      ==> r.st[x] == FAILED
  }

  ghost predicate Blocked(g: Graph, active: set<nat>, st: seq<int>, x: nat)
    requires x < |g| == |st| && forall y :: y in active ==> y < |st|
  {
    exists y :: y in g[x] && y in active && st[y] == FAILED
  }

  // A rule failed only because its commands did or something it depends on failed.
  ghost predicate Caused(g: Graph, active: set<nat>, r: Run)
    requires Consistent(g, active, r)
  {
    && (forall x :: x in active && r.st[x] == FAILED ==> x in r.broken || Blocked(g, active, r.st, x))
    && (forall x :: x in r.broken ==> x in active && r.st[x] == FAILED)
  }

  // If the list starts without repetition it stays so.
  ghost predicate Once(g: Graph, active: set<nat>, r: Run, init: seq<nat>, todo: set<nat>)
    requires Consistent(g, active, r)
  {
    && init <= r.pushed
    && (Distinct(init) ==> Distinct(r.pushed))
    && (Distinct(init) ==> forall x :: x in todo && x in r.pushed ==> r.st[x] == FAILED)
  }

  // The invariant while the rules in todo, which depend on the last pulled rule h, are still to
  // be looked at; between two pulls, todo is empty.
  ghost predicate Inv(g: Graph, active: set<nat>, init: seq<nat>, r: Run, h: nat, todo: set<nat>) {
    && Consistent(g, active, r) && Decided(g, active, r) && Ordered(g, r.pushed)
    && (forall x, y :: x in active && y in g[x] ==> y in active)
    && NoneSkipped(g, active, r, todo) && Spread(g, active, r, h, todo)
    && Caused(g, active, r) && Once(g, active, r, init, todo)
    && (todo != {} ==> r.n > 0 && r.pushed[r.n - 1] == h)
    && (forall x :: x in todo ==> x < |g| && h in g[x])
  }

  // ----- Pulling -----

  ghost predicate Outcome(r: Run, h: nat, st: seq<int>, broken: set<nat>)
    requires h < |r.st|
  {
    if r.st[h] == FAILED then
      st == r.st && broken == r.broken
    else
      || (st == r.st[h := SATISFIED] && broken == r.broken)
      || (st == r.st[h := FAILED] && broken == r.broken + {h})
  }

  lemma PulledPrefix(pushed: seq<nat>, n: nat)
    requires n < |pushed|
    ensures pushed[..n + 1] == pushed[..n] + [pushed[n]]
    ensures forall x :: x in pushed[..n + 1] <==> x in pushed[..n] || x == pushed[n]
    ensures forall x :: x in pushed[..n] ==> x in pushed
    ensures pushed[n] in pushed
  {
  }

  // Commands are only run once everything the rule depends on is satisfied.
  lemma ReadyToRun(g: Graph, active: set<nat>, init: seq<nat>, r: Run, prev: nat, h: nat)
    requires Inv(g, active, init, r, prev, {}) && h in r.pushed && h < |g| && r.st[h] != FAILED
    ensures forall y :: y in g[h] ==> y in active && r.st[y] == SATISFIED
  {
  }

  lemma AfterPull(g: Graph, active: set<nat>, init: seq<nat>, r: Run, prev: nat, s: Run)
    requires Inv(g, active, init, r, prev, {}) && r.n < |r.pushed| && r.pushed[r.n] < |g|
    requires Outcome(r, r.pushed[r.n], s.st, s.broken) && s.pushed == r.pushed && s.n == r.n + 1
    ensures Inv(g, active, init, s, r.pushed[r.n], Dependents(g, r.pushed[r.n]) * active)
  {
    PulledPrefix(r.pushed, r.n);
    AfterPullConsistent(g, active, init, r, prev, s);
    AfterPullSpread(g, active, init, r, prev, s, Dependents(g, r.pushed[r.n]) * active);
    AfterPullCaused(g, active, init, r, prev, s);
    hide Consistent, Decided, Ordered, Caused, Spread;
  }

  lemma AfterPullConsistent(g: Graph, active: set<nat>, init: seq<nat>, r: Run, prev: nat, s: Run)
    requires Inv(g, active, init, r, prev, {}) && r.n < |r.pushed| && r.pushed[r.n] < |g|
    requires Outcome(r, r.pushed[r.n], s.st, s.broken) && s.pushed == r.pushed && s.n == r.n + 1
    ensures Consistent(g, active, s) && Decided(g, active, s)
  {
    hide Ordered, NoneSkipped, Caused, Once, Spread;
    PulledPrefix(r.pushed, r.n);
  }

  lemma AfterPullSpread(g: Graph, active: set<nat>, init: seq<nat>, r: Run, prev: nat, s: Run, todo: set<nat>)
    requires Inv(g, active, init, r, prev, {}) && r.n < |r.pushed| && r.pushed[r.n] < |g|
    requires Outcome(r, r.pushed[r.n], s.st, s.broken) && s.pushed == r.pushed && s.n == r.n + 1
    requires Consistent(g, active, s)
    requires todo == Dependents(g, r.pushed[r.n]) * active
    ensures Spread(g, active, s, r.pushed[r.n], todo)
  {
    hide Ordered, NoneSkipped, Caused, Once;
  }

  lemma AfterPullCaused(g: Graph, active: set<nat>, init: seq<nat>, r: Run, prev: nat, s: Run)
    requires Inv(g, active, init, r, prev, {}) && r.n < |r.pushed| && r.pushed[r.n] < |g|
    requires Outcome(r, r.pushed[r.n], s.st, s.broken) && s.pushed == r.pushed && s.n == r.n + 1
    requires Consistent(g, active, s)
    ensures Caused(g, active, s)
  {
    hide Ordered, NoneSkipped, Once, Spread, Decided;
    assert r.pushed[r.n] in r.pushed;
    forall x | x in active && s.st[x] == FAILED
      ensures x in s.broken || Blocked(g, active, s.st, x)
    {
      if x !in s.broken {
        assert r.st[x] == FAILED;
        var y :| y in g[x] && y in active && r.st[y] == FAILED;
        assert s.st[y] == FAILED;
      }
    }
  }

  // ----- Looking at one rule x that depends on the pulled rule h -----

  // The assertion of line 126: x was not satisfied before its dependency h was pulled.
  lemma NotYetSatisfied(g: Graph, active: set<nat>, init: seq<nat>, r: Run, h: nat, todo: set<nat>, x: nat)
    requires Inv(g, active, init, r, h, todo) && x in todo
    ensures r.st[x] != SATISFIED
  {
  }

  lemma Skip(g: Graph, active: set<nat>, init: seq<nat>, r: Run, h: nat, todo: set<nat>, x: nat)
    requires Inv(g, active, init, r, h, todo) && x in todo
    requires r.st[x] == IDLE || r.st[x] == FAILED
    ensures Inv(g, active, init, r, h, todo - {x})
  {
  }

  lemma NotReady(g: Graph, active: set<nat>, init: seq<nat>, r: Run, h: nat, todo: set<nat>, x: nat, y: nat)
    requires Inv(g, active, init, r, h, todo) && x in todo
    requires y in g[x] && y < |g| && r.st[y] == WAITING
    ensures Inv(g, active, init, r, h, todo - {x})
  {
  }

  ghost function Pushed(r: Run, x: nat, fails: bool): Run
    requires x < |r.st|
  {
    Run(if fails then r.st[x := FAILED] else r.st, r.pushed + [x], r.n, r.broken)
  }

  ghost predicate MayPush(g: Graph, r: Run, x: nat, fails: bool) {
    && x < |g| == |r.st| && r.st[x] == WAITING
    && (forall y :: y in g[x] ==> y < |g| && r.st[y] != WAITING && r.st[y] != IDLE)
    && (fails <==> exists y :: y in g[x] && y < |g| && r.st[y] == FAILED)
  }

  lemma AfterPush(g: Graph, active: set<nat>, init: seq<nat>, r: Run, h: nat, todo: set<nat>, x: nat, fails: bool)
    requires Inv(g, active, init, r, h, todo) && x in todo && MayPush(g, r, x, fails)
    ensures Inv(g, active, init, Pushed(r, x, fails), h, todo - {x})
  {
    hide Ordered, NoneSkipped, Caused, Once, Spread;
    AfterPushConsistent(g, active, init, r, h, todo, x, fails);
    AfterPushOrdered(g, active, init, r, h, todo, x, fails);
    AfterPushSpread(g, active, init, r, h, todo, x, fails);
    AfterPushOthers(g, active, init, r, h, todo, x, fails);
  }

  lemma AfterPushConsistent(g: Graph, active: set<nat>, init: seq<nat>, r: Run, h: nat, todo: set<nat>, x: nat, fails: bool)
    requires Inv(g, active, init, r, h, todo) && x in todo && MayPush(g, r, x, fails)
    ensures Consistent(g, active, Pushed(r, x, fails)) && Decided(g, active, Pushed(r, x, fails))
  {
    hide Ordered, NoneSkipped, Caused, Once, Spread;
    var s := Pushed(r, x, fails);
    assert s.pushed[..s.n] == r.pushed[..r.n];
    assert forall z :: z in s.pushed <==> z in r.pushed || z == x;
    assert s.pushed[|r.pushed|] == x;
  }

  lemma AfterPushOrdered(g: Graph, active: set<nat>, init: seq<nat>, r: Run, h: nat, todo: set<nat>, x: nat, fails: bool)
    requires Inv(g, active, init, r, h, todo) && x in todo && MayPush(g, r, x, fails)
    ensures Ordered(g, r.pushed + [x])
  {
    hide NoneSkipped, Caused, Once, Spread;
    forall y | y in g[x] ensures y in r.pushed && y != x {
      assert y in active;
      PulledIsPushed(r, y);
    }
    OrderedPlus(g, r.pushed, x);
  }

  lemma PulledIsPushed(r: Run, y: nat)
    requires r.n <= |r.pushed|
    ensures y in r.pushed[..r.n] ==> y in r.pushed
  {
  }

  lemma AfterPushSpread(g: Graph, active: set<nat>, init: seq<nat>, r: Run, h: nat, todo: set<nat>, x: nat, fails: bool)
    requires Inv(g, active, init, r, h, todo) && x in todo && MayPush(g, r, x, fails)
    requires Consistent(g, active, Pushed(r, x, fails))
    ensures Spread(g, active, Pushed(r, x, fails), h, todo - {x})
  {
    hide Ordered, NoneSkipped, Caused, Once;
    assert forall z :: z in r.pushed + [x] <==> z in r.pushed || z == x;
  }

  lemma AfterPushOthers(g: Graph, active: set<nat>, init: seq<nat>, r: Run, h: nat, todo: set<nat>, x: nat, fails: bool)
    requires Inv(g, active, init, r, h, todo) && x in todo && MayPush(g, r, x, fails)
    requires Consistent(g, active, Pushed(r, x, fails))
    ensures NoneSkipped(g, active, Pushed(r, x, fails), todo - {x})
    ensures Caused(g, active, Pushed(r, x, fails)) && Once(g, active, Pushed(r, x, fails), init, todo - {x})
  {
    hide Ordered, Spread, Decided;
    var s := Pushed(r, x, fails);
    assert s.pushed[..s.n] == r.pushed[..r.n];
    assert forall z :: z in s.pushed <==> z in r.pushed || z == x;
    forall z | z in active && s.st[z] == FAILED && z !in s.broken
      ensures Blocked(g, active, s.st, z)
    {
      var y :| y in g[z] && y in active && r.st[y] == FAILED;
      assert s.st[y] == FAILED;
    }
  }

  // ----- The end -----

  // Once the queue is empty, every active rule was pulled.
  lemma {:induction false} AllPulled(g: Graph, active: set<nat>, init: seq<nat>, r: Run, h: nat,
                                     order: seq<nat>, k: nat)
    requires Inv(g, active, init, r, h, {}) && r.n == |r.pushed|
    requires Sorted(g, order) && (forall x :: x in order <==> x in active) && k <= |order|
    ensures forall x :: x in order[..k] ==> x in r.pushed
  {
    hide Ordered, Caused, Once, Spread, Decided;
    if k > 0 {
      AllPulled(g, active, init, r, h, order, k - 1);
      var x := order[k - 1];
      assert x in order;
      assert r.pushed[..r.n] == r.pushed;
      assert forall y :: y in g[x] ==> y in order[..k - 1];
      assert x in r.pushed;
      assert order[..k] == order[..k - 1] + [x];
    }
  }

  // How often the queue holds a rule that was pulled already.
  ghost function Repeats(queue: seq<nat>, done: set<nat>): nat {
    if queue == [] then 0 else (if queue[0] in done then 1 else 0) + Repeats(queue[1..], done)
  }

  lemma {:induction false} RepeatsConcat(a: seq<nat>, b: seq<nat>, done: set<nat>)
    requires forall x :: x in b ==> x !in done
    ensures Repeats(a + b, done) == Repeats(a, done)
  {
    if a != [] {
      assert (a + b)[1..] == a[1..] + b;
      RepeatsConcat(a[1..], b, done);
    } else if b != [] {
      assert a + b == b;
      assert b[0] in b;
      RepeatsConcat(a, b[1..], done);
      assert a + b[1..] == b[1..];
    } else {
      assert a + b == a;
    }
  }
}
