// Runs of the workers of parallel_make/parmake.c in which one worker acts alone: it can always go on until the queue is
// empty, and what the others do meanwhile is left as it is.
module MakeSchedule {
  import opened Listing
  import opened MakeGraph
  import opened MakeRun
  import opened MakeWorkers

  ghost predicate CanReach(s: State, s': State) {
    exists es :: Steps(s, es, s')
  }

  // ----- Runs of one worker among others, all of whose commands succeed -----

  ghost predicate By(es: seq<Event>, w: nat) {
    forall e :: e in es ==> e.w == w
  }

  // Worker w alone can lead from s to t.
  ghost predicate Goes(w: nat, s: State, t: State) {
    exists es :: Steps(s, es, t) && By(es, w)
  }

  lemma {:induction false} StepsConcat(s: State, es: seq<Event>, t: State, fs: seq<Event>, u: State)
    requires Steps(s, es, t) && Steps(t, fs, u)
    ensures Steps(s, es + fs, u)
    decreases |es|
  {
    if es == [] {
      assert es + fs == fs;
    } else {
      StepsConcat(Next(s, es[0]), es[1..], t, fs, u);
      assert (es + fs)[1..] == es[1..] + fs;
    }
  }

  lemma GoesNowhere(w: nat, s: State)
    ensures Goes(w, s, s)
  {
    assert Steps(s, [], s) && By([], w);
  }

  lemma GoesOn(w: nat, s: State, t: State, u: State)
    requires Goes(w, s, t) && Goes(w, t, u)
    ensures Goes(w, s, u)
  {
    var es :| Steps(s, es, t) && By(es, w);
    var fs :| Steps(t, fs, u) && By(fs, w);
    StepsConcat(s, es, t, fs, u);
    assert By(es + fs, w);
  }

  lemma GoesStep(s: State, e: Event)
    requires Enabled(s, e)
    ensures Goes(e.w, s, Next(s, e))
  {
    assert [e][1..] == [];
    assert Steps(s, [e], Next(s, e)) && By([e], e.w);
  }

  lemma GoesLive(active: set<nat>, w: nat, s: State, t: State)
    requires Goes(w, s, t) && Live(active, s)
    ensures Live(active, t) && t.g == s.g
  {
    var es :| Steps(s, es, t) && By(es, w);
    StepsLive(active, s, es, t);
  }

  lemma GoesReaches(w: nat, s: State, t: State)
    requires Goes(w, s, t)
    ensures CanReach(s, t)
  {
  }

  lemma CanReachOn(s: State, t: State, u: State)
    requires CanReach(s, t) && CanReach(t, u)
    ensures CanReach(s, u)
  {
    var es :| Steps(s, es, t);
    var fs :| Steps(t, fs, u);
    StepsConcat(s, es, t, fs, u);
  }

  ghost predicate AllIdle(s: State) {
    forall w :: 0 <= w < |s.ws| ==> s.ws[w].Idle?
  }

  ghost predicate NoneFailed(s: State) {
    forall x :: 0 <= x < |s.st| ==> s.st[x] != FAILED
  }

  ghost predicate Calm(s: State) { AllIdle(s) && NoneFailed(s) && !s.aborted }

  // Worker w pulls the next rule, brings it up to date and lists those that depend on it.
  lemma Begin(s: State, w: nat, list: seq<nat>) returns (t: State)
    requires w < |s.ws| && s.ws[w].Idle? && !s.aborted && NoneFailed(s)
    requires s.n < |s.pushed| && s.pushed[s.n] < |s.st| && Lists(s.g, s.pushed[s.n], list)
    ensures Goes(w, s, t) && NoneFailed(t)
    ensures t == s.At(w, Scanning(s.pushed[s.n], list)).(n := s.n + 1, st := s.st[s.pushed[s.n] := SATISFIED])
  {
    var v := s.pushed[s.n];
    var a := s.At(w, Got(v)).(n := s.n + 1);
    GoesStep(s, Pull(w));
    t := Bring(a, w, list);
    GoesOn(w, s, a, t);
    assert a.ws[w := Scanning(v, list)] == s.ws[w := Scanning(v, list)];
  }

  lemma Bring(s: State, w: nat, list: seq<nat>) returns (t: State)
    requires w < |s.ws| && s.ws[w].Got? && !s.aborted && NoneFailed(s)
    requires s.ws[w].v < |s.st| && Lists(s.g, s.ws[w].v, list)
    ensures Goes(w, s, t) && NoneFailed(t)
    ensures t == s.At(w, Scanning(s.ws[w].v, list)).(st := s.st[s.ws[w].v := SATISFIED])
  {
    hide Goes, Lists;
    var v, st := s.ws[w].v, s.st[s.ws[w].v := SATISFIED];
    var a := s.At(w, Running(v));
    GoesStep(s, Check(w));
    var b := s.At(w, Handled(v)).(st := st);
    assert a.ws[w := Handled(v)] == b.ws;
    GoesStep(a, Finish(w, false));
    GoesOn(w, s, a, b);
    t := s.At(w, Scanning(v, list)).(st := st);
    assert b.ws[w := Scanning(v, list)] == t.ws;
    GoesStep(b, List(w, list));
    GoesOn(w, s, b, t);
  }

  // It looks at one rule, and pushes it if it is ready.
  lemma LookOnce(s: State, w: nat) returns (t: State)
    requires w < |s.ws| && s.ws[w].Scanning? && s.ws[w].todo != [] && !s.aborted && NoneFailed(s)
    requires s.ws[w].todo[0] < |s.st| == |s.g|
    ensures Goes(w, s, t)
    ensures t.aborted || t == s.At(w, Scanning(s.ws[w].v, s.ws[w].todo[1..])).(pushed := t.pushed)
    ensures t.aborted || t.pushed == s.pushed || t.pushed == s.pushed + [s.ws[w].todo[0]]
  {
    var v, x, rest := s.ws[w].v, s.ws[w].todo[0], s.ws[w].todo[1..];
    t := Next(s, Look(w));
    GoesStep(s, Look(w));
    if !t.aborted && t.ws[w].Looking? {
      var a := s.At(w, Looking(v, x, rest));
      assert t == a;
      t := ReadAndPush(a, w);
      GoesOn(w, s, a, t);
      assert a.ws[w := Scanning(v, rest)] == s.ws[w := Scanning(v, rest)];
    }
  }

  lemma ReadAndPush(s: State, w: nat) returns (t: State)
    requires w < |s.ws| && s.ws[w].Looking? && !s.aborted && NoneFailed(s) && s.ws[w].next < |s.st| == |s.g|
    ensures Goes(w, s, t)
    ensures t.aborted || t == s.At(w, Scanning(s.ws[w].v, s.ws[w].todo)).(pushed := t.pushed)
    ensures t.aborted || t.pushed == s.pushed || t.pushed == s.pushed + [s.ws[w].next]
  {
    var v, x, rest := s.ws[w].v, s.ws[w].next, s.ws[w].todo;
    t := Next(s, Read(w));
    GoesStep(s, Read(w));
    if !t.aborted && !t.ws[w].Scanning? {
      var a := s.At(w, Pushing(v, x, rest));
      assert t == a;
      t := Next(a, Push(w));
      GoesStep(a, Push(w));
      GoesOn(w, s, a, t);
      assert a.ws[w := Scanning(v, rest)] == s.ws[w := Scanning(v, rest)];
    }
  }

  // It looks at all of todo, and then has `rest` before it.
  lemma {:induction false} LookAll(s: State, w: nat, todo: seq<nat>, rest: seq<nat>) returns (t: State)
    requires w < |s.ws| && s.ws[w].Scanning? && s.ws[w].todo == todo + rest && !s.aborted && NoneFailed(s)
    requires |s.st| == |s.g| && forall x :: x in todo ==> x < |s.g|
    ensures Goes(w, s, t)
    ensures t.aborted || t == s.At(w, Scanning(s.ws[w].v, rest)).(pushed := t.pushed)
    ensures t.aborted || (s.pushed <= t.pushed && forall i :: |s.pushed| <= i < |t.pushed| ==> t.pushed[i] in todo)
    decreases |todo|
  {
    if todo == [] {
      t := s;
      GoesNowhere(w, s);
      assert todo + rest == rest && s.ws[w := s.ws[w]] == s.ws;
    } else {
      var v := s.ws[w].v;
      assert (todo + rest)[1..] == todo[1..] + rest;
      assert todo == [todo[0]] + todo[1..] && todo[0] in todo;
      var a := LookOnce(s, w);
      t := a;
      if !a.aborted {
        hide Goes;
        assert forall x :: x in todo[1..] ==> x in todo;
        t := LookAll(a, w, todo[1..], rest);
        GoesOn(w, s, a, t);
        if !t.aborted {
          assert s.ws[w := Scanning(v, todo[1..] + rest)][w := Scanning(v, rest)] == s.ws[w := Scanning(v, rest)];
        }
      }
    }
  }

  // The members of a set can be listed.
  lemma {:induction false} Listed(m: set<nat>) returns (list: seq<nat>)
    ensures Distinct(list) && forall x :: x in list <==> x in m
    decreases m
  {
    list := [];
    if m != {} {
      var x :| x in m;
      list := Listed(m - {x});
      list := list + [x];
    }
  }

  // A whole turn: everything it pushes depends on the rule it pulls.
  lemma WholeTurn(active: set<nat>, s: State, w: nat) returns (t: State)
    requires Live(active, s) && Calm(s) && w < |s.ws| && s.n < |s.pushed|
    ensures Goes(w, s, t)
    ensures t.aborted || (Calm(t) && |t.ws| == |s.ws| && t.n == s.n + 1 && s.pushed <= t.pushed)
    ensures t.aborted || forall i :: |s.pushed| <= i < |t.pushed| ==> t.pushed[i] in Dependents(s.g, s.pushed[s.n])
  {
    hide Traced, WorkerInv, DepsDone, Goes;
    var h := s.pushed[s.n];
    assert h in active;
    var list := Listed(Dependents(s.g, h));
    var a := Begin(s, w, list);
    assert list + [] == list;
    var b := LookAll(a, w, list, []);
    GoesOn(w, s, a, b);
    t := b;
    if !b.aborted {
      t := Next(b, Leave(w));
      GoesStep(b, Leave(w));
      GoesOn(w, s, b, t);
    }
  }

  // ----- Worker w goes on until the queue is empty, or its head is in `stop` -----

  ghost predicate AtLeast(order: seq<nat>, k: nat, x: nat) {
    exists i :: k <= i < |order| && order[i] == x
  }

  lemma DependsLater(g: Graph, order: seq<nat>, k: nat, v: nat, x: nat)
    requires Sorted(g, order) && AtLeast(order, k, v) && x in order && v in g[x]
    ensures AtLeast(order, k + 1, x)
  {
    var m :| k <= m < |order| && order[m] == v;
    var i :| 0 <= i < |order| && order[i] == x;
    assert v in order[..i];
    var j :| 0 <= j < i && order[j] == v;
  }

  ghost predicate Orders(active: set<nat>, g: Graph, order: seq<nat>) {
    Sorted(g, order) && forall x :: x in order <==> x in active
  }

  // The first j rules of the queue have places from k on in the order, and all others later ones.
  ghost predicate Sifted(order: seq<nat>, s: State, k: nat, j: nat) {
    && s.n + j <= |s.pushed|
    && (forall i :: s.n <= i < s.n + j ==> AtLeast(order, k, s.pushed[i]))
    && (forall i :: s.n + j <= i < |s.pushed| ==> AtLeast(order, k + 1, s.pushed[i]))
  }

  ghost predicate Before(s: State, stop: set<nat>) {
    s.n <= |s.pushed| && forall y :: y in stop ==> y !in s.pushed[..s.n]
  }

  lemma {:induction false} Drive(active: set<nat>, order: seq<nat>, s: State, w: nat, stop: set<nat>, k: nat, j: nat)
    returns (t: State)
    requires Live(active, s) && Calm(s) && w < |s.ws|
    requires Orders(active, s.g, order) && k <= |order| && Sifted(order, s, k, j) && Before(s, stop)
    ensures Goes(w, s, t)
    ensures t.aborted || (Calm(t) && |t.ws| == |s.ws| && Before(t, stop) && s.pushed <= t.pushed)
    ensures t.aborted || t.n == |t.pushed| || t.pushed[t.n] in stop
    decreases |order| - k, j
  {
    if s.n == |s.pushed| || s.pushed[s.n] in stop {
      t := s;
      GoesNowhere(w, s);
    } else if j == 0 {
      assert AtLeast(order, k + 1, s.pushed[s.n]);
      t := Drive(active, order, s, w, stop, k + 1, |s.pushed| - s.n);
    } else {
      var a := WholeTurn(active, s, w);
      t := a;
      if !a.aborted {
        GoesLive(active, w, s, a);
        AfterTurn(active, order, s, a, k, j, stop);
        t := Drive(active, order, a, w, stop, k, j - 1);
        GoesOn(w, s, a, t);
      }
    }
  }

  lemma AfterTurn(active: set<nat>, order: seq<nat>, s: State, t: State, k: nat, j: nat, stop: set<nat>)
    requires Live(active, s) && Live(active, t) && t.g == s.g && Orders(active, s.g, order)
    requires 0 < j && Sifted(order, s, k, j) && Before(s, stop) && s.pushed[s.n] !in stop
    requires t.n == s.n + 1 && s.pushed <= t.pushed
    requires forall i :: |s.pushed| <= i < |t.pushed| ==> t.pushed[i] in Dependents(s.g, s.pushed[s.n])
    ensures Sifted(order, t, k, j - 1) && Before(t, stop)
  {
    hide Traced, WorkerInv, DepsDone, Sorted, AtLeast;
    assert t.pushed[..t.n] == s.pushed[..s.n] + [s.pushed[s.n]];
    forall i | t.n + (j - 1) <= i < |t.pushed| ensures AtLeast(order, k + 1, t.pushed[i]) {
      if i >= |s.pushed| {
        assert t.pushed[i] in t.pushed;
        DependsLater(s.g, order, k, s.pushed[s.n], t.pushed[i]);
      }
    }
  }

  // ----- A worker that waits can be left out -----

  lemma {:induction false} LiftSteps(s: State, es: seq<Event>, t: State, w: nat, u: nat, p: Pc)
    requires Steps(s, es, t) && By(es, w) && w != u && u < |s.ws|
    ensures u < |t.ws| && Steps(s.At(u, p), es, t.At(u, p))
    decreases |es|
  {
    if es != [] {
      assert es[0] in es;
      assert forall e :: e in es[1..] ==> e in es;
      LiftStep(s, es[0], u, p);
      LiftSteps(Next(s, es[0]), es[1..], t, w, u, p);
    }
  }

  lemma LiftStep(s: State, e: Event, u: nat, p: Pc)
    requires Enabled(s, e) && e.w != u && u < |s.ws|
    ensures |Next(s, e).ws| == |s.ws| && Enabled(s.At(u, p), e) && Next(s.At(u, p), e) == Next(s, e).At(u, p)
  {
    var q := Next(s, e).ws[e.w];
    assert s.ws[u := p][e.w := q] == s.ws[e.w := q][u := p];
  }

  lemma GoesLifted(w: nat, s: State, t: State, u: nat, p: Pc)
    requires Goes(w, s, t) && w != u && u < |s.ws|
    ensures u < |t.ws| && Goes(w, s.At(u, p), t.At(u, p))
  {
    var es :| Steps(s, es, t) && By(es, w);
    LiftSteps(s, es, t, w, u, p);
  }

  // Worker u waits before it looks at x. Without it nothing is lost, if another dependency of x is not done yet.
  lemma LeftOut(active: set<nat>, s: State, u: nat, x: nat, y: nat)
    requires Live(active, s) && u < |s.ws| && s.ws[u].Scanning? && s.ws[u].todo == [x]
    requires AllIdle(s.At(u, Idle)) && x in active && y in s.g[x] && Undone(s, y)
    ensures Live(active, s.At(u, Idle))
  {
    var t := s.At(u, Idle);
    assert t.ws[u] == Idle && forall w :: 0 <= w < |s.ws| && w != u ==> s.ws[w] == t.ws[w] == Idle;
    forall z | z in active ensures Traced(active, t, z) {
      assert Traced(active, s, z);
      forall b | b in s.g[z] && Undone(s, b) ensures Undone(t, b) {
      }
    }
  }

  // ----- Beginning and end -----

  lemma InitialLive(active: set<nat>, s: State)
    requires Initial(active, s)
    ensures Live(active, s) && Calm(s)
  {
    forall x | x in active ensures Traced(active, s, x) {
      if x in s.pushed {
        assert s.pushed[s.n..] == s.pushed;
      }
    }
  }

  lemma InitiallySifted(active: set<nat>, order: seq<nat>, s: State)
    requires Live(active, s) && Orders(active, s.g, order)
    ensures Sifted(order, s, 0, |s.pushed| - s.n)
  {
    hide Sorted, Traced, WorkerInv, DepsDone;
    forall i | s.n <= i < |s.pushed| ensures AtLeast(order, 0, s.pushed[i]) {
      assert s.pushed[i] in order;
    }
  }

  // At an empty queue every needed rule is satisfied.
  lemma QuietIsSatisfied(active: set<nat>, order: seq<nat>, s: State, x: nat)
    requires Live(active, s) && Calm(s) && s.n == |s.pushed| && Orders(active, s.g, order) && x in active
    ensures x in s.pushed[..s.n] && s.st[x] == SATISFIED
  {
    QuietIsDone(active, order, s, |order|);
    assert order[..|order|] == order && s.pushed[..s.n] == s.pushed;
    assert x in order && Traced(active, s, x);
  }
}
