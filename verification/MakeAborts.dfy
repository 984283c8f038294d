// When the assertion of line 126 of parallel_make/parmake.c can fire: with two workers or more, and only on some rules.
module MakeAborts {
  import opened Listing
  import opened MakeGraph
  import opened MakeRun
  import opened MakeSchedule
  import opened MakeWorkers

  ghost predicate Twice(list: seq<nat>, y: nat) {
    exists i, j :: 0 <= i < j < |list| && list[i] == y && list[j] == y
  }

  // Rule x depends on two rules, or on one that is on the list twice.
  ghost predicate Contested(g: Graph, list: seq<nat>, x: nat)
    requires x < |g|
  {
    (exists y, z :: y in g[x] && z in g[x] && y != z) || (exists y :: y in g[x] && Twice(list, y))
  }

  // Such a rule is needed.
  ghost predicate Contended(active: set<nat>, s: State) {
    exists x :: x in active && x < |s.g| && Contested(s.g, s.pushed, x)
  }

  ghost predicate CanAbort(s: State) {
    exists s' :: CanReach(s, s') && s'.aborted
  }

  // ----- One worker never aborts -----

  ghost predicate Depend(g: Graph, v: nat, list: seq<nat>) {
    forall x :: x in list ==> x < |g| && v in g[x]
  }

  ghost predicate Ahead(g: Graph, v: nat, next: nat, todo: seq<nat>) {
    next < |g| && v in g[next] && Depend(g, v, todo)
  }

  // The worker deals with the rule pulled last, and nothing it is about to push was needed before.
  ghost predicate InTurn(s: State, p: Pc)
    requires Valid(s.g) && |s.st| == |s.g| && s.n <= |s.pushed|
  {
    && (!p.Idle? ==> s.n > 0 && s.pushed[s.n - 1] == p.v)
    && match p
       case Scanning(v, todo) => Depend(s.g, v, todo)
       case Looking(v, next, todo) => Ahead(s.g, v, next, todo) && s.st[next] == WAITING
       case Failing(v, next, todo) => Ahead(s.g, v, next, todo) && s.st[next] == WAITING
       case Pushing(v, next, todo) =>
         && Ahead(s.g, v, next, todo) && next !in s.g[next]
         && forall z :: z in s.pushed && z < |s.g| ==> next !in s.g[z]
       case _ => true
  }

  ghost predicate OneInv(active: set<nat>, s: State) {
    && |s.ws| == 1 && !s.aborted && Live(active, s) && Ordered(s.g, s.pushed)
    && (forall x :: x in active && s.st[x] == SATISFIED ==> x in s.pushed[..s.n])
    && InTurn(s, s.ws[0])
  }

  // What needs v is pulled after v.
  lemma PulledLater(s: State, v: nat, x: nat)
    requires Ordered(s.g, s.pushed) && 0 < s.n <= |s.pushed| && s.pushed[s.n - 1] == v && x < |s.g| && v in s.g[x]
    ensures x !in s.pushed[..s.n]
  {
    forall i | 0 <= i < s.n ensures s.pushed[i] != x {
      assert s.pushed[i..][s.n - 1 - i] == v;
    }
  }

  lemma OneLook(active: set<nat>, s: State, e: Event)
    requires OneInv(active, s) && Enabled(s, e) && e.Look?
    ensures s.st[s.ws[0].todo[0]] != SATISFIED
  {
    hide Ordered, Traced, WorkerInv, DepsDone;
    var v, x := s.ws[0].v, s.ws[0].todo[0];
    assert x in s.ws[0].todo;
    PulledLater(s, v, x);
  }

  // A rule that is not done was needed by nothing that was pushed.
  lemma NotNeededBefore(active: set<nat>, s: State, x: nat)
    requires Safe(active, s) && x < |s.st| && s.st[x] == WAITING
    ensures forall z :: z in s.pushed && z < |s.g| ==> x !in s.g[z]
    ensures DepsDone(s, x) || !Some(s.g, s.st, x, WAITING) ==> x !in s.g[x]
  {
  }

  lemma OneRead(active: set<nat>, s: State, e: Event)
    requires OneInv(active, s) && Enabled(s, e) && e.Read? && !Next(s, e).aborted
    ensures InTurn(Next(s, e), Next(s, e).ws[0])
  {
    NotNeededBefore(active, s, s.ws[0].next);
    hide Ordered, Live, Traced, Some;
  }

  lemma OneFail(active: set<nat>, s: State, e: Event)
    requires OneInv(active, s) && Enabled(s, e) && e.Fail?
    ensures InTurn(Next(s, e), Next(s, e).ws[0])
  {
    hide Ordered, Traced;
    assert WorkerInv(active, s, s.ws[0]);
    NotNeededBefore(active, s, s.ws[0].next);
    hide WorkerInv, DepsDone;
  }

  lemma OneOther(active: set<nat>, s: State, e: Event)
    requires OneInv(active, s) && Enabled(s, e) && !e.Read? && !e.Fail? && !Next(s, e).aborted
    requires Closed(active, Next(s, e))
    ensures InTurn(Next(s, e), Next(s, e).ws[0])
  {
    hide Ordered, Traced, WorkerInv, DepsDone;
    if e.Look? {
      var todo := s.ws[0].todo;
      assert todo == [todo[0]] + todo[1..] && todo[0] in todo;
      assert forall x :: x in todo[1..] ==> x in todo;
    }
  }

  lemma OneStepOrdered(active: set<nat>, s: State, e: Event)
    requires OneInv(active, s) && Enabled(s, e) && e.Push?
    ensures Ordered(s.g, s.pushed + [s.ws[0].next])
  {
    hide Ordered;
    var x := s.ws[0].next;
    assert WorkerInv(active, s, s.ws[0]);
    forall y | y in s.g[x] ensures y in s.pushed && y != x {
      assert y in active && Traced(active, s, y);
      hide Held, Owed, Undone;
    }
    OrderedPlus(s.g, s.pushed, x);
  }

  lemma OneStep(active: set<nat>, s: State, e: Event)
    requires OneInv(active, s) && Enabled(s, e)
    ensures OneInv(active, Next(s, e))
  {
    hide Ordered, Traced, DepsDone, WorkerInv;
    var t := Next(s, e);
    StepLive(active, s, e);
    if e.Look? {
      OneLook(active, s, e);
    }
    NoAbort142(active, s, e);
    if e.Read? {
      OneRead(active, s, e);
    } else if e.Fail? {
      OneFail(active, s, e);
    } else {
      OneOther(active, s, e);
    }
    if e.Push? {
      OneStepOrdered(active, s, e);
      assert t.pushed[..t.n] == s.pushed[..s.n];
    } else if e.Pull? {
      assert t.pushed[..t.n] == s.pushed[..s.n] + [s.pushed[s.n]];
    } else if e.Finish? {
      assert s.pushed[s.n - 1] in s.pushed[..s.n];
    }
  }

  lemma NoAbort142(active: set<nat>, s: State, e: Event)
    requires Live(active, s) && Enabled(s, e)
    requires e.Look? ==> s.st[s.ws[e.w].todo[0]] != SATISFIED
    ensures !Next(s, e).aborted
  {
    assert WorkerInv(active, s, s.ws[e.w]);
  }

  lemma {:induction false} OneSteps(active: set<nat>, s: State, es: seq<Event>, s': State)
    requires OneInv(active, s) && Steps(s, es, s')
    ensures !s'.aborted
    decreases |es|
  {
    if es != [] {
      OneStep(active, s, es[0]);
      OneSteps(active, Next(s, es[0]), es[1..], s');
    }
  }

  // ----- Nor do many, when no needed rule is contended -----

  // No needed rule depends on two rules.
  ghost predicate Narrow(active: set<nat>, g: Graph) {
    forall x, y, z :: x in active && x < |g| && y in g[x] && z in g[x] ==> y == z
  }

  predicate Works(p: Pc, y: nat) { !p.Idle? && p.v == y }

  // Each worker looks once at each rule that depends on the one it pulled.
  ghost predicate Orderly(s: State, p: Pc)
    requires s.n <= |s.pushed|
  {
    && (!p.Idle? ==> p.v in s.pushed[..s.n])
    && match p
       case Scanning(v, todo) => Depend(s.g, v, todo) && Distinct(todo)
       case Looking(v, next, todo) => Ahead(s.g, v, next, todo) && Distinct([next] + todo)
       case Failing(v, next, todo) => Ahead(s.g, v, next, todo) && Distinct([next] + todo)
       case Pushing(v, next, todo) => Ahead(s.g, v, next, todo) && Distinct([next] + todo)
       case _ => true
  }

  // The rule y is there once, on the queue or in the hands of one worker, and x, which depends on it, is pushed when
  // nobody has to look at it any more.
  ghost predicate Single(s: State, x: nat, y: nat)
    requires s.n <= |s.pushed| && x < |s.g|
  {
    && !Twice(s.pushed, y)
    && (forall w :: 0 <= w < |s.ws| && Works(s.ws[w], y) ==> y !in s.pushed[s.n..])
    && (forall w, u :: 0 <= w < |s.ws| && 0 <= u < |s.ws| && Works(s.ws[w], y) && Works(s.ws[u], y) ==> w == u)
    && (x in s.pushed ==> y in s.pushed[..s.n] && y !in s.pushed[s.n..])
    && (forall w :: 0 <= w < |s.ws| && Owes(s.g, s.ws[w], x) ==> x !in s.pushed)
  }

  ghost predicate ManyInv(active: set<nat>, s: State) {
    && !s.aborted && Live(active, s) && Narrow(active, s.g)
    && (forall w :: 0 <= w < |s.ws| ==> Orderly(s, s.ws[w]))
    && (forall x, y :: x in active && y in s.g[x] ==> Single(s, x, y))
  }

  lemma OwesWorks(s: State, p: Pc, x: nat)
    requires s.n <= |s.pushed| && x < |s.g| && Orderly(s, p) && Owes(s.g, p, x)
    ensures !p.Idle? && p.v in s.g[x]
  {
  }

  lemma PrefixStays(s: State, e: Event)
    requires Enabled(s, e) && s.n <= |s.pushed|
    ensures s.n <= Next(s, e).n <= |Next(s, e).pushed| && s.pushed <= Next(s, e).pushed
    ensures forall x :: x in s.pushed[..s.n] ==> x in Next(s, e).pushed[..Next(s, e).n]
  {
    var t := Next(s, e);
    forall x | x in s.pushed[..s.n] ensures x in t.pushed[..t.n] {
      var i :| 0 <= i < s.n && s.pushed[i] == x;
      assert t.pushed[..t.n][i] == x;
    }
  }

  lemma DistinctPlus(x: nat, list: seq<nat>)
    ensures Distinct([x] + list) <==> x !in list && Distinct(list)
  {
    var all := [x] + list;
    assert forall i :: 0 <= i < |list| ==> all[i + 1] == list[i];
    if Distinct(all) {
      forall i | 0 <= i < |list| ensures list[i] != x {
        assert all[0] != all[i + 1];
      }
    }
  }

  // What is before the worker holds for the first rule and for the others.
  lemma FirstAndRest(g: Graph, v: nat, todo: seq<nat>)
    requires todo != [] && Depend(g, v, todo) && Distinct(todo)
    ensures Ahead(g, v, todo[0], todo[1..]) && Distinct([todo[0]] + todo[1..]) && Distinct(todo[1..])
  {
    assert todo == [todo[0]] + todo[1..];
    DistinctPlus(todo[0], todo[1..]);
    assert todo[0] in todo && forall x :: x in todo[1..] ==> x in todo;
  }

  lemma StepOrderly(s: State, e: Event)
    requires Enabled(s, e) && s.n <= |s.pushed| && Orderly(s, s.ws[e.w]) && !Next(s, e).aborted
    ensures s.n <= Next(s, e).n <= |Next(s, e).pushed| && Orderly(Next(s, e), Next(s, e).ws[e.w])
  {
    var t, p := Next(s, e), s.ws[e.w];
    PrefixStays(s, e);
    if e.Look? {
      FirstAndRest(s.g, p.v, p.todo);
    } else if e.Read? || e.Push? {
      DistinctPlus(p.next, p.todo);
    } else if e.Pull? {
      assert t.pushed[..t.n][s.n] == s.pushed[s.n];
    }
    hide Distinct;
  }

  // A worker that looks at x is the one that pulled what x depends on; so nobody else has pushed x.
  lemma NobodyRaises(active: set<nat>, s: State, w: nat, x: nat)
    requires ManyInv(active, s) && w < |s.ws| && s.ws[w].Scanning? && x in s.ws[w].todo && x in active
    ensures x !in s.pushed && !Raised(s, x)
  {
    hide Traced, DepsDone, WorkerInv;
    var v := s.ws[w].v;
    assert Orderly(s, s.ws[w]) && Single(s, x, v);
    assert Owes(s.g, s.ws[w], x);
    forall u | 0 <= u < |s.ws| ensures !Raising(s.ws[u], x) {
      if Owes(s.g, s.ws[u], x) {
        assert Orderly(s, s.ws[u]);
        OwesWorks(s, s.ws[u], x);
        assert Works(s.ws[u], v) && Works(s.ws[w], v);
      }
    }
  }

  lemma ManyLook(active: set<nat>, s: State, e: Event)
    requires ManyInv(active, s) && Enabled(s, e) && e.Look?
    ensures s.st[s.ws[e.w].todo[0]] != SATISFIED
  {
    hide DepsDone, WorkerInv, Orderly, Single, Raised;
    var x := s.ws[e.w].todo[0];
    assert x in s.ws[e.w].todo;
    if x in active {
      NobodyRaises(active, s, e.w, x);
      assert Traced(active, s, x);
    }
  }

  lemma SinglePull(s: State, e: Event, x: nat, y: nat)
    requires Enabled(s, e) && e.Pull? && s.n <= |s.pushed| && x < |s.g| && Single(s, x, y)
    requires forall z :: z in s.g[x] ==> z == y
    ensures Single(Next(s, e), x, y)
  {
    var t := Next(s, e);
    var h := s.pushed[s.n];
    assert s.pushed[s.n..] == [h] + t.pushed[t.n..];
    assert t.pushed[..t.n] == s.pushed[..s.n] + [h];
    if h == y {
      assert y in s.pushed[s.n..];
      assert y !in t.pushed[t.n..];
    }
  }

  // The only one that owes x is the worker that pulled y.
  lemma OneOwes(s: State, w: nat, u: nat, x: nat, y: nat)
    requires s.n <= |s.pushed| && x < |s.g| && Single(s, x, y) && forall z :: z in s.g[x] ==> z == y
    requires w < |s.ws| && Works(s.ws[w], y) && u < |s.ws| && Orderly(s, s.ws[u]) && Owes(s.g, s.ws[u], x)
    ensures u == w
  {
    OwesWorks(s, s.ws[u], x);
    assert Works(s.ws[u], y);
  }

  lemma NotTwice(list: seq<nat>, x: nat, y: nat)
    requires !Twice(list, y) && (x == y ==> y !in list)
    ensures !Twice(list + [x], y)
  {
    var all := list + [x];
    forall i, j | 0 <= i < j < |all| ensures !(all[i] == y && all[j] == y) {
      assert all[i] == list[i];
    }
  }

  // It pushes x, if at all, when it has nothing else left to do with x.
  lemma SinglePush(s: State, e: Event, x: nat, y: nat)
    requires Enabled(s, e) && e.Push? && s.n <= |s.pushed| && x < |s.g| && Single(s, x, y)
    requires forall z :: z in s.g[x] ==> z == y
    requires forall w :: 0 <= w < |s.ws| ==> Orderly(s, s.ws[w])
    requires y == s.ws[e.w].next ==> y !in s.pushed
    ensures Single(Next(s, e), x, y)
  {
    var p := s.ws[e.w];
    assert p.Pushing? && Next(s, e) == s.At(e.w, Scanning(p.v, p.todo)).(pushed := s.pushed + [p.next]);
    hide Enabled, Next, Distinct, Twice, Single;
    if p.next == x {
      PushedByOne(s, e.w, x, y);
    }
    WorkersKnow(s, y);
    hide Orderly;
    SingleAfter(s, e.w, p.next, Scanning(p.v, p.todo), x, y);
  }

  lemma SingleAfter(s: State, w: nat, next: nat, p: Pc, x: nat, y: nat)
    requires s.n <= |s.pushed| && x < |s.g| && w < |s.ws| && Single(s, x, y)
    requires Works(p, y) ==> Works(s.ws[w], y)
    requires Owes(s.g, p, x) ==> Owes(s.g, s.ws[w], x) && x != next
    requires next == y ==> y !in s.pushed
    requires next == x ==> y != x && y in s.pushed[..s.n] && y !in s.pushed[s.n..]
    requires next == x ==> forall u :: 0 <= u < |s.ws| && u != w ==> !Owes(s.g, s.ws[u], x)
    requires forall u :: 0 <= u < |s.ws| && Works(s.ws[u], y) ==> y in s.pushed
    requires y in s.pushed[..s.n] ==> y in s.pushed
    ensures Single(s.At(w, p).(pushed := s.pushed + [next]), x, y)
  {
    var t := s.At(w, p).(pushed := s.pushed + [next]);
    hide Twice, Works, Owes;
    NotTwice(s.pushed, next, y);
    assert t.pushed[..t.n] == s.pushed[..s.n] && t.pushed[t.n..] == s.pushed[s.n..] + [next];
    assert forall u :: 0 <= u < |s.ws| && u != w ==> t.ws[u] == s.ws[u];
  }

  lemma WorkersKnow(s: State, y: nat)
    requires s.n <= |s.pushed| && forall w :: 0 <= w < |s.ws| ==> Orderly(s, s.ws[w])
    ensures forall w :: 0 <= w < |s.ws| && Works(s.ws[w], y) ==> y in s.pushed
    ensures y in s.pushed[..s.n] ==> y in s.pushed
  {
    forall w | 0 <= w < |s.ws| && Works(s.ws[w], y) ensures y in s.pushed {
      assert Orderly(s, s.ws[w]);
    }
  }

  lemma PushedByOne(s: State, w: nat, x: nat, y: nat)
    requires s.n <= |s.pushed| && x < |s.g| && Single(s, x, y) && forall z :: z in s.g[x] ==> z == y
    requires forall u :: 0 <= u < |s.ws| ==> Orderly(s, s.ws[u])
    requires w < |s.ws| && s.ws[w].Pushing? && s.ws[w].next == x
    ensures s.ws[w].v == y && y in s.pushed[..s.n] && y !in s.pushed[s.n..] && x !in s.ws[w].todo && x !in s.pushed
    ensures y != x && forall u :: 0 <= u < |s.ws| && u != w ==> !Owes(s.g, s.ws[u], x)
  {
    assert Orderly(s, s.ws[w]) && Works(s.ws[w], y) && Owes(s.g, s.ws[w], x);
    DistinctPlus(x, s.ws[w].todo);
    assert forall z :: z in s.pushed[..s.n] ==> z in s.pushed;
    forall u | 0 <= u < |s.ws| && u != w ensures !Owes(s.g, s.ws[u], x) {
      if Owes(s.g, s.ws[u], x) {
        OneOwes(s, w, u, x, y);
      }
    }
  }

  lemma SingleOther(s: State, e: Event, x: nat, y: nat)
    requires Enabled(s, e) && !e.Pull? && !e.Push? && s.n <= |s.pushed| && x < |s.g| && Single(s, x, y)
    ensures Single(Next(s, e), x, y)
  {
    var t := Next(s, e);
    NothingNew(s, e, x, y);
    hide Enabled, Next, Owes, Works, Twice;
    assert forall w :: 0 <= w < |s.ws| && w != e.w ==> t.ws[w] == s.ws[w];
  }

  lemma NothingNew(s: State, e: Event, x: nat, y: nat)
    requires Enabled(s, e) && !e.Pull? && !e.Push? && x < |s.g|
    ensures Next(s, e).n == s.n && Next(s, e).pushed == s.pushed && Next(s, e).g == s.g
    ensures |Next(s, e).ws| == |s.ws| && forall w :: 0 <= w < |s.ws| && w != e.w ==> Next(s, e).ws[w] == s.ws[w]
    ensures Works(Next(s, e).ws[e.w], y) ==> Works(s.ws[e.w], y)
    ensures Owes(s.g, Next(s, e).ws[e.w], x) ==> Owes(s.g, s.ws[e.w], x)
  {
  }

  lemma ManySingle(active: set<nat>, s: State, e: Event, x: nat, y: nat)
    requires ManyInv(active, s) && Enabled(s, e) && x in active && y in s.g[x]
    ensures s.n <= Next(s, e).n <= |Next(s, e).pushed| && Next(s, e).g == s.g && Single(Next(s, e), x, y)
  {
    hide Traced, Single, Orderly, WorkerInv;
    PrefixStays(s, e);
    assert Single(s, x, y);
    if e.Pull? {
      SinglePull(s, e, x, y);
    } else if e.Push? {
      ManyPush(active, s, e, x, y);
    } else {
      SingleOther(s, e, x, y);
    }
  }

  lemma ManyPush(active: set<nat>, s: State, e: Event, x: nat, y: nat)
    requires ManyInv(active, s) && Enabled(s, e) && e.Push? && x in active && y in s.g[x]
    ensures Single(Next(s, e), x, y)
  {
    hide Traced;
    var p := s.ws[e.w];
    assert Orderly(s, p) && WorkerInv(active, s, p) && Single(s, p.next, p.v);
    assert Owes(s.g, p, p.next);
    assert Single(s, x, y);
    SinglePush(s, e, x, y);
  }

  lemma SameWorkers(s: State, e: Event)
    requires Enabled(s, e) && s.n <= |s.pushed|
    ensures e.w < |s.ws| == |Next(s, e).ws| && Next(s, e).n <= |Next(s, e).pushed|
  {
  }

  lemma ManyStep(active: set<nat>, s: State, e: Event)
    requires ManyInv(active, s) && Enabled(s, e)
    ensures ManyInv(active, Next(s, e))
  {
    var t := Next(s, e);
    hide Single, Orderly, Safe, Traced, Next, Enabled;
    StepLive(active, s, e);
    if e.Look? {
      ManyLook(active, s, e);
    }
    NoAbort142(active, s, e);
    SameWorkers(s, e);
    forall w | 0 <= w < |t.ws| ensures Orderly(t, t.ws[w]) {
      if w == e.w {
        StepOrderly(s, e);
      } else {
        OtherOrderly(s, e, w);
      }
    }
    forall x, y | x in active && y in t.g[x] ensures Single(t, x, y) {
      ManySingle(active, s, e, x, y);
    }
  }

  lemma OtherOrderly(s: State, e: Event, w: nat)
    requires Enabled(s, e) && s.n <= |s.pushed| && w < |s.ws| && w != e.w && Orderly(s, s.ws[w])
    ensures s.n <= Next(s, e).n <= |Next(s, e).pushed| && |Next(s, e).ws| == |s.ws|
    ensures Orderly(Next(s, e), Next(s, e).ws[w])
  {
    PrefixStays(s, e);
    hide Distinct;
  }

  lemma {:induction false} ManySteps(active: set<nat>, s: State, es: seq<Event>, s': State)
    requires ManyInv(active, s) && Steps(s, es, s')
    ensures !s'.aborted
    decreases |es|
  {
    if es != [] {
      ManyStep(active, s, es[0]);
      ManySteps(active, Next(s, es[0]), es[1..], s');
    }
  }

  // ----- On contended rules a second worker can abort -----

  // When the first dependency of x is pulled, there is another, or the same again.
  lemma AnotherOne(s: State, x: nat, init: seq<nat>) returns (y: nat)
    requires x < |s.g| && Contested(s.g, init, x) && Before(s, s.g[x])
    requires s.n < |s.pushed| && init <= s.pushed && s.pushed[s.n] in s.g[x]
    ensures y in s.g[x] && (y !in s.pushed[..s.n + 1] || y in s.pushed[s.n + 1..])
  {
    var v := s.pushed[s.n];
    assert s.pushed[..s.n + 1] == s.pushed[..s.n] + [v];
    if a, b :| a in s.g[x] && b in s.g[x] && a != b {
      y := if a == v then b else a;
    } else {
      y :| y in s.g[x] && Twice(init, y);
      var i, j :| 0 <= i < j < |init| && init[i] == y && init[j] == y;
      assert s.pushed[i] == y && s.pushed[j] == y;
      forall k | 0 <= k < s.n ensures s.pushed[k] != y {
        assert s.pushed[..s.n][k] == s.pushed[k];
      }
      assert s.pushed[s.n + 1..][j - s.n - 1] == y;
    }
  }

  lemma NotDoneYet(active: set<nat>, t: State, u: nat, y: nat)
    requires Live(active, t) && u < |t.ws| && t.ws[u].Scanning? && AllIdle(t.At(u, Idle)) && y in active
    requires y !in t.pushed[..t.n] || y in t.pushed[t.n..]
    ensures Undone(t, y)
  {
    assert Traced(active, t, y);
    forall w | 0 <= w < |t.ws| ensures !Raising(t.ws[w], y) {
      assert w != u ==> t.ws[w] == t.At(u, Idle).ws[w];
    }
    assert t.pushed == t.pushed[..t.n] + t.pushed[t.n..];
  }

  // Worker 1 pulls the first dependency of x, looks at everything else that depends on it, and waits before it looks
  // at x.
  lemma Park(active: set<nat>, s: State, x: nat, init: seq<nat>) returns (t: State, y: nat)
    requires Live(active, s) && Calm(s) && |s.ws| >= 2 && x in active
    requires Contested(s.g, init, x) && Before(s, s.g[x])
    requires s.n < |s.pushed| && init <= s.pushed && s.pushed[s.n] in s.g[x]
    ensures Goes(1, s, t) && Live(active, t) && t.g == s.g
    ensures !t.aborted ==>
      && |t.ws| == |s.ws| && NoneFailed(t) && t.ws[1].Scanning? && t.ws[1].todo == [x]
      && AllIdle(t.At(1, Idle)) && y in s.g[x] && Undone(t, y)
  {
    hide Traced, WorkerInv, DepsDone, Goes, Undone;
    var v := s.pushed[s.n];
    y := AnotherOne(s, x, init);
    var others := Listed(Dependents(s.g, v) - {x});
    ListedLast(s.g, v, others, x);
    var a := Begin(s, 1, others + [x]);
    t := LookAll(a, 1, others, [x]);
    GoesOn(1, s, a, t);
    GoesLive(active, 1, s, t);
    if !t.aborted {
      assert t.pushed[..t.n] == s.pushed[..s.n + 1];
      assert forall z :: z in s.pushed[s.n + 1..] ==> z in t.pushed[t.n..];
      NotDoneYet(active, t, 1, y);
    }
  }

  lemma ListedLast(g: Graph, v: nat, others: seq<nat>, x: nat)
    requires x in Dependents(g, v) && Distinct(others) && forall z :: z in others <==> z in Dependents(g, v) - {x}
    ensures Lists(g, v, others + [x])
  {
  }

  // With worker 1 waiting, worker 0 does everything else. So when worker 1 looks at x, it is satisfied.
  lemma RunAhead(active: set<nat>, order: seq<nat>, s: State, x: nat, y: nat) returns (t: State)
    requires Live(active, s) && |s.ws| >= 2 && NoneFailed(s) && !s.aborted && Orders(active, s.g, order)
    requires s.ws[1].Scanning? && s.ws[1].todo == [x] && AllIdle(s.At(1, Idle))
    requires x in active && y in s.g[x] && Undone(s, y)
    ensures CanReach(s, t) && t.aborted
  {
    hide Traced, WorkerInv, DepsDone, Goes, Undone, Sorted, Sifted, CanReach;
    var a, p := s.At(1, Idle), s.ws[1];
    LeftOut(active, s, 1, x, y);
    InitiallySifted(active, order, a);
    var b := Drive(active, order, a, 0, {}, 0, |a.pushed| - a.n);
    GoesLive(active, 0, a, b);
    GoesLifted(0, a, b, 1, p);
    assert a.ws[1 := p] == s.ws;
    var c := b.At(1, p);
    GoesReaches(0, s, c);
    t := c;
    if !b.aborted {
      QuietIsSatisfied(active, order, b, x);
      t := Next(c, Look(1));
      GoesStep(c, Look(1));
      GoesReaches(1, c, t);
      CanReachOn(s, c, t);
    }
  }

  lemma SecondWorkerCan(active: set<nat>, order: seq<nat>, s: State, x: nat) returns (t: State)
    requires Initial(active, s) && Orders(active, s.g, order) && |s.ws| >= 2
    requires x in active && Contested(s.g, s.pushed, x)
    ensures CanReach(s, t) && t.aborted
  {
    InitialLive(active, s);
    hide Initial, Traced, WorkerInv, DepsDone, Goes, Undone, Sorted, Sifted, CanReach;
    InitiallySifted(active, order, s);
    var a := Drive(active, order, s, 1, s.g[x], 0, |s.pushed| - s.n);
    GoesReaches(1, s, a);
    t := a;
    if !a.aborted {
      GoesLive(active, 1, s, a);
      if a.n == |a.pushed| {
        NoneIsLeft(active, order, a, x);
      }
      var y;
      t, y := Park(active, a, x, s.pushed);
      GoesReaches(1, a, t);
      CanReachOn(s, a, t);
      if !t.aborted {
        var b := t;
        t := RunAhead(active, order, b, x, y);
        CanReachOn(s, b, t);
      }
    }
  }

  lemma NoneIsLeft(active: set<nat>, order: seq<nat>, s: State, x: nat)
    requires Live(active, s) && Calm(s) && Orders(active, s.g, order) && x in active && s.g[x] != {}
    requires Before(s, s.g[x])
    ensures s.n < |s.pushed|
  {
    if s.n == |s.pushed| {
      var y :| y in s.g[x];
      QuietIsSatisfied(active, order, s, y);
    }
  }

  // ----- The condition -----

  lemma InitialOne(active: set<nat>, s: State)
    requires Initial(active, s) && |s.ws| == 1
    ensures OneInv(active, s)
  {
    InitialLive(active, s);
  }

  lemma InitialMany(active: set<nat>, s: State)
    requires Initial(active, s) && !Contended(active, s)
    ensures ManyInv(active, s)
  {
    InitialLive(active, s);
    forall x, y | x in active && y in s.g[x] ensures Single(s, x, y) {
      assert !Contested(s.g, s.pushed, x);
    }
  }

  lemma NeverAborts(active: set<nat>, s: State, es: seq<Event>, s': State)
    requires Initial(active, s) && Steps(s, es, s')
    requires |s.ws| <= 1 || !Contended(active, s)
    ensures !s'.aborted
  {
    if |s.ws| == 1 {
      InitialOne(active, s);
      OneSteps(active, s, es, s');
    } else if |s.ws| == 0 {
      assert es == [];
    } else {
      InitialMany(active, s);
      ManySteps(active, s, es, s');
    }
  }

  // An assertion can fail exactly if there are two workers or more, and a needed rule depends on two rules or on a
  // leaf that is on the queue twice.
  lemma AbortsExactly(active: set<nat>, order: seq<nat>, s: State)
    requires Initial(active, s) && Orders(active, s.g, order)
    ensures CanAbort(s) <==> |s.ws| >= 2 && Contended(active, s)
  {
    if |s.ws| >= 2 && Contended(active, s) {
      var x :| x in active && x < |s.g| && Contested(s.g, s.pushed, x);
      var t := SecondWorkerCan(active, order, s, x);
    } else {
      forall s' | CanReach(s, s') ensures !s'.aborted {
        var es :| Steps(s, es, s');
        NeverAborts(active, s, es, s');
      }
    }
  }

  // Rule 0 depends on rules 1 and 2, which depend on nothing.
  ghost function TwoLeaves(): State {
    State([{1, 2}, {}, {}], [WAITING, WAITING, WAITING], [1, 2], 0, [Idle, Idle], false)
  }

  lemma LeavesFirst()
    ensures Orders({0, 1, 2}, TwoLeaves().g, [1, 2, 0]) && Contested(TwoLeaves().g, TwoLeaves().pushed, 0)
  {
    var g := TwoLeaves().g;
    assert 1 in g[0] && 2 in g[0];
    assert [1, 2, 0][..2] == [1, 2];
  }

  // For instance with two workers, on rules without a cycle.
  lemma SecondWorkerAborts()
    ensures Initial({0, 1, 2}, TwoLeaves()) && exists s :: CanReach(TwoLeaves(), s) && s.aborted
  {
    LeavesFirst();
    hide Sorted, Orders, Contested, CanReach;
    AbortsExactly({0, 1, 2}, [1, 2, 0], TwoLeaves());
  }
}
