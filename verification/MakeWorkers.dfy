// The workers of parallel_make/parmake.c, any number of them, as a step system. A step is what a
// worker does with the queue or under the mutex at one time.
module MakeWorkers {
  import opened Listing
  import opened MakeGraph
  import opened MakeRun

  datatype Pc =
    | Idle                                           // before line 46
    | Got(v: nat)                                    // before line 51
    | Running(v: nat)                                // lines 55-104, before the state is set
    | Handled(v: nat)                                // before line 109
    | Scanning(v: nat, todo: seq<nat>)               // before line 117, for each of todo
    | Looking(v: nat, next: nat, todo: seq<nat>)     // between lines 127 and 132
    | Failing(v: nat, next: nat, todo: seq<nat>)     // before line 151
    | Pushing(v: nat, next: nat, todo: seq<nat>)     // before line 155

  // As in MakeRun, `pushed` lists all pushes so far and the first n of them were pulled.
  datatype State = State(g: Graph, st: seq<int>, pushed: seq<nat>, n: nat, ws: seq<Pc>, aborted: bool) {
    function At(w: nat, p: Pc): State requires w < |ws| { this.(ws := ws[w := p]) }
  }

  datatype Event =
    | Pull(w: nat)
    | Check(w: nat)                     // lines 51-54
    | Finish(w: nat, fail: bool)        // lines 59-65, 91-97 and 99-101
    | List(w: nat, list: seq<nat>)      // line 109
    | Look(w: nat)                      // lines 117-127
    | Read(w: nat)                      // lines 132-144
    | Fail(w: nat)                      // lines 151-153
    | Push(w: nat)                      // line 155
    | Leave(w: nat)                     // lines 160-175

  ghost predicate Enabled(s: State, e: Event) {
    e.w < |s.ws| && !s.aborted &&
    match e
    case Pull(w) => s.ws[w].Idle? && s.n < |s.pushed|
    case Check(w) => s.ws[w].Got? && s.ws[w].v < |s.st|
    case Finish(w, _) => s.ws[w].Running? && s.ws[w].v < |s.st|
    case List(w, list) => s.ws[w].Handled? && Lists(s.g, s.ws[w].v, list)
    case Look(w) => s.ws[w].Scanning? && s.ws[w].todo != [] && s.ws[w].todo[0] < |s.st|
    case Read(w) => s.ws[w].Looking? && s.ws[w].next < |s.g| == |s.st|
    case Fail(w) => s.ws[w].Failing? && s.ws[w].next < |s.st|
    case Push(w) => s.ws[w].Pushing?
    case Leave(w) => s.ws[w].Scanning? && s.ws[w].todo == []
  }

  // graph_antineighbors lists each rule once.
  ghost predicate Lists(g: Graph, v: nat, list: seq<nat>) {
    Distinct(list) && forall x :: x in list <==> x in Dependents(g, v)
  }

  predicate Some(g: Graph, st: seq<int>, x: nat, value: int)
    requires x < |g|
  {
    exists y :: y in g[x] && y < |st| && st[y] == value
  }

  ghost function Next(s: State, e: Event): State
    requires Enabled(s, e)
  {
    match e
    case Pull(w) => s.At(w, Got(s.pushed[s.n])).(n := s.n + 1)
    case Check(w) => s.At(w, if s.st[s.ws[w].v] == FAILED then Handled(s.ws[w].v) else Running(s.ws[w].v))
    case Finish(w, fail) =>
      s.At(w, Handled(s.ws[w].v)).(st := s.st[s.ws[w].v := if fail then FAILED else SATISFIED])
    case List(w, list) => s.At(w, Scanning(s.ws[w].v, list))
    case Look(w) =>
      var next, rest := s.ws[w].todo[0], s.ws[w].todo[1..];
      if s.st[next] == IDLE || s.st[next] == FAILED then s.At(w, Scanning(s.ws[w].v, rest))
      else if s.st[next] == SATISFIED then s.(aborted := true)  // the assertion of line 126
      else s.At(w, Looking(s.ws[w].v, next, rest))
    case Read(w) =>
      var p := s.ws[w];
      // The loop stops at the first dependency that is not done, and else asserts, line 142,
      // that none is idle.
      if Some(s.g, s.st, p.next, WAITING) then s.At(w, Scanning(p.v, p.todo))
      else if Some(s.g, s.st, p.next, IDLE) then s.(aborted := true)
      else if Some(s.g, s.st, p.next, FAILED) then s.At(w, Failing(p.v, p.next, p.todo))
      else s.At(w, Pushing(p.v, p.next, p.todo))
    case Fail(w) =>
      s.At(w, Pushing(s.ws[w].v, s.ws[w].next, s.ws[w].todo)).(st := s.st[s.ws[w].next := FAILED])
    case Push(w) => s.At(w, Scanning(s.ws[w].v, s.ws[w].todo)).(pushed := s.pushed + [s.ws[w].next])
    case Leave(w) => s.At(w, Idle)
  }

  ghost predicate Steps(s: State, es: seq<Event>, s': State)
    decreases |es|
  {
    if es == [] then s == s' else Enabled(s, es[0]) && Steps(Next(s, es[0]), es[1..], s')
  }

  // What SearchGoals leaves: the active rules wait, and the leaves among them are on the queue.
  ghost predicate Initial(active: set<nat>, s: State) {
    && Valid(s.g) && |s.st| == |s.g| && s.n == 0 && !s.aborted
    && (forall x :: x in active ==> x < |s.g|)
    && (forall x, y :: x in active && y in s.g[x] ==> y in active)
    && (forall x :: 0 <= x < |s.g| ==> s.st[x] == if x in active then WAITING else IDLE)
    && (forall x :: x in s.pushed <==> x in active && s.g[x] == {})
    && (forall w :: 0 <= w < |s.ws| ==> s.ws[w] == Idle)
  }

  // ----- The invariant -----

  ghost predicate Closed(active: set<nat>, s: State) {
    && Valid(s.g) && |s.st| == |s.g| && s.n <= |s.pushed|
    && (forall x :: x in active ==> x < |s.g|)
    && (forall x, y :: x in active && y in s.g[x] ==> y in active)
    && (forall x :: 0 <= x < |s.g| ==> s.st[x] in {IDLE, WAITING, FAILED, SATISFIED})
    && (forall x :: 0 <= x < |s.g| ==> (s.st[x] == IDLE <==> x !in active))
    && (forall x :: x in s.pushed ==> x in active)
  }

  // Everything x depends on is failed or satisfied.
  ghost predicate DepsDone(s: State, x: nat) {
    x < |s.g| && forall y :: y in s.g[x] ==> y < |s.st| && (s.st[y] == FAILED || s.st[y] == SATISFIED)
  }

  ghost predicate Within(s: State, todo: seq<nat>) {
    forall x :: x in todo ==> x < |s.st|
  }

  ghost predicate WorkerInv(active: set<nat>, s: State, p: Pc) {
    match p
    case Idle => true
    case Got(v) => v in active && DepsDone(s, v)
    case Running(v) => v in active && DepsDone(s, v)
    case Handled(v) => v in active && v < |s.st| && s.st[v] != WAITING
    case Scanning(v, todo) => Within(s, todo)
    case Looking(v, next, todo) => next in active && Within(s, todo)
    case Failing(v, next, todo) => next in active && DepsDone(s, next) && Within(s, todo)
    case Pushing(v, next, todo) => next in active && DepsDone(s, next) && Within(s, todo)
  }

  ghost predicate Safe(active: set<nat>, s: State) {
    && Closed(active, s)
    && (forall x :: x in s.pushed ==> DepsDone(s, x))
    && (forall w :: 0 <= w < |s.ws| ==> WorkerInv(active, s, s.ws[w]))
  }

  // What is done stays done.
  lemma DepsStay(active: set<nat>, s: State, e: Event, x: nat)
    requires Closed(active, s) && Enabled(s, e) && DepsDone(s, x)
    ensures DepsDone(Next(s, e), x)
  {
  }

  lemma StepSafe(active: set<nat>, s: State, e: Event)
    requires Safe(active, s) && Enabled(s, e)
    ensures Safe(active, Next(s, e))
  {
    hide DepsDone, Closed;
    StepClosed(active, s, e);
    StepWorker(active, s, e);
    StepOthers(active, s, e);
    StepPushed(active, s, e);
  }

  lemma StepOthers(active: set<nat>, s: State, e: Event)
    requires Safe(active, s) && Enabled(s, e)
    ensures |Next(s, e).ws| == |s.ws|
    ensures forall w :: 0 <= w < |s.ws| && w != e.w ==> WorkerInv(active, Next(s, e), Next(s, e).ws[w])
  {
    var t := Next(s, e);
    forall w | 0 <= w < |t.ws| && w != e.w ensures WorkerInv(active, t, t.ws[w]) {
      assert WorkerInv(active, s, t.ws[w]);
    }
  }

  lemma StepPushed(active: set<nat>, s: State, e: Event)
    requires Safe(active, s) && Enabled(s, e)
    ensures forall x :: x in Next(s, e).pushed ==> DepsDone(Next(s, e), x)
  {
    hide DepsDone;
    var t := Next(s, e);
    assert WorkerInv(active, s, s.ws[e.w]);
    forall x | x in t.pushed ensures DepsDone(t, x) {
      DepsStay(active, s, e, x);
    }
  }

  lemma StepClosed(active: set<nat>, s: State, e: Event)
    requires Safe(active, s) && Enabled(s, e)
    ensures Closed(active, Next(s, e))
  {
    assert WorkerInv(active, s, s.ws[e.w]);
  }

  lemma StepWorker(active: set<nat>, s: State, e: Event)
    requires Safe(active, s) && Enabled(s, e) && Closed(active, Next(s, e))
    ensures WorkerInv(active, Next(s, e), Next(s, e).ws[e.w])
  {
    assert WorkerInv(active, s, s.ws[e.w]);
    match e
    case Pull(w) =>
      assert s.pushed[s.n] in s.pushed;
    case Look(w) =>
      var todo := s.ws[w].todo;
      assert todo == [todo[0]] + todo[1..];
      assert forall x :: x in todo <==> x == todo[0] || x in todo[1..];
    case _ =>
  }

  lemma {:induction false} StepsSafe(active: set<nat>, s: State, es: seq<Event>, s': State)
    requires Safe(active, s) && Steps(s, es, s')
    ensures Safe(active, s')
    decreases |es|
  {
    if es != [] {
      StepSafe(active, s, es[0]);
      StepsSafe(active, Next(s, es[0]), es[1..], s');
    }
  }

  // With any number of workers, in any interleaving: a rule that is pulled has all it depends on
  // failed or satisfied, and so has one whose commands run.
  lemma PulledAfterDependencies(active: set<nat>, s: State, es: seq<Event>, s': State, w: nat)
    requires Initial(active, s) && Steps(s, es, s')
    ensures s'.n < |s'.pushed| ==> DepsDone(s', s'.pushed[s'.n])
    ensures w < |s'.ws| && (s'.ws[w].Got? || s'.ws[w].Running?) ==> DepsDone(s', s'.ws[w].v)
  {
    StepsSafe(active, s, es, s');
    if w < |s'.ws| {
      assert WorkerInv(active, s', s'.ws[w]);
    }
  }

  // The assertion of line 142 holds: no dependency of a rule looked at is idle.
  lemma NeverIdle(active: set<nat>, s: State, es: seq<Event>, s': State, w: nat)
    requires Initial(active, s) && Steps(s, es, s') && Enabled(s', Read(w))
    ensures !Some(s'.g, s'.st, s'.ws[w].next, IDLE) && !Next(s', Read(w)).aborted
  {
    StepsSafe(active, s, es, s');
    assert WorkerInv(active, s', s'.ws[w]);
  }

  // ----- Nothing is lost -----

  // A worker is about to push x.
  predicate Raising(p: Pc, x: nat) {
    (p.Failing? || p.Pushing?) && p.next == x
  }

  // A worker has pulled x and not yet set its state.
  predicate Holding(p: Pc, x: nat) {
    (p.Got? || p.Running?) && p.v == x
  }

  // A worker is still going to look at x, or to push it.
  predicate Owes(g: Graph, p: Pc, x: nat)
    requires x < |g|
  {
    match p
    case Idle => false
    case Got(v) => v in g[x]
    case Running(v) => v in g[x]
    case Handled(v) => v in g[x]
    case Scanning(v, todo) => x in todo
    case _ => x == p.next || x in p.todo
  }

  ghost predicate Raised(s: State, x: nat) {
    exists w :: 0 <= w < |s.ws| && Raising(s.ws[w], x)
  }

  ghost predicate Held(s: State, x: nat) {
    exists w :: 0 <= w < |s.ws| && Holding(s.ws[w], x)
  }

  ghost predicate Owed(s: State, x: nat)
    requires x < |s.g|
  {
    exists w :: 0 <= w < |s.ws| && Owes(s.g, s.ws[w], x)
  }

  // When y becomes done later on, those that depend on it will be looked at again.
  ghost predicate Undone(s: State, y: nat)
    requires y < |s.st| && s.n <= |s.pushed|
  {
    s.st[y] == WAITING || y in s.pushed[s.n..] || Raised(s, y)
  }

  ghost predicate Traced(active: set<nat>, s: State, x: nat)
    requires Closed(active, s) && x in active
  {
    && (s.st[x] != WAITING ==> x in s.pushed || Raised(s, x))
    && (x in s.pushed && s.st[x] == WAITING ==> x in s.pushed[s.n..] || Held(s, x))
    && (Held(s, x) ==> x in s.pushed)
    && (x !in s.pushed ==> Owed(s, x) || exists y :: y in s.g[x] && Undone(s, y))
  }

  ghost predicate Live(active: set<nat>, s: State) {
    Safe(active, s) && forall x :: x in active ==> Traced(active, s, x)
  }

  lemma StepTraced(active: set<nat>, s: State, e: Event, x: nat)
    requires Safe(active, s) && Enabled(s, e) && x in active && Traced(active, s, x)
    ensures Closed(active, Next(s, e)) && Traced(active, Next(s, e), x)
  {
    hide Enabled;
    StepClosed(active, s, e);
    StepMarked(active, s, e, x);
    if x in Next(s, e).pushed && Next(s, e).st[x] == WAITING {
      StepQueued(active, s, e, x);
    }
    if Held(Next(s, e), x) {
      StepHeld(s, e, x);
    }
    if x !in Next(s, e).pushed {
      StepOwed(active, s, e, x);
    }
  }

  lemma StepMarked(active: set<nat>, s: State, e: Event, x: nat)
    requires Safe(active, s) && Enabled(s, e) && x in active && Traced(active, s, x)
    requires Closed(active, Next(s, e))
    ensures Next(s, e).st[x] != WAITING ==> x in Next(s, e).pushed || Raised(Next(s, e), x)
  {
    var t := Next(s, e);
    if s.st[x] != WAITING && x !in s.pushed {
      var w :| 0 <= w < |s.ws| && Raising(s.ws[w], x);
      if w == e.w {
        assert e.Push? ==> t.pushed[|s.pushed|] == x;
        assert !e.Push? ==> Raising(t.ws[w], x);
      } else {
        assert Raising(t.ws[w], x);
      }
    } else if s.st[x] == WAITING && t.st[x] != WAITING {
      if e.Finish? {
        assert Holding(s.ws[e.w], x);
      } else {
        assert Raising(t.ws[e.w], x);
      }
    }
  }

  lemma StepQueued(active: set<nat>, s: State, e: Event, x: nat)
    requires Closed(active, s) && Enabled(s, e) && x in active && Traced(active, s, x)
    requires Closed(active, Next(s, e)) && x in Next(s, e).pushed && Next(s, e).st[x] == WAITING
    ensures x in Next(s, e).pushed[Next(s, e).n..] || Held(Next(s, e), x)
  {
    hide Undone, Owed;
    var t := Next(s, e);
    if x !in s.pushed {
      assert t.pushed[|s.pushed|] == x;
      assert t.pushed[t.n..][|s.pushed| - t.n] == x;
    } else if x in s.pushed[s.n..] {
      StillQueued(s, e, x);
      assert x in t.pushed[t.n..] || Holding(t.ws[e.w], x);
    } else {
      var w :| 0 <= w < |s.ws| && Holding(s.ws[w], x);
      assert Holding(t.ws[w], x);
    }
  }

  lemma StepHeld(s: State, e: Event, x: nat)
    requires Enabled(s, e) && (Held(s, x) ==> x in s.pushed)
    requires Held(Next(s, e), x)
    ensures x in Next(s, e).pushed
  {
  }

  // A rule on the queue stays there until a worker has it.
  lemma StillQueued(s: State, e: Event, x: nat)
    requires Enabled(s, e) && s.n <= |s.pushed| && x in s.pushed[s.n..]
    ensures x in Next(s, e).pushed[Next(s, e).n..] || (e.Pull? && Next(s, e).ws[e.w] == Got(x))
  {
    var t := Next(s, e);
    var i :| s.n <= i < |s.pushed| && s.pushed[i] == x;
    assert s.pushed <= t.pushed && t.pushed[i] == x;
    if !(e.Pull? && i == s.n) {
      assert t.n <= i;
      assert t.pushed[t.n..][i - t.n] == x;
    }
  }

  lemma StepOwed(active: set<nat>, s: State, e: Event, x: nat)
    requires Safe(active, s) && Enabled(s, e) && x in active && Traced(active, s, x)
    requires Closed(active, Next(s, e)) && x !in Next(s, e).pushed
    ensures Owed(Next(s, e), x) || exists y :: y in s.g[x] && Undone(Next(s, e), y)
  {
    if Owed(s, x) {
      StillOwed(active, s, e, x);
    } else {
      var y :| y in s.g[x] && Undone(s, y);
      StillUndone(active, s, e, x, y);
    }
  }

  lemma StillOwed(active: set<nat>, s: State, e: Event, x: nat)
    requires Safe(active, s) && Enabled(s, e) && x in active && Traced(active, s, x) && Owed(s, x)
    requires Closed(active, Next(s, e)) && x !in Next(s, e).pushed
    ensures Owed(Next(s, e), x) || exists y :: y in s.g[x] && Undone(Next(s, e), y)
  {
    hide Safe;
    var t := Next(s, e);
    var w :| 0 <= w < |s.ws| && Owes(s.g, s.ws[w], x);
    if w != e.w {
      assert Owes(t.g, t.ws[w], x);
    } else if e.Look? && x == s.ws[w].todo[0] && s.st[x] == FAILED {
      assert Raised(s, x);
      var r :| 0 <= r < |s.ws| && Raising(s.ws[r], x);
      assert Owes(t.g, t.ws[r], x);
    } else if e.Read? && Some(s.g, s.st, s.ws[w].next, WAITING) && x == s.ws[w].next {
      var y :| y in s.g[x] && y < |s.st| && s.st[y] == WAITING;
      assert Undone(t, y);
    } else {
      OwesOn(s, e, x);
      assert Owes(t.g, t.ws[w], x);
    }
  }

  lemma OwesOn(s: State, e: Event, x: nat)
    requires Enabled(s, e) && x < |s.g| == |s.st| && Owes(s.g, s.ws[e.w], x) && x !in Next(s, e).pushed
    requires e.Look? && x == s.ws[e.w].todo[0] ==> s.st[x] != FAILED && s.st[x] != IDLE
    requires e.Read? && x == s.ws[e.w].next ==> !Some(s.g, s.st, x, WAITING)
    ensures Owes(s.g, Next(s, e).ws[e.w], x)
  {
  }

  lemma StillUndone(active: set<nat>, s: State, e: Event, x: nat, y: nat)
    requires Safe(active, s) && Enabled(s, e) && x in active && y in s.g[x] && Undone(s, y)
    requires Closed(active, Next(s, e))
    ensures Owed(Next(s, e), x) || Undone(Next(s, e), y)
  {
    var t := Next(s, e);
    if Raised(s, y) {
      var w :| 0 <= w < |s.ws| && Raising(s.ws[w], y);
      if w == e.w && e.Push? {
        assert t.pushed[t.n..][|s.pushed| - t.n] == y;
      } else {
        assert Raising(t.ws[w], y);
      }
    } else if y in s.pushed[s.n..] {
      StillQueued(s, e, y);
      if y !in t.pushed[t.n..] {
        assert Owes(t.g, t.ws[e.w], x);
      }
    } else if t.st[y] != WAITING && e.Finish? {
      assert Owes(t.g, t.ws[e.w], x);
    }
  }

  lemma StepLive(active: set<nat>, s: State, e: Event)
    requires Live(active, s) && Enabled(s, e)
    ensures Live(active, Next(s, e)) && Next(s, e).g == s.g
  {
    hide Closed, Traced;
    StepSafe(active, s, e);
    forall x | x in active ensures Traced(active, Next(s, e), x) {
      StepTraced(active, s, e, x);
    }
  }

  lemma {:induction false} StepsLive(active: set<nat>, s: State, es: seq<Event>, s': State)
    requires Live(active, s) && Steps(s, es, s')
    ensures Live(active, s') && s'.g == s.g
    decreases |es|
  {
    hide Live;
    if es != [] {
      StepLive(active, s, es[0]);
      StepsLive(active, Next(s, es[0]), es[1..], s');
    }
  }

  // No wakeup or push is missed: once all workers are back at an empty queue, every active rule
  // was pulled, however they took turns.
  lemma NothingSkipped(active: set<nat>, order: seq<nat>, s: State, es: seq<Event>, s': State)
    requires Initial(active, s) && Steps(s, es, s')
    requires Sorted(s.g, order) && forall x :: x in order <==> x in active
    requires s'.n == |s'.pushed| && forall w :: 0 <= w < |s'.ws| ==> s'.ws[w].Idle?
    ensures forall x :: x in active ==> x in s'.pushed
  {
    StepsLive(active, s, es, s');
    QuietIsDone(active, order, s', |order|);
    assert order[..|order|] == order;
  }

  lemma {:induction false} QuietIsDone(active: set<nat>, order: seq<nat>, s: State, k: nat)
    requires Live(active, s) && k <= |order|
    requires Sorted(s.g, order) && forall x :: x in order <==> x in active
    requires s.n == |s.pushed| && forall w :: 0 <= w < |s.ws| ==> s.ws[w].Idle?
    ensures forall x :: x in order[..k] ==> x in s.pushed
  {
    if k > 0 {
      QuietIsDone(active, order, s, k - 1);
      var x := order[k - 1];
      assert x in order && Traced(active, s, x);
      forall y | y in s.g[x] ensures !Undone(s, y) {
        assert y in order[..k - 1];
        assert Traced(active, s, y);
      }
      assert x in s.pushed;
      assert order[..k] == order[..k - 1] + [x];
    }
  }
}
