// critical_concurrency/barrier.c: the reusable barrier as a step system. A step is what one thread does between
// taking the mutex and giving it up, either by leaving barrier_wait or by going to sleep on the condition variable.
module Barrier {
  import opened Counting

  // Where a thread is: asleep at one of the two waits, woken there but not yet running, or outside barrier_wait.
  datatype Pc = Outside | DrainAsleep | DrainWoken | GatherAsleep | GatherWoken

  // round, entered and left record the history; the code has only n_threads, count and times_used.
  datatype State = State(
    count: nat,
    used: nat,           // times_used
    pc: seq<Pc>,         // one entry for each of the n_threads threads
    round: nat,          // how often count has been reset
    entered: seq<nat>,   // calls of barrier_wait each thread has started
    left: seq<nat>)      // calls of barrier_wait each thread has completed
  {
    function N(): nat { |pc| }
    predicate Is(t: nat) { t < |pc| && |entered| == |pc| && |left| == |pc| }
  }

  datatype Event = Enter(t: nat) | WakeDrain(t: nat) | WakeGather(t: nat) | Spurious(t: nat)

  function Initial(n: nat): State {
    State(0, 0, seq(n, _ => Outside), 0, seq(n, _ => 0), seq(n, _ => 0))
  }

  function Wake(p: Pc): Pc {
    match p
    case DrainAsleep => DrainWoken
    case GatherAsleep => GatherWoken
    case _ => p
  }

  // pthread_cond_broadcast
  function Broadcast(pc: seq<Pc>): (r: seq<Pc>)
    ensures |r| == |pc| && forall t :: 0 <= t < |pc| ==> r[t] == Wake(pc[t])
  {
    seq(|pc|, t requires 0 <= t < |pc| => Wake(pc[t]))
  }

  // Lines 46-48.
  function Leave(s: State, t: nat): State
    requires s.Is(t)
  {
    s.(used := s.used + 1, pc := s.pc[t := Outside], left := s.left[t := s.left[t] + 1])
  }

  // Lines 38-48.
  function Arrive(s: State, t: nat): State
    requires s.Is(t)
  {
    var s1 := s.(count := s.count + 1);
    var s2 := if s1.count == s1.N() then s1.(used := 0, pc := Broadcast(s1.pc)) else s1;
    if s2.count < s2.N() then s2.(pc := s2.pc[t := GatherAsleep]) else Leave(s2, t)
  }

  predicate Enabled(s: State, e: Event) {
    s.Is(e.t) &&
    match e
    case Enter(t) => s.pc[t] == Outside
    case WakeDrain(t) => s.pc[t] == DrainWoken
    case WakeGather(t) => s.pc[t] == GatherWoken
    case Spurious(t) => s.pc[t] == DrainAsleep || s.pc[t] == GatherAsleep
  }

  // One atomic section of thread e.t: from line 28, from line 35 or from line 44. A spurious wakeup is a
  // return from pthread_cond_wait without any broadcast.
  function Next(s: State, e: Event): State
    requires Enabled(s, e)
  {
    var t := e.t;
    match e
    case Enter(_) =>
      var s0 := s.(entered := s.entered[t := s.entered[t] + 1]);
      if s.count == s.N() then
        var s1 := if s.used == s.N() then s0.(count := 0, pc := Broadcast(s0.pc), round := s.round + 1) else s0;
        if s1.used < s1.N() then s1.(pc := s1.pc[t := DrainAsleep]) else Arrive(s1, t)
      else Arrive(s0, t)
    case WakeDrain(_) =>
      if s.used < s.N() then s.(pc := s.pc[t := DrainAsleep]) else Arrive(s, t)
    case WakeGather(_) =>
      if s.count < s.N() then s.(pc := s.pc[t := GatherAsleep]) else Leave(s, t)
    case Spurious(_) =>
      s.(pc := s.pc[t := Wake(s.pc[t])])
  }

  // es leads from s to s'.
  ghost predicate Run(s: State, es: seq<Event>, s': State)
    decreases |es|
  {
    if es == [] then s == s' else Enabled(s, es[0]) && Run(Next(s, es[0]), es[1..], s')
  }

  // ----- what the barrier is for -----

  // A thread has left its k-th call only if every thread has entered its k-th call.
  ghost predicate OnTime(s: State) {
    |s.left| == |s.entered| == s.N() && forall t, u :: 0 <= t < s.N() && 0 <= u < s.N() ==> s.left[t] <= s.entered[u]
  }

  ghost predicate AlwaysOnTime(s: State, es: seq<Event>)
    decreases |es|
  {
    OnTime(s) && (es != [] ==> Enabled(s, es[0]) && AlwaysOnTime(Next(s, es[0]), es[1..]))
  }

  // A thread returns from the wait of line 35 when all have left the last round, but none has started the next. Line 34
  // does not look at count, and so does not make it wait again.
  predicate PassesDrain(s: State, e: Event) {
    e.WakeDrain? && s.count == s.N() && s.used == s.N()
  }

  ghost predicate NonePassesDrain(s: State, es: seq<Event>)
    decreases |es|
  {
    es != [] ==> Enabled(s, es[0]) && !PassesDrain(s, es[0]) && NonePassesDrain(Next(s, es[0]), es[1..])
  }

  // No spurious return from the wait of line 35; there may be some at line 44.
  ghost predicate DrainsByBroadcast(s: State, es: seq<Event>)
    decreases |es|
  {
    es != [] ==>
      && Enabled(s, es[0])
      && !(es[0].Spurious? && s.pc[es[0].t] == DrainAsleep)
      && DrainsByBroadcast(Next(s, es[0]), es[1..])
  }

  // ----- the invariant -----

  ghost predicate Shape(s: State) {
    && 0 < s.N() && |s.entered| == |s.left| == s.N()
    && forall t :: 0 <= t < s.N() ==> s.entered[t] == s.left[t] + if s.pc[t] == Outside then 0 else 1
  }

  // count < n: everyone has completed `round` calls; those who have arrived are at line 44.
  ghost predicate Gathering(s: State)
    requires |s.left| == s.N()
  {
    && s.count < s.N() && s.count == Count(s.pc, GatherAsleep) + Count(s.pc, GatherWoken)
    && (forall t :: 0 <= t < s.N() ==> s.pc[t] != DrainAsleep)
    && (forall t :: 0 <= t < s.N() && s.pc[t] == DrainWoken ==> s.used == s.N())
    && (forall t :: 0 <= t < s.N() ==> s.left[t] == s.round)
  }

  // count == n: those still to leave have been woken at line 44; those who came back too early are at line 35, but not
  // everyone is.
  ghost predicate Draining(s: State)
    requires |s.left| == s.N()
  {
    && s.count == s.N() && 0 < s.used && s.used + Count(s.pc, GatherWoken) == s.N()
    && (forall t :: 0 <= t < s.N() ==> s.pc[t] != GatherAsleep)
    && (exists t :: 0 <= t < s.N() && s.pc[t] !in {DrainAsleep, DrainWoken})
    && (forall t :: 0 <= t < s.N() ==> s.left[t] == s.round + if s.pc[t] == GatherWoken then 0 else 1)
  }

  ghost predicate Inv(s: State) {
    Shape(s) && (Gathering(s) || Draining(s))
  }

  // While threads drain, none has been woken at line 35.
  ghost predicate Prompt(s: State) {
    s.count == s.N() ==> forall t :: 0 <= t < s.N() ==> s.pc[t] != DrainWoken
  }

  // t has the mutex and is about to run line 38; it has been counted as entered.
  ghost predicate Arriving(s: State, t: nat) {
    && s.Is(t)
    && (s.pc[t] == Outside || s.pc[t] == DrainWoken)
    && (forall u :: 0 <= u < s.N() ==> s.entered[u] == s.left[u] + if u != t && s.pc[u] == Outside then 0 else 1)
    && Gathering(s)
  }

  lemma ArriveInv(s: State, t: nat)
    requires Arriving(s, t)
    ensures Inv(Arrive(s, t)) && Prompt(Arrive(s, t))
  {
    if s.count + 1 == s.N() {
      ArriveLast(s, t);
    } else {
      CountUpdate(s.pc, t, GatherAsleep, GatherAsleep);
      CountUpdate(s.pc, t, GatherAsleep, GatherWoken);
    }
  }

  // The last arrival finds everyone else at line 44, wakes them and leaves first.
  lemma ArriveLast(s: State, t: nat)
    requires Arriving(s, t) && s.count + 1 == s.N()
    ensures Draining(Arrive(s, t)) && Shape(Arrive(s, t)) && Prompt(Arrive(s, t))
  {
    OthersGathered(s, t);
    var pc := Broadcast(s.pc)[t := Outside];
    CountAllButOne(pc, t, GatherWoken);
    var s' := Arrive(s, t);
    assert s' == s.(count := s.N(), used := 1, pc := pc, left := s.left[t := s.left[t] + 1]);
    hide Count, Arrive;
    assert s'.pc[t] !in {DrainAsleep, DrainWoken};
  }

  lemma OthersGathered(s: State, t: nat)
    requires Arriving(s, t) && s.count + 1 == s.N()
    ensures forall u :: 0 <= u < s.N() && u != t ==> s.pc[u] == GatherAsleep || s.pc[u] == GatherWoken
  {
    var all := s.pc[t := GatherAsleep];
    CountUpdate(s.pc, t, GatherAsleep, GatherAsleep);
    CountUpdate(s.pc, t, GatherAsleep, GatherWoken);
    CountTwo(all, GatherAsleep, GatherWoken);
    forall u | 0 <= u < s.N() && u != t ensures s.pc[u] == GatherAsleep || s.pc[u] == GatherWoken {
      assert all[u] == s.pc[u];
    }
  }

  // ----- every step keeps it -----

  function Entered(s: State, t: nat): State
    requires s.Is(t)
  {
    s.(entered := s.entered[t := s.entered[t] + 1])
  }

  function Reset(s: State): State { s.(count := 0, pc := Broadcast(s.pc), round := s.round + 1) }

  // The first thread back after everyone has left starts a new round.
  lemma ResetGathers(s: State)
    requires Shape(s) && Draining(s) && s.used == s.N()
    ensures Gathering(Reset(s))
  {
    CountEnds(s.pc, GatherWoken);
    CountEnds(Reset(s).pc, GatherAsleep);
    CountEnds(Reset(s).pc, GatherWoken);
    hide Count;
  }

  lemma EnterReset(s: State, t: nat)
    requires Shape(s) && Draining(s) && s.Is(t) && s.pc[t] == Outside && s.used == s.N()
    ensures Inv(Next(s, Enter(t))) && Prompt(Next(s, Enter(t)))
  {
    ResetGathers(s);
    var s1 := Reset(Entered(s, t));
    assert Next(s, Enter(t)) == Arrive(s1, t);
    hide Count, Arrive, Next, Inv, Draining, Prompt;
    assert s1.pc == Reset(s).pc && s1.left == s.left;
    assert Arriving(s1, t);
    ArriveInv(s1, t);
  }

  lemma SomebodyLeaves(s: State)
    requires Shape(s) && Draining(s) && s.used < s.N()
    ensures exists u :: 0 <= u < s.N() && s.pc[u] == GatherWoken
  {
    CountEnds(s.pc, GatherWoken);
  }

  // A thread that comes back before everyone has left sleeps at line 35.
  lemma EnterTooEarly(s: State, t: nat)
    requires Shape(s) && Draining(s) && s.Is(t) && s.pc[t] == Outside && s.used < s.N()
    ensures Inv(Next(s, Enter(t)))
  {
    var s' := Entered(s, t).(pc := s.pc[t := DrainAsleep]);
    assert Next(s, Enter(t)) == s';
    hide Next, Count, Gathering;
    SomebodyLeaves(s);
    var u :| 0 <= u < s.N() && s.pc[u] == GatherWoken;
    assert s'.pc[u] == GatherWoken;
    CountUpdate(s.pc, t, DrainAsleep, GatherWoken);
  }

  lemma EnterInv(s: State, t: nat)
    requires Inv(s) && s.Is(t) && s.pc[t] == Outside
    ensures Inv(Next(s, Enter(t)))
    ensures Prompt(s) ==> Prompt(Next(s, Enter(t)))
  {
    if s.count < s.N() {
      assert Arriving(Entered(s, t), t);
      assert Next(s, Enter(t)) == Arrive(Entered(s, t), t);
      hide Arriving, Arrive, Next, Inv, Prompt;
      ArriveInv(Entered(s, t), t);
    } else if s.used == s.N() {
      EnterReset(s, t);
    } else {
      EnterTooEarly(s, t);
    }
  }

  lemma DrainInv(s: State, t: nat)
    requires Inv(s) && s.Is(t) && s.pc[t] == DrainWoken && !PassesDrain(s, WakeDrain(t))
    ensures Inv(Next(s, WakeDrain(t)))
    ensures Prompt(s) ==> Prompt(Next(s, WakeDrain(t)))
  {
    if s.count < s.N() {
      ArriveInv(s, t);
    } else {
      CountUpdate(s.pc, t, DrainAsleep, GatherWoken);
      var u := SomebodyElse(s, t);
      assert Next(s, WakeDrain(t)).pc[u] == s.pc[u];
    }
  }

  // While threads drain, someone is not at line 35.
  lemma SomebodyElse(s: State, t: nat) returns (u: nat)
    requires Shape(s) && Draining(s) && s.Is(t) && s.pc[t] in {DrainAsleep, DrainWoken}
    ensures u < s.N() && u != t && s.pc[u] !in {DrainAsleep, DrainWoken}
  {
    u :| u < s.N() && s.pc[u] !in {DrainAsleep, DrainWoken};
  }

  // A thread woken at line 44 too early sleeps there again; else it leaves.
  lemma GatherAgain(s: State, t: nat)
    requires Shape(s) && Gathering(s) && s.Is(t) && s.pc[t] == GatherWoken
    ensures Inv(Next(s, WakeGather(t))) && Prompt(Next(s, WakeGather(t)))
  {
    CountUpdate(s.pc, t, GatherAsleep, GatherAsleep);
    CountUpdate(s.pc, t, GatherAsleep, GatherWoken);
    hide Count, Draining;
  }

  lemma GatherLeave(s: State, t: nat)
    requires Shape(s) && Draining(s) && s.Is(t) && s.pc[t] == GatherWoken
    ensures Inv(Next(s, WakeGather(t)))
    ensures Prompt(s) ==> Prompt(Next(s, WakeGather(t)))
  {
    CountUpdate(s.pc, t, Outside, GatherWoken);
    var s' := Leave(s, t);
    assert Next(s, WakeGather(t)) == s';
    hide Count, Gathering, Next;
    assert s'.pc[t] == Outside;
  }

  lemma GatherInv(s: State, t: nat)
    requires Inv(s) && s.Is(t) && s.pc[t] == GatherWoken
    ensures Inv(Next(s, WakeGather(t)))
    ensures Prompt(s) ==> Prompt(Next(s, WakeGather(t)))
  {
    if s.count < s.N() {
      GatherAgain(s, t);
    } else {
      GatherLeave(s, t);
    }
  }

  lemma SpuriousInv(s: State, t: nat)
    requires Inv(s) && Enabled(s, Spurious(t))
    ensures Inv(Next(s, Spurious(t)))
    ensures Prompt(s) && s.pc[t] != DrainAsleep ==> Prompt(Next(s, Spurious(t)))
  {
    if s.count < s.N() {
      CountUpdate(s.pc, t, GatherWoken, GatherAsleep);
      CountUpdate(s.pc, t, GatherWoken, GatherWoken);
    } else {
      CountUpdate(s.pc, t, DrainWoken, GatherWoken);
      var u := SomebodyElse(s, t);
      assert Next(s, Spurious(t)).pc[u] == s.pc[u];
    }
  }

  lemma StepInv(s: State, e: Event)
    requires Inv(s) && Enabled(s, e) && !PassesDrain(s, e)
    ensures Inv(Next(s, e)) && Next(s, e).N() == s.N()
    ensures Prompt(s) && !(e.Spurious? && s.pc[e.t] == DrainAsleep) ==> Prompt(Next(s, e))
  {
    hide Gathering, Draining, Prompt, Shape;
    match e
    case Enter(t) => EnterInv(s, t);
    case WakeDrain(t) => DrainInv(s, t);
    case WakeGather(t) => GatherInv(s, t);
    case Spurious(t) => SpuriousInv(s, t);
  }

  lemma InitialInv(n: nat)
    requires n > 0
    ensures Inv(Initial(n)) && Prompt(Initial(n))
  {
    CountEnds(Initial(n).pc, GatherAsleep);
    CountEnds(Initial(n).pc, GatherWoken);
  }

  lemma {:induction false} RunInv(s: State, es: seq<Event>, s': State)
    requires Inv(s) && Run(s, es, s') && NonePassesDrain(s, es)
    ensures Inv(s') && s'.N() == s.N()
    decreases |es|
  {
    hide Inv, Next;
    if es != [] {
      StepInv(s, es[0]);
      RunInv(Next(s, es[0]), es[1..], s');
    }
  }

  lemma ReachableInv(n: nat, es: seq<Event>, s: State)
    requires n > 0 && Run(Initial(n), es, s) && NonePassesDrain(Initial(n), es)
    ensures Inv(s) && s.N() == n
  {
    InitialInv(n);
    RunInv(Initial(n), es, s);
  }

  // ----- which runs are on time -----

  lemma InvOnTime(s: State)
    requires Inv(s)
    ensures OnTime(s)
  {
  }

  // The one thing that goes wrong: the thread that passes has then completed a call that nobody outside has entered.
  lemma PassingIsTooEarly(s: State, e: Event)
    requires Inv(s) && Enabled(s, e) && PassesDrain(s, e)
    ensures !OnTime(Next(s, e))
  {
    CountEnds(s.pc, GatherWoken);
    var u :| 0 <= u < s.N() && s.pc[u] !in {DrainAsleep, DrainWoken};
    var s' := Next(s, e);
    assert s'.left[e.t] == s.round + 2 && s'.entered[u] == s.round + 1;
  }

  lemma {:induction false} OnTimeFrom(s: State, es: seq<Event>, s': State)
    requires Inv(s) && Run(s, es, s')
    ensures AlwaysOnTime(s, es) <==> NonePassesDrain(s, es)
    decreases |es|
  {
    hide Inv, Next, OnTime, PassesDrain;
    InvOnTime(s);
    if es != [] {
      if PassesDrain(s, es[0]) {
        PassingIsTooEarly(s, es[0]);
      } else {
        StepInv(s, es[0]);
        OnTimeFrom(Next(s, es[0]), es[1..], s');
      }
    }
  }

  // The barrier does what it is for in exactly the runs in which no thread gets past line 34 between two rounds,
  // whatever spurious wakeups there are.
  lemma OnTimeExactly(n: nat, es: seq<Event>, s: State)
    requires n > 0 && Run(Initial(n), es, s)
    ensures AlwaysOnTime(Initial(n), es) <==> NonePassesDrain(Initial(n), es)
  {
    InitialInv(n);
    OnTimeFrom(Initial(n), es, s);
  }

  lemma {:induction false} PromptFrom(s: State, es: seq<Event>, s': State)
    requires Inv(s) && Prompt(s) && Run(s, es, s') && DrainsByBroadcast(s, es)
    ensures NonePassesDrain(s, es)
    decreases |es|
  {
    if es != [] {
      assert !PassesDrain(s, es[0]);
      hide Inv, Next, PassesDrain, Prompt;
      StepInv(s, es[0]);
      PromptFrom(Next(s, es[0]), es[1..], s');
    }
  }

  // Only spurious returns at line 35 can do harm.
  lemma BroadcastsSuffice(n: nat, es: seq<Event>, s: State)
    requires n > 0 && Run(Initial(n), es, s) && DrainsByBroadcast(Initial(n), es)
    ensures AlwaysOnTime(Initial(n), es) && NonePassesDrain(Initial(n), es)
  {
    InitialInv(n);
    PromptFrom(Initial(n), es, s);
    OnTimeExactly(n, es, s);
  }

  lemma NobodyLeavesEarly(n: nat, es: seq<Event>, s: State, t: nat, u: nat)
    requires Run(Initial(n), es, s) && NonePassesDrain(Initial(n), es) && t < n && u < n
    ensures s.Is(t) && s.Is(u) && s.left[t] <= s.entered[u]
  {
    ReachableInv(n, es, s);
  }

  lemma RoundsStayClose(n: nat, es: seq<Event>, s: State, t: nat, u: nat)
    requires Run(Initial(n), es, s) && NonePassesDrain(Initial(n), es) && t < n && u < n
    ensures s.Is(t) && s.Is(u) && s.left[t] <= s.left[u] + 1
  {
    ReachableInv(n, es, s);
  }

  // The n threads are never all asleep: if all of them are inside, one has been woken and can run.
  lemma NeverAllAsleep(n: nat, es: seq<Event>, s: State)
    requires n > 0 && Run(Initial(n), es, s) && NonePassesDrain(Initial(n), es)
    ensures s.N() == n && exists t :: 0 <= t < n && s.pc[t] !in {DrainAsleep, GatherAsleep}
    ensures exists e :: Enabled(s, e) && !e.Spurious?
  {
    ReachableInv(n, es, s);
    if Gathering(s) {
      CountEnds(s.pc, GatherAsleep);
      CountEnds(s.pc, GatherWoken);
    }
    var t :| 0 <= t < n && s.pc[t] !in {DrainAsleep, GatherAsleep};
    assert Enabled(s, Enter(t)) || Enabled(s, WakeDrain(t)) || Enabled(s, WakeGather(t));
  }

  // ----- every call counts, and returns when it should -----

  // How often thread t calls barrier_wait in a run.
  function Calls(es: seq<Event>, t: nat): nat {
    if es == [] then 0 else (if es[0] == Enter(t) then 1 else 0) + Calls(es[1..], t)
  }

  lemma {:induction false} CallsFrom(s: State, es: seq<Event>, s': State, t: nat)
    requires s.Is(t) && Run(s, es, s')
    ensures s'.Is(t) && s'.entered[t] == s.entered[t] + Calls(es, t)
    decreases |es|
  {
    if es != [] {
      StepCalls(s, es[0], t);
      hide Next, Enabled;
      CallsFrom(Next(s, es[0]), es[1..], s', t);
    }
  }

  lemma StepCalls(s: State, e: Event, t: nat)
    requires s.Is(t) && Enabled(s, e)
    ensures Next(s, e).Is(t) && Next(s, e).entered[t] == s.entered[t] + if e == Enter(t) then 1 else 0
  {
  }

  // No call is lost: in every run, `entered` counts the calls, and a thread is inside exactly while it has returned from
  // one fewer than it has made.
  lemma EveryCallCounts(n: nat, es: seq<Event>, s: State, t: nat)
    requires Run(Initial(n), es, s) && t < n
    ensures s.Is(t) && s.entered[t] == Calls(es, t)
    ensures s.left[t] == Calls(es, t) - if s.pc[t] == Outside then 0 else 1
  {
    CallsFrom(Initial(n), es, s, t);
    InsideFrom(Initial(n), es, s, t);
  }

  predicate InsideOnce(s: State, t: nat) {
    s.Is(t) && s.entered[t] == s.left[t] + if s.pc[t] == Outside then 0 else 1
  }

  lemma {:induction false} InsideFrom(s: State, es: seq<Event>, s': State, t: nat)
    requires InsideOnce(s, t) && Run(s, es, s')
    ensures InsideOnce(s', t)
    decreases |es|
  {
    if es != [] {
      StepInside(s, es[0], t);
      hide Next, Enabled, InsideOnce;
      InsideFrom(Next(s, es[0]), es[1..], s', t);
    }
  }

  lemma StepInside(s: State, e: Event, t: nat)
    requires InsideOnce(s, t) && Enabled(s, e)
    ensures InsideOnce(Next(s, e), t)
  {
    if e.Enter? {
      EnterInside(s, e.t, t);
    } else if e.WakeDrain? {
      ArriveInside(s, e.t, t);
    }
    hide Arrive;
  }

  lemma EnterInside(s: State, u: nat, t: nat)
    requires InsideOnce(s, t) && Enabled(s, Enter(u))
    ensures InsideOnce(Next(s, Enter(u)), t)
  {
    var s0 := Entered(s, u);
    if s.count == s.N() && s.used < s.N() {
      assert Next(s, Enter(u)) == s0.(pc := s0.pc[u := DrainAsleep]);
    } else {
      var s1 := if s.count == s.N() && s.used == s.N() then Reset(s0) else s0;
      ArriveInside(s1, u, t);
      assert Next(s, Enter(u)) == Arrive(s1, u);
      hide Next, Arrive;
    }
  }

  lemma ArriveInside(s: State, u: nat, t: nat)
    requires s.Is(t) && s.Is(u)
    requires s.entered[t] == s.left[t] + if t != u && s.pc[t] == Outside then 0 else 1
    ensures InsideOnce(Arrive(s, u), t)
  {
  }

  // Thread u has got to line 38 in its k-th call.
  predicate Arrived(s: State, u: nat, k: nat)
    requires s.Is(u)
  {
    s.left[u] >= k || (s.left[u] == k - 1 && s.pc[u] in {GatherAsleep, GatherWoken})
  }

  ghost predicate AllArrived(s: State, k: nat) {
    forall u :: 0 <= u < s.N() ==> s.Is(u) && Arrived(s, u, k)
  }

  // A thread that runs comes out of its call if and only if all threads have arrived at that call.
  lemma ReturnsExactly(n: nat, es: seq<Event>, s: State, e: Event)
    requires n > 0 && Run(Initial(n), es, s) && NonePassesDrain(Initial(n), es)
    requires Enabled(s, e) && !e.Spurious? && !PassesDrain(s, e)
    ensures var s' := Next(s, e); s'.Is(e.t) && (s'.pc[e.t] == Outside <==> AllArrived(s', s'.entered[e.t]))
  {
    ReachableInv(n, es, s);
    match e
    case Enter(t) => EnterReturns(s, t);
    case WakeDrain(t) =>
      if s.count < s.N() {
        ArriveReturns(s, t);
      } else {
        assert !Arrived(Next(s, e), t, s.entered[t]);
      }
    case WakeGather(t) => GatherReturns(s, t);
  }

  lemma ArriveReturns(s: State, t: nat)
    requires Arriving(s, t)
    ensures var s' := Arrive(s, t); s'.Is(t) && (s'.pc[t] == Outside <==> AllArrived(s', s'.entered[t]))
  {
    if s.count + 1 == s.N() {
      OthersGathered(s, t);
    } else {
      var u := NotGathered(s, t);
      var s' := Arrive(s, t);
      assert !Arrived(s', u, s'.entered[t]);
    }
  }

  lemma NotGathered(s: State, t: nat) returns (u: nat)
    requires Arriving(s, t) && s.count + 1 < s.N()
    ensures u < s.N() && u != t && s.pc[u] !in {GatherAsleep, GatherWoken}
  {
    var all := s.pc[t := GatherAsleep];
    CountUpdate(s.pc, t, GatherAsleep, GatherAsleep);
    CountUpdate(s.pc, t, GatherAsleep, GatherWoken);
    CountTwo(all, GatherAsleep, GatherWoken);
    u :| u < s.N() && all[u] != GatherAsleep && all[u] != GatherWoken;
  }

  lemma EnterReturns(s: State, t: nat)
    requires Inv(s) && s.Is(t) && s.pc[t] == Outside
    ensures var s' := Next(s, Enter(t)); s'.Is(t) && (s'.pc[t] == Outside <==> AllArrived(s', s'.entered[t]))
  {
    hide AllArrived, Arrived, Count;
    if s.count < s.N() {
      assert Arriving(Entered(s, t), t);
      assert Next(s, Enter(t)) == Arrive(Entered(s, t), t);
      hide Arrive, Next, Inv, Gathering, Draining;
      ArriveReturns(Entered(s, t), t);
    } else if s.used == s.N() {
      ResetReturns(s, t);
    } else {
      SleepsEarly(s, t);
    }
  }

  lemma SleepsEarly(s: State, t: nat)
    requires Inv(s) && s.Is(t) && s.pc[t] == Outside && s.count == s.N() && s.used < s.N()
    ensures var s' := Next(s, Enter(t)); s'.Is(t) && s'.pc[t] != Outside && !AllArrived(s', s'.entered[t])
  {
    assert !Arrived(Next(s, Enter(t)), t, s.entered[t] + 1);
  }

  lemma ResetReturns(s: State, t: nat)
    requires Shape(s) && Draining(s) && s.Is(t) && s.pc[t] == Outside && s.used == s.N()
    ensures var s' := Next(s, Enter(t)); s'.Is(t) && (s'.pc[t] == Outside <==> AllArrived(s', s'.entered[t]))
  {
    hide AllArrived;
    ResetGathers(s);
    var s1 := Reset(Entered(s, t));
    assert Next(s, Enter(t)) == Arrive(s1, t);
    hide Count, Arrive, Next, Draining;
    assert s1.pc == Reset(s).pc && s1.left == s.left;
    assert Arriving(s1, t);
    ArriveReturns(s1, t);
  }

  lemma GatherReturns(s: State, t: nat)
    requires Inv(s) && s.Is(t) && s.pc[t] == GatherWoken
    ensures var s' := Next(s, WakeGather(t)); s'.Is(t) && (s'.pc[t] == Outside <==> AllArrived(s', s'.entered[t]))
  {
    if s.count < s.N() {
      CountTwo(s.pc, GatherAsleep, GatherWoken);
      var u :| 0 <= u < s.N() && s.pc[u] != GatherAsleep && s.pc[u] != GatherWoken;
      assert !Arrived(Next(s, WakeGather(t)), u, s.entered[t]);
    }
  }

  // No wakeup is lost: a thread asleep at line 44 waits for one that has not arrived at its call, and one asleep at line
  // 35 for one that has not even entered it.
  lemma SleepersWait(n: nat, es: seq<Event>, s: State, t: nat)
    requires Run(Initial(n), es, s) && NonePassesDrain(Initial(n), es) && t < n
    ensures s.Is(t) && (s.pc[t] == GatherAsleep ==> !AllArrived(s, s.entered[t]))
    ensures s.pc[t] == DrainAsleep ==> exists u :: 0 <= u < n && s.Is(u) && s.entered[u] < s.entered[t]
  {
    ReachableInv(n, es, s);
    SleeperWaits(s, t);
  }

  lemma SleeperWaits(s: State, t: nat)
    requires Inv(s) && s.Is(t)
    ensures s.pc[t] == GatherAsleep ==> !AllArrived(s, s.entered[t])
    ensures s.pc[t] == DrainAsleep ==> exists u :: 0 <= u < s.N() && s.Is(u) && s.entered[u] < s.entered[t]
  {
    if s.pc[t] == GatherAsleep {
      CountTwo(s.pc, GatherAsleep, GatherWoken);
      var u :| 0 <= u < s.N() && s.pc[u] != GatherAsleep && s.pc[u] != GatherWoken;
      assert !Arrived(s, u, s.entered[t]);
    } else if s.pc[t] == DrainAsleep {
      var u :| 0 <= u < s.N() && s.pc[u] !in {DrainAsleep, DrainWoken};
      assert s.entered[u] < s.entered[t];
    }
  }

  // Once all threads have made k calls and none is on its way, all have returned from k.
  lemma AllGetThrough(n: nat, es: seq<Event>, s: State, k: nat)
    requires Run(Initial(n), es, s) && NonePassesDrain(Initial(n), es)
    requires forall t :: 0 <= t < n ==> Calls(es, t) == k
    requires forall t :: 0 <= t < s.N() ==> s.pc[t] !in {DrainWoken, GatherWoken}
    ensures forall t :: 0 <= t < n ==> s.Is(t) && s.left[t] == k
  {
    if n > 0 {
      ReachableInv(n, es, s);
      hide Inv, Calls, Run, NonePassesDrain;
      forall t | 0 <= t < n ensures s.Is(t) && s.entered[t] == k && s.left[t] == k - if s.pc[t] == Outside then 0 else 1 {
        EveryCallCounts(n, es, s, t);
      }
      AllOut(s, k);
    }
  }

  lemma AllOut(s: State, k: nat)
    requires Inv(s) && forall t :: 0 <= t < s.N() ==> s.Is(t) && s.pc[t] !in {DrainWoken, GatherWoken}
    requires forall t :: 0 <= t < s.N() ==> s.entered[t] == k && s.left[t] == k - if s.pc[t] == Outside then 0 else 1
    ensures forall t :: 0 <= t < s.N() ==> s.pc[t] == Outside
  {
    hide Inv;
    forall t | 0 <= t < s.N() ensures s.pc[t] != DrainAsleep {
      SleeperWaits(s, t);
    }
    assert AllArrived(s, k);
    forall t | 0 <= t < s.N() ensures s.pc[t] == Outside {
      SleeperWaits(s, t);
    }
  }

  // Such runs exist: with two threads, one spurious wakeup at line 35 lets thread 1 complete its second call before
  // thread 0 has entered its second.
  lemma SpuriousWakeupBreaksTheBarrier()
    ensures exists es, s :: Run(Initial(2), es, s) && s.Is(0) && s.Is(1) && s.left[1] == 2 && s.entered[0] == 1
  {
    var s3 := State(2, 1, [GatherWoken, DrainAsleep], 0, [1, 2], [0, 1]);
    var s6 := State(3, 3, [Outside, Outside], 0, [1, 2], [1, 2]);
    ThirdEntry(s3);
    SpuriousEnd(s3, s6);
    RunConcat(Initial(2), [Enter(0), Enter(1), Enter(1)], s3, [WakeGather(0), Spurious(1), WakeDrain(1)], s6);
  }

  lemma ThirdEntry(s3: State)
    requires s3 == State(2, 1, [GatherWoken, DrainAsleep], 0, [1, 2], [0, 1])
    ensures Run(Initial(2), [Enter(0), Enter(1), Enter(1)], s3)
  {
    var s1 := State(1, 0, [GatherAsleep, Outside], 0, [1, 0], [0, 0]);
    var s2 := State(2, 1, [GatherWoken, Outside], 0, [1, 1], [0, 1]);
    assert Next(Initial(2), Enter(0)) == s1;
    assert Next(s1, Enter(1)) == s2;
    assert Next(s2, Enter(1)) == s3;
    Prepend(s2, Enter(1), [], s3);
    Prepend(s1, Enter(1), [Enter(1)], s3);
    Prepend(Initial(2), Enter(0), [Enter(1), Enter(1)], s3);
  }

  lemma SpuriousEnd(s3: State, s6: State)
    requires s3 == State(2, 1, [GatherWoken, DrainAsleep], 0, [1, 2], [0, 1])
    requires s6 == State(3, 3, [Outside, Outside], 0, [1, 2], [1, 2])
    ensures Run(s3, [WakeGather(0), Spurious(1), WakeDrain(1)], s6)
  {
    var s4 := State(2, 2, [Outside, DrainAsleep], 0, [1, 2], [1, 1]);
    var s5 := State(2, 2, [Outside, DrainWoken], 0, [1, 2], [1, 1]);
    assert Next(s3, WakeGather(0)) == s4;
    assert Next(s4, Spurious(1)) == s5;
    assert Next(s5, WakeDrain(1)) == s6;
    Prepend(s5, WakeDrain(1), [], s6);
    Prepend(s4, Spurious(1), [WakeDrain(1)], s6);
    Prepend(s3, WakeGather(0), [Spurious(1), WakeDrain(1)], s6);
  }

  lemma Prepend(s: State, e: Event, es: seq<Event>, s': State)
    requires Enabled(s, e) && Run(Next(s, e), es, s')
    ensures Run(s, [e] + es, s')
  {
    assert ([e] + es)[1..] == es;
  }

  lemma {:induction false} RunConcat(s: State, es: seq<Event>, s': State, fs: seq<Event>, s'': State)
    requires Run(s, es, s') && Run(s', fs, s'')
    ensures Run(s, es + fs, s'')
    decreases |es|
  {
    if es == [] {
      assert es + fs == fs;
    } else {
      RunConcat(Next(s, es[0]), es[1..], s', fs, s'');
      assert (es + fs)[1..] == es[1..] + fs;
    }
  }

  // ----- the code -----

  // barrier_t with its mutex and condition variable. The fields below the first two say which thread sleeps where and
  // record the history.
  class Monitor {
    const n: nat
    var count: nat
    var timesUsed: nat
    var pc: seq<Pc>
    ghost var round: nat
    ghost var entered: seq<nat>
    ghost var left: seq<nat>

    ghost function Abs(): State
      reads this
    {
      State(count, timesUsed, pc, round, entered, left)
    }

    constructor (n: nat)
      ensures this.n == n && Abs() == Initial(n)
    {
      this.n := n;
      count, timesUsed := 0, 0;
      pc, round, entered, left := seq(n, _ => Outside), 0, seq(n, _ => 0), seq(n, _ => 0);
    }

    // From line 28 to the unlock or to one of the two waits.
    method EnterSection(t: nat)
      requires n == |pc| && Enabled(Abs(), Enter(t))
      modifies this
      ensures Abs() == Next(old(Abs()), Enter(t))
    {
      entered := entered[t := entered[t] + 1];
      if count == n {
        if timesUsed == n {
          count := 0;
          round := round + 1;
          pc := Broadcast(pc);
        }
        if timesUsed < n {
          pc := pc[t := DrainAsleep];
          return;
        }
      }
      ArriveSection(t);
    }

    // After a return from the wait of line 35.
    method ResumeDrain(t: nat)
      requires n == |pc| && Enabled(Abs(), WakeDrain(t))
      modifies this
      ensures Abs() == Next(old(Abs()), WakeDrain(t))
    {
      if timesUsed < n {
        pc := pc[t := DrainAsleep];
        return;
      }
      ArriveSection(t);
    }

    method ArriveSection(t: nat)
      requires n == |pc| && Abs().Is(t)
      modifies this
      ensures Abs() == Arrive(old(Abs()), t)
    {
      count := count + 1;
      if count == n {
        pc := Broadcast(pc);
        timesUsed := 0;
      }
      if count < n {
        pc := pc[t := GatherAsleep];
        return;
      }
      LeaveSection(t);
    }

    // After a return from the wait of line 44.
    method ResumeGather(t: nat)
      requires n == |pc| && Enabled(Abs(), WakeGather(t))
      modifies this
      ensures Abs() == Next(old(Abs()), WakeGather(t))
    {
      if count < n {
        pc := pc[t := GatherAsleep];
        return;
      }
      LeaveSection(t);
    }

    method LeaveSection(t: nat)
      requires Abs().Is(t)
      modifies this
      ensures Abs() == Leave(old(Abs()), t)
    {
      timesUsed := timesUsed + 1;
      pc := pc[t := Outside];
      left := left[t := left[t] + 1];
    }
  }
}
