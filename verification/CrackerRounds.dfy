// password_cracker/cracker2.c: how the main thread hands one password at a time to all N workers and takes the
// result back, as a step system. A step is one section under the mutex, or the hashing between two of them.
module CrackerRounds {
  import opened Counting

  datatype Option<T> = None | Some(value: T)

  // quota[w] is the number of candidates getSubrange gives worker w.
  datatype Task = Task(id: int, quota: seq<nat>)

  datatype Pc =
    | AtTop       // before line 40
    | PushAsleep  // waiting at line 42
    | PushWoken
    | Working     // between lines 52 and 75, in the hashing loop
    | Hashing     // has counted a hash and is computing it
    | Finishing   // before line 97
    | FinAsleep   // waiting at line 104
    | FinWoken
    | Exited

  // taken and hashes count what a worker has done for the current password.
  datatype Worker = Worker(pc: Pc, taken: nat, hashes: nat)

  datatype Main = Reading | Waiting | Woken | Joining

  datatype State = State(
    ws: seq<Worker>, main: Main,
    push: nat, eof: bool, finish: nat, exits: nat, found: bool, total: nat,  // finishthread, threadexit, totalcount
    info: Option<Task>)
  {
    function N(): nat { |ws| }
    function Quota(w: nat): nat { if info.Some? && w < |info.value.quota| then info.value.quota[w] else 0 }
    function With(w: nat, x: Worker): State requires w < |ws| { this.(ws := ws[w := x]) }
  }

  datatype Event =
    | Take(w: nat)               // lines 40-50
    | Probe(w: nat)              // lines 75-83
    | Result(w: nat, hit: bool)  // lines 84-94
    | Finish(w: nat)             // lines 97-110
    | ResumeFinish(w: nat)       // lines 104-110
    | Start(task: Task)          // lines 148-162
    | ResumeMain                 // lines 162-172
    | Eof                        // lines 141-145
    | Spurious(w: nat)
    | SpuriousMain

  function Initial(n: nat): State {
    State(seq(n, _ => Worker(AtTop, 0, 0)), Reading, 0, false, 0, 0, false, 0, None)
  }

  function Wake(x: Worker): Worker {
    match x.pc
    case PushAsleep => x.(pc := PushWoken)
    case FinAsleep => x.(pc := FinWoken)
    case _ => x
  }

  // pthread_cond_broadcast(&cv)
  function Broadcast(ws: seq<Worker>): (r: seq<Worker>)
    ensures |r| == |ws| && forall w :: 0 <= w < |ws| ==> r[w] == Wake(ws[w])
  {
    seq(|ws|, w requires 0 <= w < |ws| => Wake(ws[w]))
  }

  function Fresh(ws: seq<Worker>): (r: seq<Worker>)
    ensures |r| == |ws| && forall w :: 0 <= w < |ws| ==> r[w] == Worker(Wake(ws[w]).pc, 0, 0)
  {
    seq(|ws|, w requires 0 <= w < |ws| => Worker(Wake(ws[w]).pc, 0, 0))
  }

  // Lines 103-110.
  function PassFinish(s: State, w: nat): State
    requires w < s.N()
  {
    if s.finish < s.N() then s.With(w, s.ws[w].(pc := FinAsleep))
    else
      var exits := s.exits + 1;
      s.With(w, s.ws[w].(pc := AtTop)).(exits := exits, main := if exits == s.N() && s.main == Waiting then Woken else s.main)
  }

  predicate Enabled(s: State, e: Event) {
    match e
    case Take(w) => w < s.N() && (s.ws[w].pc == AtTop || s.ws[w].pc == PushWoken)
    case Probe(w) => w < s.N() && s.ws[w].pc == Working
    case Result(w, _) => w < s.N() && s.ws[w].pc == Hashing
    case Finish(w) => w < s.N() && s.ws[w].pc == Finishing
    case ResumeFinish(w) => w < s.N() && s.ws[w].pc == FinWoken
    case Start(task) => s.main == Reading && |task.quota| == s.N()
    case ResumeMain => s.main == Woken
    case Eof => s.main == Reading
    case Spurious(w) => w < s.N() && (s.ws[w].pc == PushAsleep || s.ws[w].pc == FinAsleep)
    case SpuriousMain => s.main == Waiting
  }

  function Next(s: State, e: Event): State
    requires Enabled(s, e)
  {
    match e
    case Take(w) =>
      if s.push == 0 then s.With(w, s.ws[w].(pc := PushAsleep))
      else if s.eof then s.With(w, s.ws[w].(pc := Exited)).(push := s.push - 1)
      else s.With(w, Worker(Working, s.ws[w].taken + 1, 0)).(push := s.push - 1)
    case Probe(w) =>
      if s.ws[w].hashes == s.Quota(w) || s.found then s.With(w, s.ws[w].(pc := Finishing))
      else s.With(w, s.ws[w].(pc := Hashing, hashes := s.ws[w].hashes + 1))
    case Result(w, hit) =>
      if hit then s.With(w, s.ws[w].(pc := Finishing)).(found := true)
      else s.With(w, s.ws[w].(pc := Working))
    case Finish(w) =>
      var s1 := s.(total := s.total + s.ws[w].hashes, finish := s.finish + 1);
      PassFinish(if s1.finish == s1.N() then s1.(ws := Broadcast(s1.ws)) else s1, w)
    case ResumeFinish(w) => PassFinish(s, w)
    case Start(task) =>
      s.(info := if 0 < s.N() then Some(task) else None, finish := 0, push := s.N(), found := false, total := 0, exits := 0,
         ws := Fresh(s.ws), main := if 0 < s.N() then Waiting else Reading)
    case ResumeMain =>
      if s.exits < s.N() then s.(main := Waiting) else s.(main := Reading, info := None)
    case Eof => s.(push := s.N(), ws := Broadcast(s.ws), eof := true, main := Joining)
    case Spurious(w) => s.With(w, Wake(s.ws[w]))
    case SpuriousMain => s.(main := Woken)
  }

  ghost predicate Run(s: State, es: seq<Event>, s': State)
    decreases |es|
  {
    if es == [] then s == s' else Enabled(s, es[0]) && Run(Next(s, es[0]), es[1..], s')
  }

  // ----- the invariant -----

  // What a worker still owes to the current round.
  datatype Kind = Owing | Busy | Done | Out | Gone

  function KindOf(x: Worker): Kind {
    match x.pc
    case AtTop | PushAsleep | PushWoken => if x.taken == 0 then Owing else Out
    case Working | Hashing | Finishing => Busy
    case FinAsleep | FinWoken => Done
    case Exited => Gone
  }

  function Kinds(ws: seq<Worker>): (r: seq<Kind>)
    ensures |r| == |ws| && forall w :: 0 <= w < |ws| ==> r[w] == KindOf(ws[w])
  {
    seq(|ws|, w requires 0 <= w < |ws| => KindOf(ws[w]))
  }

  // The hashes already added to totalcount.
  function Reported(ws: seq<Worker>): (r: seq<nat>)
    ensures |r| == |ws| && forall w :: 0 <= w < |ws| ==> r[w] == if KindOf(ws[w]) in {Done, Out} then ws[w].hashes else 0
  {
    seq(|ws|, w requires 0 <= w < |ws| => if KindOf(ws[w]) in {Done, Out} then ws[w].hashes else 0)
  }

  function AllHashes(ws: seq<Worker>): (r: seq<nat>)
    ensures |r| == |ws| && forall w :: 0 <= w < |ws| ==> r[w] == ws[w].hashes
  {
    seq(|ws|, w requires 0 <= w < |ws| => ws[w].hashes)
  }

  ghost predicate Between(s: State) {
    && s.main == Reading && !s.eof && s.push == 0 && s.info.None?
    && forall w :: 0 <= w < s.N() ==> KindOf(s.ws[w]) in {Owing, Out} && s.ws[w].taken <= 1
  }

  ghost predicate WorkerOk(s: State, w: nat)
    requires w < s.N()
  {
    var x := s.ws[w];
    && x.pc != Exited
    && x.taken == (if KindOf(x) == Owing then 0 else 1)
    && (KindOf(x) == Owing ==> x.pc != PushAsleep && x.hashes == 0)
    && (KindOf(x) == Out ==> s.finish == s.N())
    && (x.pc == FinAsleep ==> s.finish < s.N())
    && x.hashes <= s.Quota(w)
    && (!s.found && x.pc == Finishing ==> x.hashes == s.Quota(w))
    && (!s.found && KindOf(x) in {Done, Out} ==> x.hashes == s.Quota(w))
  }

  ghost predicate Counted(s: State) {
    && s.push == Count(Kinds(s.ws), Owing)
    && s.finish == Count(Kinds(s.ws), Done) + Count(Kinds(s.ws), Out)
    && s.exits == Count(Kinds(s.ws), Out)
    && s.total == Sum(Reported(s.ws))
  }

  ghost predicate InRound(s: State) {
    && (s.main == Waiting || s.main == Woken) && !s.eof && 0 < s.N()
    && s.info.Some? && |s.info.value.quota| == s.N()
    && (s.main == Waiting ==> s.exits < s.N())
    && Counted(s)
    && forall w :: 0 <= w < s.N() ==> WorkerOk(s, w)
  }

  ghost predicate Ending(s: State) {
    && s.main == Joining && s.eof
    && s.push + Count(Kinds(s.ws), Gone) == s.N()
    && forall w :: 0 <= w < s.N() ==> s.ws[w].pc in {AtTop, PushWoken, Exited} && s.ws[w].taken <= 1
  }

  ghost predicate Inv(s: State) {
    Between(s) || InRound(s) || Ending(s)
  }

  function One(b: bool): int { if b then 1 else 0 }

  // How the counts move when worker w becomes x.
  lemma Moves(ws: seq<Worker>, w: nat, x: Worker)
    requires w < |ws|
    ensures forall k :: Count(Kinds(ws[w := x]), k) == Count(Kinds(ws), k) - One(KindOf(ws[w]) == k) + One(KindOf(x) == k)
    ensures Sum(Reported(ws[w := x])) == Sum(Reported(ws)) - Reported(ws)[w] + Reported(ws[w := x])[w]
  {
    assert Kinds(ws[w := x]) == Kinds(ws)[w := KindOf(x)];
    forall k ensures Count(Kinds(ws[w := x]), k) == Count(Kinds(ws), k) - One(KindOf(ws[w]) == k) + One(KindOf(x) == k) {
      CountUpdate(Kinds(ws), w, KindOf(x), k);
    }
    assert Reported(ws[w := x]) == Reported(ws)[w := Reported(ws[w := x])[w]];
    SumUpdate(Reported(ws), w, Reported(ws[w := x])[w]);
  }

  // A broadcast changes nobody's kind.
  lemma BroadcastKinds(ws: seq<Worker>)
    ensures Kinds(Broadcast(ws)) == Kinds(ws) && Reported(Broadcast(ws)) == Reported(ws)
  {
  }

  lemma CountSome<K>(ks: seq<K>, i: nat, k: K)
    requires i < |ks| && ks[i] == k
    ensures Count(ks, k) > 0
  {
    CountEnds(ks, k);
  }

  // A worker step keeps the round if the counts, worker w and what the others rely on are right.
  lemma Keep(s: State, s': State, w: nat)
    requires InRound(s) && w < s.N() == s'.N() && s'.ws == s.ws[w := s'.ws[w]]
    requires s'.info == s.info && s'.eof == s.eof && s'.main in {Waiting, Woken} && s'.finish == s.finish && (s.found ==> s'.found)
    requires s'.main == Waiting ==> s'.exits < s'.N()
    requires Counted(s') && WorkerOk(s', w)
    ensures InRound(s')
  {
    forall v | 0 <= v < s.N() ensures WorkerOk(s', v) {
      assert WorkerOk(s, v);
    }
  }

  // finishthread == threadcount: nobody owes anything and nobody is at work.
  lemma AllFinished(s: State)
    requires InRound(s) && s.finish == s.N()
    ensures forall w :: 0 <= w < s.N() ==> KindOf(s.ws[w]) in {Done, Out}
    ensures s.push == 0
  {
    var ks := Kinds(s.ws);
    CountTwo(ks, Done, Out);
    assert forall w :: 0 <= w < s.N() ==> KindOf(s.ws[w]) == ks[w];
    CountEnds(ks, Owing);
  }

  // Whoever gets a unit has had none in this round; whoever finds none left has had one.
  lemma TakeInv(s: State, w: nat)
    requires InRound(s) && Enabled(s, Take(w))
    ensures InRound(Next(s, Take(w)))
    ensures s.push > 0 <==> s.ws[w].taken == 0
  {
    assert WorkerOk(s, w);
    if KindOf(s.ws[w]) == Owing {
      CountSome(Kinds(s.ws), w, Owing);
    } else {
      AllFinished(s);
    }
    var s' := Next(s, Take(w));
    Moves(s.ws, w, s'.ws[w]);
    Keep(s, s', w);
  }

  lemma ProbeInv(s: State, w: nat)
    requires InRound(s) && Enabled(s, Probe(w))
    ensures InRound(Next(s, Probe(w)))
  {
    assert WorkerOk(s, w);
    var s' := Next(s, Probe(w));
    Moves(s.ws, w, s'.ws[w]);
    Keep(s, s', w);
  }

  lemma ResultInv(s: State, w: nat, hit: bool)
    requires InRound(s) && Enabled(s, Result(w, hit))
    ensures InRound(Next(s, Result(w, hit)))
  {
    assert WorkerOk(s, w);
    var s' := Next(s, Result(w, hit));
    Moves(s.ws, w, s'.ws[w]);
    Keep(s, s', w);
  }

  // A finished worker at lines 103-110.
  lemma PassInv(s: State, w: nat)
    requires InRound(s) && w < s.N() && s.ws[w].pc == FinWoken
    ensures InRound(PassFinish(s, w))
  {
    assert WorkerOk(s, w);
    var s' := PassFinish(s, w);
    Moves(s.ws, w, s'.ws[w]);
    CountTwo(Kinds(s.ws), Done, Out);
    Keep(s, s', w);
  }

  // Lines 98-102: worker w reports; the last one to do so wakes the others.
  function Report(s: State, w: nat): State
    requires w < s.N()
  {
    var s1 := s.With(w, s.ws[w].(pc := FinWoken)).(total := s.total + s.ws[w].hashes, finish := s.finish + 1);
    if s1.finish == s1.N() then s1.(ws := Broadcast(s1.ws)) else s1
  }

  lemma ReportInv(s: State, w: nat)
    requires InRound(s) && Enabled(s, Finish(w))
    ensures InRound(Report(s, w)) && Report(s, w).ws[w].pc == FinWoken
  {
    ReportCounts(s, w);
    hide Counted;
    forall v | 0 <= v < s.N() ensures WorkerOk(Report(s, w), v) {
      assert WorkerOk(s, v);
    }
    hide WorkerOk;
  }

  lemma ReportCounts(s: State, w: nat)
    requires InRound(s) && w < s.N() && KindOf(s.ws[w]) == Busy
    ensures Counted(Report(s, w)) && Report(s, w).finish <= s.N()
  {
    var x := s.ws[w].(pc := FinWoken);
    Moves(s.ws, w, x);
    BroadcastKinds(s.ws[w := x]);
    CountTwo(Kinds(s.ws[w := x]), Done, Out);
  }

  lemma FinishInv(s: State, w: nat)
    requires InRound(s) && Enabled(s, Finish(w))
    ensures InRound(Next(s, Finish(w)))
  {
    ReportInv(s, w);
    assert Next(s, Finish(w)) == PassFinish(Report(s, w), w) by {
      assert Next(s, Finish(w)).ws == PassFinish(Report(s, w), w).ws;
    }
    hide InRound, PassFinish, Report, Next;
    PassInv(Report(s, w), w);
  }

  lemma StartInv(s: State, task: Task)
    requires Between(s) && Enabled(s, Start(task))
    ensures Inv(Next(s, Start(task)))
  {
    if 0 < s.N() {
      StartCounts(s, task);
      hide Counted;
      forall v | 0 <= v < s.N() ensures WorkerOk(Next(s, Start(task)), v) {
      }
      hide WorkerOk;
    }
  }

  lemma StartCounts(s: State, task: Task)
    requires Between(s) && Enabled(s, Start(task)) && 0 < s.N()
    ensures Counted(Next(s, Start(task)))
  {
    hide Count, Sum;
    var ws := Next(s, Start(task)).ws;
    CountEnds(Kinds(ws), Owing);
    CountEnds(Kinds(ws), Done);
    CountEnds(Kinds(ws), Out);
    SumZero(Reported(ws));
  }

  // threadexit == thread_count: every worker has taken its unit and is back at the top.
  lemma AllOut(s: State)
    requires InRound(s) && s.exits == s.N()
    ensures forall w :: 0 <= w < s.N() ==> KindOf(s.ws[w]) == Out && s.ws[w].taken == 1 && s.ws[w].hashes <= s.Quota(w)
    ensures forall w :: 0 <= w < s.N() && !s.found ==> s.ws[w].hashes == s.Quota(w)
    ensures s.push == 0 && s.total == Sum(AllHashes(s.ws))
  {
    var ks := Kinds(s.ws);
    CountEnds(ks, Out);
    CountEnds(ks, Owing);
    forall w | 0 <= w < s.N()
      ensures KindOf(s.ws[w]) == Out && s.ws[w].taken == 1 && s.ws[w].hashes <= s.Quota(w) && (s.found || s.ws[w].hashes == s.Quota(w))
    {
      assert WorkerOk(s, w) && ks[w] == Out;
    }
    assert Reported(s.ws) == AllHashes(s.ws);
  }

  lemma BetweenInv(s: State, e: Event)
    requires Between(s) && Enabled(s, e)
    ensures Inv(Next(s, e))
  {
    if e.Start? {
      StartInv(s, e.task);
    } else if e.Eof? {
      CountEnds(Kinds(Next(s, e).ws), Gone);
    }
  }

  // Every worker finds one of the N units of the shutdown.
  lemma EndingInv(s: State, e: Event)
    requires Ending(s) && Enabled(s, e)
    ensures Ending(Next(s, e))
  {
    hide Count;
    assert e.Take? && s.ws[e.w].pc in {AtTop, PushWoken};
    CountEnds(Kinds(s.ws), Gone);
    assert Kinds(s.ws)[e.w] != Gone;
    var x := s.ws[e.w].(pc := Exited);
    assert Next(s, e) == s.With(e.w, x).(push := s.push - 1);
    hide Next;
    Moves(s.ws, e.w, x);
  }

  lemma RoundInv(s: State, e: Event)
    requires InRound(s) && Enabled(s, e)
    ensures Inv(Next(s, e))
  {
    match e
    case Take(w) => TakeInv(s, w);
    case Probe(w) => ProbeInv(s, w);
    case Result(w, hit) => ResultInv(s, w, hit);
    case Finish(w) => FinishInv(s, w);
    case ResumeFinish(w) => PassInv(s, w);
    case Spurious(w) => SpuriousInv(s, w);
    case SpuriousMain => MainInv(s, e);
    case ResumeMain => MainInv(s, e);
  }

  lemma SpuriousInv(s: State, w: nat)
    requires InRound(s) && Enabled(s, Spurious(w))
    ensures InRound(Next(s, Spurious(w)))
  {
    assert WorkerOk(s, w);
    Moves(s.ws, w, Next(s, Spurious(w)).ws[w]);
    Keep(s, Next(s, Spurious(w)), w);
  }

  lemma MainInv(s: State, e: Event)
    requires InRound(s) && Enabled(s, e) && (e.SpuriousMain? || e.ResumeMain?)
    ensures Inv(Next(s, e))
  {
    CountEnds(Kinds(s.ws), Out);
    if s.exits == s.N() {
      AllOut(s);
    }
    forall v | 0 <= v < s.N() ensures WorkerOk(s.(main := Next(s, e).main), v) {
      assert WorkerOk(s, v);
    }
  }

  lemma StepInv(s: State, e: Event)
    requires Inv(s) && Enabled(s, e)
    ensures Inv(Next(s, e)) && Next(s, e).N() == s.N()
  {
    hide Between, InRound, Ending;
    if Between(s) {
      BetweenInv(s, e);
    } else if InRound(s) {
      RoundInv(s, e);
    } else {
      EndingInv(s, e);
    }
  }

  lemma {:induction false} RunInv(s: State, es: seq<Event>, s': State)
    requires Inv(s) && Run(s, es, s')
    ensures Inv(s') && s'.N() == s.N()
    decreases |es|
  {
    if es != [] {
      StepInv(s, es[0]);
      hide Inv, Next;
      RunInv(Next(s, es[0]), es[1..], s');
    }
  }

  lemma ReachableInv(n: nat, es: seq<Event>, s: State)
    requires Run(Initial(n), es, s)
    ensures Inv(s) && s.N() == n
  {
    RunInv(Initial(n), es, s);
  }

  // ----- what the protocol is for -----

  // No worker ever takes a second unit of `push` in one round: one that finds a unit there has had none.
  lemma NobodyTakesTwo(n: nat, es: seq<Event>, s: State, w: nat)
    requires Run(Initial(n), es, s) && w < n
    ensures w < s.N() && s.ws[w].taken <= 1
    ensures !s.eof && Enabled(s, Take(w)) && s.push > 0 ==> s.ws[w].taken == 0
  {
    ReachableInv(n, es, s);
    if InRound(s) {
      assert WorkerOk(s, w);
      if Enabled(s, Take(w)) {
        TakeInv(s, w);
      }
    }
  }

  // ----- what has happened since the password was handed out -----

  predicate NoStart(es: seq<Event>) { forall e :: e in es ==> !e.Start? }

  // The hashes worker w has computed since the last password was handed out, and whether any worker's hash hit.
  function Results(es: seq<Event>, w: nat): nat {
    if es == [] then 0
    else (if es[0].Result? && es[0].w == w && NoStart(es[1..]) then 1 else 0) + Results(es[1..], w)
  }

  predicate AnyHit(es: seq<Event>) {
    es != [] && ((es[0].Result? && es[0].hit && NoStart(es[1..])) || AnyHit(es[1..]))
  }

  // The last password handed out.
  predicate Latest(es: seq<Event>, task: Task) {
    es != [] && ((es[0] == Start(task) && NoStart(es[1..])) || Latest(es[1..], task))
  }

  function ResultsOf(es: seq<Event>, n: nat): (r: seq<nat>)
    ensures |r| == n && forall w :: 0 <= w < n ==> r[w] == Results(es, w)
  {
    seq(n, w requires 0 <= w < n => Results(es, w))
  }

  // Hashes that are finished; one that is being computed has been counted already.
  function Computed(s: State, w: nat): int
    requires w < s.N()
  {
    s.ws[w].hashes - if s.ws[w].pc == Hashing then 1 else 0
  }

  lemma StepHistory(s: State, e: Event, w: nat)
    requires Inv(s) && Enabled(s, e) && w < s.N() == Next(s, e).N()
    ensures Next(s, e).found <==> (e.Result? && e.hit) || (!e.Start? && s.found)
    ensures Computed(Next(s, e), w) ==
      (if e.Start? then 0 else Computed(s, w)) + if e.Result? && e.w == w then 1 else 0
    ensures Next(s, e).info.Some? ==> if e.Start? then Next(s, e).info == Some(e.task) else Next(s, e).info == s.info
  {
    FreshStart(s, w);
    hide Inv, Next;
    StepFlags(s, e);
    StepComputed(s, e, w);
  }

  lemma StepFlags(s: State, e: Event)
    requires Enabled(s, e)
    ensures Next(s, e).found <==> (e.Result? && e.hit) || (!e.Start? && s.found)
    ensures Next(s, e).info.Some? ==> if e.Start? then Next(s, e).info == Some(e.task) else Next(s, e).info == s.info
  {
  }

  lemma StepComputed(s: State, e: Event, w: nat)
    requires Enabled(s, e) && w < s.N() == Next(s, e).N()
    requires Enabled(s, Take(w)) && s.push > 0 && !s.eof ==> s.ws[w].hashes == 0
    requires s.main == Reading ==> s.ws[w].pc != Hashing
    ensures Computed(Next(s, e), w) ==
      (if e.Start? then 0 else Computed(s, w)) + if e.Result? && e.w == w then 1 else 0
  {
  }

  // A worker that can take a unit has computed nothing for it, and none is at work when a password is handed out.
  lemma FreshStart(s: State, w: nat)
    requires Inv(s) && w < s.N()
    ensures Enabled(s, Take(w)) && s.push > 0 && !s.eof ==> s.ws[w].hashes == 0
    ensures s.main == Reading ==> s.ws[w].pc != Hashing
  {
    if InRound(s) {
      assert WorkerOk(s, w);
      if Enabled(s, Take(w)) {
        TakeInv(s, w);
      }
    }
  }

  lemma {:induction false} HistoryFrom(s: State, es: seq<Event>, s': State, w: nat)
    requires Inv(s) && Run(s, es, s') && w < s.N()
    ensures w < s'.N() && (s'.found <==> AnyHit(es) || (NoStart(es) && s.found))
    ensures Computed(s', w) == Results(es, w) + if NoStart(es) then Computed(s, w) else 0
    ensures s'.info.Some? ==> Latest(es, s'.info.value) || (NoStart(es) && s'.info == s.info)
    decreases |es|
  {
    if es != [] {
      StepInv(s, es[0]);
      StepHistory(s, es[0], w);
      assert NoStart(es) <==> !es[0].Start? && NoStart(es[1..]) by {
        assert es == [es[0]] + es[1..];
      }
      hide Inv, Next, Enabled, Computed;
      HistoryFrom(Next(s, es[0]), es[1..], s', w);
    }
  }

  // When start goes on, every worker has had its unit of the last password, totalcount is the number of hashes really
  // computed for it, `found` says whether one of them hit, and unless it did every candidate has been tried.
  lemma RoundIsComplete(n: nat, es: seq<Event>, s: State)
    requires Run(Initial(n), es, s) && s.main == Woken && s.exits == n
    ensures s.info.Some? && |s.info.value.quota| == s.N() == n && Latest(es, s.info.value)
    ensures forall w :: 0 <= w < n ==> s.ws[w].taken == 1 && Results(es, w) <= s.info.value.quota[w]
    ensures s.total == Sum(ResultsOf(es, n))
    ensures s.found <==> AnyHit(es)
    ensures !s.found ==> ResultsOf(es, n) == s.info.value.quota && s.total == Sum(s.info.value.quota)
  {
    ReachableInv(n, es, s);
    AllOut(s);
    forall w | 0 <= w < n ensures s.ws[w].hashes == Results(es, w) && (s.found <==> AnyHit(es)) {
      HistoryFrom(Initial(n), es, s, w);
    }
    HistoryFrom(Initial(n), es, s, 0);
    assert AllHashes(s.ws) == ResultsOf(es, n);
    if !s.found {
      assert AllHashes(s.ws) == s.info.value.quota;
    }
  }

  // A worker goes on to its next hash exactly if none has hit and it has candidates left.
  lemma HashesExactly(n: nat, es: seq<Event>, s: State, w: nat)
    requires Run(Initial(n), es, s) && Enabled(s, Probe(w))
    ensures s.info.Some? && w < |s.info.value.quota|
    ensures Next(s, Probe(w)).ws[w].pc == Hashing <==> !AnyHit(es) && Results(es, w) < s.info.value.quota[w]
  {
    ReachableInv(n, es, s);
    HistoryFrom(Initial(n), es, s, w);
    assert InRound(s) && WorkerOk(s, w);
  }

  // ----- every round ends -----

  // An upper bound on the steps a worker still takes in the round.
  function Rank(s: State, w: nat): nat
    requires w < s.N()
  {
    var x := s.ws[w];
    var left := if x.hashes <= s.Quota(w) then s.Quota(w) - x.hashes else 0;
    match x.pc
    case AtTop => if x.taken == 0 then 2 * s.Quota(w) + 8 else 1
    case PushWoken => if x.taken == 0 then 2 * s.Quota(w) + 8 else 1
    case PushAsleep => 0
    case Working => 2 * left + 7
    case Hashing => 2 * left + 8
    case Finishing => 6
    case FinAsleep => 4
    case FinWoken => if s.finish < s.N() then 5 else 3
    case Exited => 0
  }

  function Ranks(s: State): (r: seq<nat>)
    ensures |r| == s.N() && forall w :: 0 <= w < s.N() ==> r[w] == Rank(s, w)
  {
    seq(s.N(), w requires 0 <= w < s.N() => Rank(s, w))
  }

  function StepsLeft(s: State): nat { 2 * Sum(Ranks(s)) + if s.main == Woken then 1 else 0 }

  // Each step but a spurious wakeup brings the round closer to its end, or ends it.
  lemma RoundsEnd(n: nat, es: seq<Event>, s: State, e: Event)
    requires Run(Initial(n), es, s) && s.main in {Waiting, Woken} && Enabled(s, e) && !e.Spurious? && !e.SpuriousMain?
    ensures Next(s, e).main == Reading || StepsLeft(Next(s, e)) < StepsLeft(s)
  {
    ReachableInv(n, es, s);
    if e.ResumeMain? {
      assert s.exits < s.N() ==> Ranks(Next(s, e)) == Ranks(s);
    } else {
      WorkerSteps(s, e);
    }
  }

  lemma WorkerSteps(s: State, e: Event)
    requires InRound(s) && Enabled(s, e)
    requires e.Take? || e.Probe? || e.Result? || e.Finish? || e.ResumeFinish?
    ensures StepsLeft(Next(s, e)) < StepsLeft(s)
  {
    if e.Finish? || e.ResumeFinish? {
      FinishRanks(s, e);
    } else {
      HashingRanks(s, e);
    }
    hide Sum, Rank, Next, InRound;
    SumLess(Ranks(Next(s, e)), Ranks(s), e.w);
  }

  lemma HashingRanks(s: State, e: Event)
    requires InRound(s) && Enabled(s, e) && (e.Take? || e.Probe? || e.Result?)
    ensures e.w < s.N() == Next(s, e).N() && Rank(Next(s, e), e.w) < Rank(s, e.w)
    ensures forall w :: 0 <= w < s.N() ==> Rank(Next(s, e), w) <= Rank(s, w)
  {
    assert WorkerOk(s, e.w);
    if e.Take? {
      TakeInv(s, e.w);
    }
    var s' := Next(s, e);
    assert s'.info == s.info && s'.finish == s.finish && s'.ws == s.ws[e.w := s'.ws[e.w]];
    hide InRound, WorkerOk;
    assert Rank(s', e.w) < Rank(s, e.w);
    hide Next;
  }

  lemma FinishRanks(s: State, e: Event)
    requires InRound(s) && Enabled(s, e) && (e.Finish? || e.ResumeFinish?)
    ensures e.w < s.N() == Next(s, e).N() && Rank(Next(s, e), e.w) < Rank(s, e.w)
    ensures forall w :: 0 <= w < s.N() ==> Rank(Next(s, e), w) <= Rank(s, w)
  {
    FinishAtMost(s);
    assert WorkerOk(s, e.w);
    if e.Finish? && s.finish + 1 == s.N() {
      LastFinish(s, e.w);
    }
    hide InRound, WorkerOk;
  }

  lemma FinishAtMost(s: State)
    requires InRound(s)
    ensures s.finish <= s.N()
    ensures forall w :: 0 <= w < s.N() && KindOf(s.ws[w]) == Busy ==> s.finish < s.N()
  {
    CountTwo(Kinds(s.ws), Done, Out);
    assert forall w :: 0 <= w < s.N() ==> Kinds(s.ws)[w] == KindOf(s.ws[w]);
  }

  // The last to finish finds all others waiting at line 104.
  lemma LastFinish(s: State, w: nat)
    requires InRound(s) && Enabled(s, Finish(w)) && s.finish + 1 == s.N()
    ensures forall v :: 0 <= v < s.N() && v != w ==> s.ws[v].pc in {FinAsleep, FinWoken}
  {
    var x := s.ws[w].(pc := FinWoken);
    var ws := s.ws[w := x];
    Moves(s.ws, w, x);
    CountTwo(Kinds(ws), Done, Out);
    forall v | 0 <= v < s.N() && v != w ensures s.ws[v].pc in {FinAsleep, FinWoken} {
      assert WorkerOk(s, v) && Kinds(ws)[v] == KindOf(s.ws[v]);
    }
  }

  // After end of file every worker that runs leaves.
  lemma EveryoneLeaves(n: nat, es: seq<Event>, s: State, e: Event)
    requires Run(Initial(n), es, s) && s.main == Joining && Enabled(s, e)
    ensures e.Take? && Next(s, e).ws[e.w].pc == Exited
  {
    ReachableInv(n, es, s);
    CountEnds(Kinds(s.ws), Gone);
    assert e.Take? ==> Kinds(s.ws)[e.w] != Gone;
  }

  // Only start changes info.
  lemma WhoChangesInfo(s: State, e: Event)
    requires Enabled(s, e) && Next(s, e).info != s.info
    ensures s.main == Reading || (s.main == Woken && s.exits >= s.N())
  {
  }

  // A worker that has taken its unit and not yet done threadexit++ keeps start waiting.
  lemma RoundGoesOn(s: State, w: nat)
    requires Inv(s) && w < s.N() && KindOf(s.ws[w]) in {Busy, Done}
    ensures InRound(s) && s.exits < s.N()
  {
    hide WorkerOk, Count;
    assert Kinds(s.ws)[w] == KindOf(s.ws[w]);
    CountEnds(Kinds(s.ws), Out);
  }

  // info stays what it is while any worker is between taking its unit and threadexit++.
  lemma InfoIsStable(n: nat, es: seq<Event>, s: State, e: Event, w: nat)
    requires Run(Initial(n), es, s) && Enabled(s, e) && w < s.N() && KindOf(s.ws[w]) in {Busy, Done}
    ensures s.info.Some? && Next(s, e).info == s.info
  {
    hide Next, Inv, Counted, WorkerOk;
    ReachableInv(n, es, s);
    RoundGoesOn(s, w);
    if Next(s, e).info != s.info {
      WhoChangesInfo(s, e);
    }
  }

  // The worker has something to do before it sleeps again: it finds a unit, or it is at work, or it finds that all have
  // finished.
  predicate CanProceed(s: State, w: nat)
    requires w < s.N()
  {
    || (Enabled(s, Take(w)) && s.push > 0)
    || KindOf(s.ws[w]) == Busy
    || (s.ws[w].pc == FinWoken && s.finish == s.N())
  }

  // No wakeup is lost, up to and including the shutdown: while start sleeps some worker can proceed, and after end of
  // file every worker has either gone or can run and will find a unit.
  lemma NobodyIsStuck(n: nat, es: seq<Event>, s: State)
    requires Run(Initial(n), es, s)
    ensures s.main == Waiting ==> exists w :: 0 <= w < s.N() && CanProceed(s, w)
    ensures s.main == Joining ==> forall w :: 0 <= w < s.N() ==> s.ws[w].pc == Exited || (Enabled(s, Take(w)) && s.push > 0)
  {
    ReachableInv(n, es, s);
    if s.main == Waiting {
      SomebodyProceeds(s);
    } else if s.main == Joining {
      forall w | 0 <= w < s.N() ensures s.ws[w].pc == Exited || (Enabled(s, Take(w)) && s.push > 0) {
        CountEnds(Kinds(s.ws), Gone);
        assert Kinds(s.ws)[w] == KindOf(s.ws[w]);
      }
    }
  }

  lemma SomebodyProceeds(s: State)
    requires InRound(s) && s.exits < s.N()
    ensures exists w :: 0 <= w < s.N() && CanProceed(s, w)
  {
    var ks := Kinds(s.ws);
    CountEnds(ks, Out);
    var w :| 0 <= w < s.N() && ks[w] != Out;
    CountTwo(ks, Done, Out);
    if ks[w] == Done && s.finish < s.N() {
      w :| 0 <= w < s.N() && ks[w] != Done && ks[w] != Out;
    }
    assert WorkerOk(s, w);
    CountEnds(ks, Owing);
    assert CanProceed(s, w);
  }

  // Nobody sleeps without cause: a worker at line 42 because there is no unit left, one at line 104 because not all
  // have finished, and start because not all have left.
  lemma SleepHasCause(n: nat, es: seq<Event>, s: State, w: nat)
    requires Run(Initial(n), es, s) && w < n
    ensures w < s.N() && (s.ws[w].pc == PushAsleep ==> s.push == 0)
    ensures s.ws[w].pc == FinAsleep ==> s.finish < s.N()
    ensures s.main == Waiting ==> s.exits < s.N()
  {
    ReachableInv(n, es, s);
    if InRound(s) {
      assert WorkerOk(s, w);
      if s.ws[w].pc == PushAsleep {
        AllFinished(s);
      }
    }
  }

  // ----- the code -----

  // The shared variables of cracker2.c, and where its threads are.
  class Cracker {
    var ws: seq<Worker>
    var main: Main
    var push: nat
    var eof: bool
    var finish: nat
    var exits: nat
    var found: bool
    var total: nat
    var info: Option<Task>

    ghost function Abs(): State
      reads this
    {
      State(ws, main, push, eof, finish, exits, found, total, info)
    }

    constructor (threadCount: nat)
      ensures Abs() == Initial(threadCount)
    {
      ws := seq(threadCount, _ => Worker(AtTop, 0, 0));
      main, push, eof, finish, exits, found, total, info := Reading, 0, false, 0, 0, false, 0, None;
    }

    method TakeSection(w: nat)
      requires Enabled(Abs(), Take(w))
      modifies this
      ensures Abs() == Next(old(Abs()), Take(w))
    {
      if push == 0 {
        ws := ws[w := ws[w].(pc := PushAsleep)];
        return;
      }
      push := push - 1;
      if eof {
        ws := ws[w := ws[w].(pc := Exited)];
        return;
      }
      ws := ws[w := Worker(Working, ws[w].taken + 1, 0)];
    }

    // The hashing loop over the `count` candidates of worker w, up to the point where a hash has been counted.
    method ProbeSection(w: nat, count: nat)
      requires Enabled(Abs(), Probe(w)) && count == Abs().Quota(w)
      modifies this
      ensures Abs() == Next(old(Abs()), Probe(w))
    {
      if ws[w].hashes == count {
        ws := ws[w := ws[w].(pc := Finishing)];
        return;
      }
      if found {
        ws := ws[w := ws[w].(pc := Finishing)];
        return;
      }
      ws := ws[w := ws[w].(pc := Hashing, hashes := ws[w].hashes + 1)];
    }

    method ResultSection(w: nat, hit: bool)
      requires Enabled(Abs(), Result(w, hit))
      modifies this
      ensures Abs() == Next(old(Abs()), Result(w, hit))
    {
      if hit {
        found := true;
        ws := ws[w := ws[w].(pc := Finishing)];
      } else {
        ws := ws[w := ws[w].(pc := Working)];
      }
    }

    method FinishSection(w: nat)
      requires Enabled(Abs(), Finish(w))
      modifies this
      ensures Abs() == Next(old(Abs()), Finish(w))
    {
      total := total + ws[w].hashes;
      finish := finish + 1;
      if finish == |ws| {
        ws := Broadcast(ws);
      }
      PassSection(w);
    }

    method PassSection(w: nat)
      requires w < |ws|
      modifies this
      ensures Abs() == PassFinish(old(Abs()), w)
    {
      if finish < |ws| {
        ws := ws[w := ws[w].(pc := FinAsleep)];
        return;
      }
      exits := exits + 1;
      if exits == |ws| && main == Waiting {
        main := Woken;
      }
      ws := ws[w := ws[w].(pc := AtTop)];
    }

    method StartSection(task: Task)
      requires Enabled(Abs(), Start(task))
      modifies this
      ensures Abs() == Next(old(Abs()), Start(task))
    {
      info := Some(task);
      finish := 0;
      push := |ws|;
      found := false;
      total := 0;
      exits := 0;
      ws := Fresh(ws);
      if exits < |ws| {
        main := Waiting;
        return;
      }
      info := None;
    }

    method ResumeSection()
      requires Enabled(Abs(), ResumeMain)
      modifies this
      ensures Abs() == Next(old(Abs()), ResumeMain)
    {
      if exits < |ws| {
        main := Waiting;
        return;
      }
      info := None;
      main := Reading;
    }

    method EofSection()
      requires Enabled(Abs(), Eof)
      modifies this
      ensures Abs() == Next(old(Abs()), Eof)
    {
      push := |ws|;
      ws := Broadcast(ws);
      eof := true;
      main := Joining;
    }
  }
}
