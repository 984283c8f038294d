// savvy_scheduler/libscheduler.c: scheduling policies over a priority queue.
module Scheduler {

  datatype Scheme = FCFS | PRI | PPRI | PSRTF | RR | SJF

  // A job with its job_info.
  datatype Job = Job(id: int, running: real, priority: real, arrive: real, remaining: real, start: real, sequence: int)

  // ----- The comparers -----

  function Compare(x: real, y: real, tie: int): int {
    if x < y then -1 else if x > y then 1 else tie
  }

  function ComparerFcfs(a: Job, b: Job): int { Compare(a.arrive, b.arrive, 0) }

  function ComparerPri(a: Job, b: Job): int { Compare(a.priority, b.priority, ComparerFcfs(a, b)) }

  function ComparerPsrtf(a: Job, b: Job): int { Compare(a.remaining, b.remaining, ComparerFcfs(a, b)) }

  function ComparerRr(a: Job, b: Job): int {
    Compare(a.sequence as real, b.sequence as real, ComparerFcfs(a, b))
  }

  function ComparerSjf(a: Job, b: Job): int { Compare(a.running, b.running, ComparerFcfs(a, b)) }

  function Comparer(s: Scheme, a: Job, b: Job): int {
    match s
    case FCFS => ComparerFcfs(a, b)
    case PRI => ComparerPri(a, b)
    case PPRI => ComparerPri(a, b)
    case PSRTF => ComparerPsrtf(a, b)
    case RR => ComparerRr(a, b)
    case SJF => ComparerSjf(a, b)
  }

  // Every comparer is a total order on jobs up to ties, as a priority queue needs.
  lemma ComparerIsOrder(s: Scheme, a: Job, b: Job, c: Job)
    ensures Comparer(s, a, a) == 0
    ensures Comparer(s, a, b) == -Comparer(s, b, a)
    ensures Comparer(s, a, b) <= 0 && Comparer(s, b, c) <= 0 ==> Comparer(s, a, c) <= 0
  {
  }

  function Preemptive(s: Scheme): bool { s == PPRI || s == PSRTF || s == RR }

  ghost predicate Minimal(s: Scheme, queue: seq<Job>, j: Job) {
    j in queue && forall k :: k in queue ==> Comparer(s, j, k) <= 0
  }

  // The policies in their own terms: what must be no larger in the job chosen, ties being broken by arrival.
  ghost predicate GoesFirst(s: Scheme, j: Job, k: Job) {
    match s
    case FCFS => j.arrive <= k.arrive
    case PRI | PPRI => j.priority < k.priority || (j.priority == k.priority && j.arrive <= k.arrive)
    case PSRTF => j.remaining < k.remaining || (j.remaining == k.remaining && j.arrive <= k.arrive)
    case SJF => j.running < k.running || (j.running == k.running && j.arrive <= k.arrive)
    case RR => j.sequence < k.sequence || (j.sequence == k.sequence && j.arrive <= k.arrive)
  }

  lemma MinimalIsPolicy(s: Scheme, queue: seq<Job>, j: Job)
    ensures Minimal(s, queue, j) <==> j in queue && forall k :: k in queue ==> GoesFirst(s, j, k)
  {
    forall k ensures Comparer(s, j, k) <= 0 <==> GoesFirst(s, j, k) {
    }
  }

  // C converts a double to an int by cutting off the fraction.
  function Truncated(x: real): int {
    if x >= 0.0 then x.Floor else -((-x).Floor)
  }

  function Sum(jobs: seq<Job>): real {
    if jobs == [] then 0.0 else Sum(jobs[..|jobs| - 1]) + jobs[|jobs| - 1].running
  }

  // A queue in the order of its sequence numbers, all below the next one.
  ghost predicate InOrder(queue: seq<Job>, next: int) {
    && (forall i :: 0 <= i < |queue| ==> queue[i].sequence < next)
    && (forall i, j :: 0 <= i < j < |queue| ==> queue[i].sequence < queue[j].sequence)
  }

  class Scheduler {
    const scheme: Scheme
    var prempt: bool
    var pqueue: seq<Job>   // in the order in which jobs were offered
    var numarr: int
    var numfin: int
    var currenttime: int
    var nextSequence: int
    var totalresponse: real
    var totalwait: real
    var totalturnaround: real

    // The jobs that have finished.
    ghost var finished: seq<Job>

    ghost predicate Valid()
      reads this
    {
      && prempt == Preemptive(scheme) && numfin == |finished|
      && InOrder(pqueue, nextSequence)
      && totalturnaround - totalwait == Sum(finished)
    }

    // scheduler_start_up
    constructor (s: Scheme)
      ensures Valid() && scheme == s && pqueue == [] && finished == [] && currenttime == -1
    {
      scheme := s;
      prempt := match s
        case FCFS => false
        case PRI => false
        case PPRI => true
        case PSRTF => true
        case RR => true
        case SJF => false;
      pqueue := [];
      numarr := 0;
      numfin := 0;
      totalresponse := 0.0;
      totalwait := 0.0;
      totalturnaround := 0.0;
      currenttime := -1;
      nextSequence := 0;
      finished := [];
    }

    // priqueue_offer
    method Offer(j: Job)
      modifies `pqueue
      ensures pqueue == old(pqueue) + [j]
    {
      pqueue := pqueue + [j];
    }

    // priqueue_poll: some minimal job.
    method Poll() returns (j: Job, ghost at: nat)
      requires pqueue != []
      modifies `pqueue
      ensures Minimal(scheme, old(pqueue), j) && at < |old(pqueue)| && j == old(pqueue)[at]
      ensures pqueue == old(pqueue)[..at] + old(pqueue)[at + 1..]
    {
      var best := 0;
      var i := 1;
      ComparerIsOrder(scheme, pqueue[0], pqueue[0], pqueue[0]);
      while i < |pqueue|
        modifies {}
        invariant 1 <= i <= |pqueue| && best < i
        invariant forall k :: 0 <= k < i ==> Comparer(scheme, pqueue[best], pqueue[k]) <= 0
      {
        var take: bool := *;
        var c := Comparer(scheme, pqueue[i], pqueue[best]);
        ComparerIsOrder(scheme, pqueue[i], pqueue[best], pqueue[i]);
        if c < 0 || (c == 0 && take) {
          forall k | 0 <= k < i ensures Comparer(scheme, pqueue[i], pqueue[k]) <= 0 {
            ComparerIsOrder(scheme, pqueue[i], pqueue[best], pqueue[k]);
          }
          ComparerIsOrder(scheme, pqueue[i], pqueue[i], pqueue[i]);
          best := i;
        }
        i := i + 1;
      }
      j, at := pqueue[best], best;
      pqueue := pqueue[..best] + pqueue[best + 1..];
    }

    method NewJob(id: int, time: real, running: real, priority: real)
      requires Valid()
      modifies this
      ensures Valid() && finished == old(finished)
      ensures pqueue == old(pqueue) + [Job(id, running, priority, time, running, 0.0, old(nextSequence))]
      ensures nextSequence == old(nextSequence) + 1 && numarr == old(numarr) + 1
      ensures RrStep(old(pqueue), Arrives(Job(id, running, priority, time, running, 0.0, old(nextSequence))), pqueue)
    {
      var info := Job(id, running, priority, time, running, 0.0, nextSequence);
      nextSequence := nextSequence + 1;
      numarr := numarr + 1;
      Offer(info);
    }

    // What has become of a job that ran until now.
    ghost function Ran(j: Job, time: real): Job
      reads this
    {
      if currenttime != -1 then j.(remaining := j.remaining - (time - currenttime as real)) else j
    }

    // The end of a quantum, with the job evicted as it is put back.
    ghost function Expiry(evicted: Option<Job>, time: real): Event
      reads this
    {
      Expires(if evicted.Some? then Some(Ran(evicted.value, time).(sequence := nextSequence)) else None)
    }

    // The jobs to choose from: those that wait, and behind them the one evicted.
    ghost function Candidates(evicted: Option<Job>, time: real): seq<Job>
      reads this
    {
      pqueue + Offered(Expiry(evicted, time))
    }

    // Without preemption a job that runs goes on. Otherwise the next job is minimal among all that
    // wait and the one evicted; under RR it is the one that has waited longest.
    method QuantumExpired(evicted: Option<Job>, time: real) returns (next: Job, ghost at: nat)
      requires Valid() && (evicted.Some? || pqueue != [])
      modifies this
      ensures Valid() && finished == old(finished) && currenttime == Truncated(time)
      ensures evicted.Some? && !Preemptive(scheme) ==> next == old(Ran(evicted.value, time)) && pqueue == old(pqueue)
      ensures evicted.Some? && scheme in {FCFS, PRI, SJF} ==>
        next == evicted.value.(remaining := evicted.value.remaining -
                  if old(currenttime) == -1 then 0.0 else time - old(currenttime) as real)
      // Otherwise the job goes to the end of the queue, and one that goes first is taken out and, if it has not run, started.
      ensures evicted.None? || scheme in {PPRI, PSRTF, RR} ==>
        && (forall k :: k in pqueue ==> GoesFirst(scheme, next, k))
        && |pqueue| + 1 == |old(pqueue)| + (if evicted.Some? then 1 else 0)
        && (next.remaining == next.running ==> next.start == time)
      ensures evicted.None? || Preemptive(scheme) ==>
        && at < |old(Candidates(evicted, time))|
        && Minimal(scheme, old(Candidates(evicted, time)), old(Candidates(evicted, time))[at])
        && next == Started(old(Candidates(evicted, time))[at], time)
        && pqueue == Without(old(Candidates(evicted, time)), at)
      ensures scheme == RR ==> at == 0 && RrStep(old(pqueue), old(Expiry(evicted, time)), pqueue)
    {
      var j := evicted;
      if currenttime != -1 && j.Some? {
        j := Some(j.value.(remaining := j.value.remaining - (time - currenttime as real)));
      }
      currenttime := Truncated(time);
      hide Sum, GoesFirst, Minimal, Truncated;
      if j.Some? && !prempt {
        return j.value, 0;
      }
      if j.Some? {
        j := Some(j.value.(sequence := nextSequence));
        nextSequence := nextSequence + 1;
        Offer(j.value);
      }
      assert pqueue == old(Candidates(evicted, time)) && InOrder(pqueue, nextSequence);
      next, at := TakeNext(time);
    }

    // Lines 172-176: the job that goes first is taken out and, if it has not run yet, starts now.
    method TakeNext(time: real) returns (next: Job, ghost at: nat)
      requires Valid() && pqueue != []
      modifies `pqueue
      ensures Valid()
      ensures at < |old(pqueue)| && Minimal(scheme, old(pqueue), old(pqueue)[at])
      ensures next == Started(old(pqueue)[at], time) && pqueue == Without(old(pqueue), at)
      ensures scheme == RR ==> at == 0
      ensures |pqueue| + 1 == |old(pqueue)| && forall k :: k in pqueue ==> GoesFirst(scheme, next, k)
      ensures next.remaining == next.running ==> next.start == time
    {
      hide Sum;
      ghost var all := pqueue;
      next, at := Poll();
      if scheme == RR {
        FirstIsMinimal(all, nextSequence, at);
      }
      StillInOrder(all, nextSequence, at);
      MinimalIsPolicy(scheme, all, next);
      assert forall k :: k in pqueue ==> k in all;
      hide Minimal, InOrder, Comparer;
      if next.remaining == next.running {
        next := next.(start := time);
      }
    }

    // Turnaround time less waiting time is always the time the finished jobs needed.
    method JobFinished(done: Job, time: real)
      requires Valid()
      modifies this
      ensures Valid() && finished == old(finished) + [done] && pqueue == old(pqueue)
      ensures totalturnaround == old(totalturnaround) + (time - done.arrive)
      ensures totalresponse == old(totalresponse) + (done.start - done.arrive)
    {
      numfin := numfin + 1;
      totalturnaround := totalturnaround + (time - done.arrive);
      totalwait := totalwait + (time - done.arrive - done.running);
      totalresponse := totalresponse + (done.start - done.arrive);
      finished := finished + [done];
      assert finished[..|finished| - 1] == old(finished);
    }
  }

  datatype Option<T> = None | Some(value: T)

  // Lines 173-175: a job that has not run yet starts now.
  function Started(j: Job, time: real): Job {
    if j.remaining == j.running then j.(start := time) else j
  }

  function Without(queue: seq<Job>, at: nat): seq<Job>
    requires at < |queue|
  {
    queue[..at] + queue[at + 1..]
  }

  // Under RR only the job offered first is minimal.
  lemma FirstIsMinimal(queue: seq<Job>, next: int, at: nat)
    requires InOrder(queue, next) && at < |queue| && Minimal(RR, queue, queue[at])
    ensures at == 0
  {
    assert queue[0] in queue;
    assert Comparer(RR, queue[at], queue[0]) <= 0;
  }

  lemma StillInOrder(queue: seq<Job>, next: int, at: nat)
    requires InOrder(queue, next) && at < |queue|
    ensures InOrder(Without(queue, at), next)
  {
  }

  // ----- Round robin, over whole runs -----

  // An arrival, or the end of a quantum with the job evicted, as it is put back.
  datatype Event = Arrives(j: Job) | Expires(evicted: Option<Job>)

  function Offered(e: Event): seq<Job> {
    match e
    case Arrives(j) => [j]
    case Expires(Some(j)) => [j]
    case Expires(None) => []
  }

  // What calls of NewJob and QuantumExpired make of the queue under RR: each is a step.
  ghost predicate RrRun(queue: seq<Job>, events: seq<Event>, after: seq<Job>) {
    if events == [] then after == queue
    else
      var e := events[|events| - 1];
      exists before :: RrRun(queue, events[..|events| - 1], before) && RrStep(before, e, after)
  }

  ghost predicate RrStep(before: seq<Job>, e: Event, after: seq<Job>) {
    match e
    case Arrives(j) => after == before + [j]
    case Expires(_) => before + Offered(e) != [] && after == Without(before + Offered(e), 0)
  }

  function Polls(events: seq<Event>): nat {
    if events == [] then 0
    else Polls(events[..|events| - 1]) + if events[|events| - 1].Expires? then 1 else 0
  }

  // A job with p jobs ahead of it moves up by one place with every poll, whatever arrives or is
  // evicted meanwhile: it is passed over exactly p times, and the next poll returns it.
  lemma {:induction false} RoundRobinIsFair(queue: seq<Job>, events: seq<Event>, after: seq<Job>, p: nat)
    requires RrRun(queue, events, after) && p < |queue| && Polls(events) <= p
    ensures p - Polls(events) < |after| && after[p - Polls(events)] == queue[p]
    decreases |events|
  {
    if events != [] {
      var e := events[|events| - 1];
      var before :| RrRun(queue, events[..|events| - 1], before) && RrStep(before, e, after);
      RoundRobinIsFair(queue, events[..|events| - 1], before, p);
    }
  }
}
