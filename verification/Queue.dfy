// critical_concurrency/queue.c: the bounded blocking queue as a step system over any number of pushers and pullers,
// and the linked list that implements it.
module Queue {
  import opened Counting

  datatype Option<T> = None | Some(value: T)

  // Where a thread is: outside, or at the wait of queue_push (with its value) or of queue_pull.
  datatype Pc<T> = Outside | PushAsleep(value: T) | PushWoken(value: T) | PullAsleep | PullWoken

  // pushed and pulled record, in lock order, everything ever put in and taken out.
  datatype State<T> = State(max: int, items: seq<T>, pc: seq<Pc<T>>, pushed: seq<T>, pulled: seq<T>) {
    predicate Full() { max > 0 && |items| == max }
  }

  datatype Event<T> = Push(t: nat, v: T) | Pull(t: nat) | Resume(t: nat) | Spurious(t: nat)

  function Initial<T>(max: int, threads: nat): State<T> {
    State(max, [], seq(threads, _ => Outside), [], [])
  }

  function Wake<T>(p: Pc<T>): Pc<T> {
    match p
    case PushAsleep(v) => PushWoken(v)
    case PullAsleep => PullWoken
    case _ => p
  }

  function Broadcast<T>(pc: seq<Pc<T>>): (r: seq<Pc<T>>)
    ensures |r| == |pc| && forall t :: 0 <= t < |pc| ==> r[t] == Wake(pc[t])
  {
    seq(|pc|, t requires 0 <= t < |pc| => Wake(pc[t]))
  }

  // The loop of queue_push and what follows it, with the mutex held.
  function TryPush<T>(s: State<T>, t: nat, v: T): State<T>
    requires t < |s.pc|
  {
    if s.Full() then s.(pc := s.pc[t := PushAsleep(v)])
    else s.(items := s.items + [v], pushed := s.pushed + [v], pc := Broadcast(s.pc[t := Outside]))
  }

  function TryPull<T>(s: State<T>, t: nat): State<T>
    requires t < |s.pc|
  {
    if s.items == [] then s.(pc := s.pc[t := PullAsleep])
    else s.(items := s.items[1..], pulled := s.pulled + [s.items[0]], pc := Broadcast(s.pc[t := Outside]))
  }

  predicate Enabled<T(==)>(s: State<T>, e: Event<T>) {
    e.t < |s.pc| &&
    match e
    case Push(t, _) => s.pc[t] == Outside
    case Pull(t) => s.pc[t] == Outside
    case Resume(t) => s.pc[t].PushWoken? || s.pc[t].PullWoken?
    case Spurious(t) => s.pc[t].PushAsleep? || s.pc[t].PullAsleep?
  }

  // One atomic section of thread e.t. A wait may also return without any broadcast.
  function Next<T(==)>(s: State<T>, e: Event<T>): State<T>
    requires Enabled(s, e)
  {
    match e
    case Push(t, v) => TryPush(s, t, v)
    case Pull(t) => TryPull(s, t)
    case Resume(t) => if s.pc[t].PushWoken? then TryPush(s, t, s.pc[t].value) else TryPull(s, t)
    case Spurious(t) => s.(pc := s.pc[t := Wake(s.pc[t])])
  }

  ghost predicate Run<T>(s: State<T>, es: seq<Event<T>>, s': State<T>)
    decreases |es|
  {
    if es == [] then s == s' else Enabled(s, es[0]) && Run(Next(s, es[0]), es[1..], s')
  }

  ghost predicate Inv<T>(s: State<T>) {
    && s.pushed == s.pulled + s.items
    && (s.max > 0 ==> |s.items| <= s.max)
    && (forall t :: 0 <= t < |s.pc| && s.pc[t].PullAsleep? ==> s.items == [])
    && (forall t :: 0 <= t < |s.pc| && s.pc[t].PushAsleep? ==> s.Full())
  }

  lemma {:induction false} RunInv<T>(s: State<T>, es: seq<Event<T>>, s': State<T>)
    requires Inv(s) && Run(s, es, s')
    ensures Inv(s') && |s'.pc| == |s.pc| && s'.max == s.max
    decreases |es|
  {
    if es != [] {
      RunInv(Next(s, es[0]), es[1..], s');
    }
  }

  // In every interleaving the values pulled are a prefix of the values pushed, and the rest is what the queue holds.
  lemma FirstInFirstOut<T>(max: int, threads: nat, es: seq<Event<T>>, s: State<T>)
    requires Run(Initial(max, threads), es, s)
    ensures s.pulled <= s.pushed && s.items == s.pushed[|s.pulled|..]
    ensures max > 0 ==> |s.items| <= max
  {
    RunInv(Initial(max, threads), es, s);
  }

  // A thread sleeps only while it has to, so a pusher and a puller are never asleep together.
  lemma NoLostWakeup<T>(max: int, threads: nat, es: seq<Event<T>>, s: State<T>, t: nat, u: nat)
    requires Run(Initial(max, threads), es, s) && t < threads && u < threads
    ensures t < |s.pc| && u < |s.pc|
    ensures s.pc[t].PullAsleep? ==> s.items == []
    ensures s.pc[t].PushAsleep? ==> max > 0 && |s.items| == max
    ensures !(s.pc[t].PullAsleep? && s.pc[u].PushAsleep?)
  {
    RunInv(Initial(max, threads), es, s);
  }

  // ----- no call is lost -----

  // How often threads call queue_push with v in a run, and how often queue_pull.
  function Pushes<T(==)>(es: seq<Event<T>>, v: T): nat {
    if es == [] then 0 else (if es[0].Push? && es[0].v == v then 1 else 0) + Pushes(es[1..], v)
  }

  function Pulls<T>(es: seq<Event<T>>): nat {
    if es == [] then 0 else (if es[0].Pull? then 1 else 0) + Pulls(es[1..])
  }

  // How many threads still wait to push v, and how many to pull.
  function Pushers<T(==)>(pc: seq<Pc<T>>, v: T): nat {
    if pc == [] then 0 else PusherOf(pc[0], v) + Pushers(pc[1..], v)
  }

  function PusherOf<T(==)>(p: Pc<T>, v: T): nat {
    if (p.PushAsleep? || p.PushWoken?) && p.value == v then 1 else 0
  }

  function Pullers<T>(pc: seq<Pc<T>>): nat {
    if pc == [] then 0 else PullerIn(pc[0]) + Pullers(pc[1..])
  }

  function PullerIn<T>(p: Pc<T>): nat { if p.PullAsleep? || p.PullWoken? then 1 else 0 }

  lemma {:induction false} WaitersUpdate<T>(pc: seq<Pc<T>>, t: nat, p: Pc<T>, v: T)
    requires t < |pc|
    ensures Pushers(pc[t := p], v) + PusherOf(pc[t], v) == Pushers(pc, v) + PusherOf(p, v)
    ensures Pullers(pc[t := p]) + PullerIn(pc[t]) == Pullers(pc) + PullerIn(p)
    decreases |pc|
  {
    if t > 0 {
      WaitersUpdate(pc[1..], t - 1, p, v);
      assert pc[t := p][1..] == pc[1..][t - 1 := p];
    } else {
      assert pc[t := p][1..] == pc[1..];
    }
  }

  lemma {:induction false} WaitersBroadcast<T>(pc: seq<Pc<T>>, v: T)
    ensures Pushers(Broadcast(pc), v) == Pushers(pc, v) && Pullers(Broadcast(pc)) == Pullers(pc)
    decreases |pc|
  {
    if pc != [] {
      WaitersBroadcast(pc[1..], v);
      assert Broadcast(pc)[1..] == Broadcast(pc[1..]);
    }
  }

  lemma {:induction false} NobodyWaits<T>(pc: seq<Pc<T>>, v: T)
    requires forall t :: 0 <= t < |pc| ==> pc[t] == Outside
    ensures Pushers(pc, v) == 0 && Pullers(pc) == 0
    decreases |pc|
  {
    if pc != [] {
      NobodyWaits(pc[1..], v);
    }
  }

  lemma TryPushConserves<T>(s: State<T>, t: nat, x: T, v: T)
    requires t < |s.pc| && PullerIn(s.pc[t]) == 0
    ensures var s' := TryPush(s, t, x);
      && Count(s'.pushed, v) + Pushers(s'.pc, v) + PusherOf(s.pc[t], v)
           == Count(s.pushed, v) + Pushers(s.pc, v) + (if x == v then 1 else 0)
      && |s'.pulled| + Pullers(s'.pc) == |s.pulled| + Pullers(s.pc)
  {
    var p := if s.Full() then PushAsleep(x) else Outside;
    WaitersUpdate(s.pc, t, p, v);
    WaitersBroadcast(s.pc[t := p], v);
    CountConcat(s.pushed, [x], v);
  }

  lemma TryPullConserves<T>(s: State<T>, t: nat, v: T)
    requires t < |s.pc| && PusherOf(s.pc[t], v) == 0
    ensures var s' := TryPull(s, t);
      && Count(s'.pushed, v) + Pushers(s'.pc, v) == Count(s.pushed, v) + Pushers(s.pc, v)
      && |s'.pulled| + Pullers(s'.pc) + PullerIn(s.pc[t]) == |s.pulled| + Pullers(s.pc) + 1
  {
    var p := if s.items == [] then PullAsleep else Outside;
    WaitersUpdate(s.pc, t, p, v);
    WaitersBroadcast(s.pc[t := p], v);
  }

  lemma StepConserves<T>(s: State<T>, e: Event<T>, v: T)
    requires Enabled(s, e)
    ensures var s' := Next(s, e);
      && Count(s'.pushed, v) + Pushers(s'.pc, v)
           == Count(s.pushed, v) + Pushers(s.pc, v) + (if e.Push? && e.v == v then 1 else 0)
      && |s'.pulled| + Pullers(s'.pc) == |s.pulled| + Pullers(s.pc) + (if e.Pull? then 1 else 0)
  {
    hide Pushers, Pullers, Count;
    match e
    case Push(t, x) => TryPushConserves(s, t, x, v);
    case Pull(t) => TryPullConserves(s, t, v);
    case Resume(t) =>
      if s.pc[t].PushWoken? {
        TryPushConserves(s, t, s.pc[t].value, v);
      } else {
        TryPullConserves(s, t, v);
      }
    case Spurious(t) => WaitersUpdate(s.pc, t, Wake(s.pc[t]), v);
  }

  lemma {:induction false} RunConserves<T>(s: State<T>, es: seq<Event<T>>, s': State<T>, v: T)
    requires Run(s, es, s')
    ensures Count(s'.pushed, v) + Pushers(s'.pc, v) == Count(s.pushed, v) + Pushers(s.pc, v) + Pushes(es, v)
    ensures |s'.pulled| + Pullers(s'.pc) == |s.pulled| + Pullers(s.pc) + Pulls(es)
    decreases |es|
  {
    if es != [] {
      StepConserves(s, es[0], v);
      hide Next, Enabled, Count, Pushers, Pullers;
      RunConserves(Next(s, es[0]), es[1..], s', v);
    }
  }

  // As often as a value was brought to queue_push, it was taken out, or is in the queue, or its thread still waits; and
  // every call of queue_pull has taken one value out, or still waits.
  lemma EveryCallCounts<T>(max: int, threads: nat, es: seq<Event<T>>, s: State<T>, v: T)
    requires Run(Initial(max, threads), es, s)
    ensures Count(s.pulled, v) + Count(s.items, v) + Pushers(s.pc, v) == Pushes(es, v)
    ensures |s.pulled| + Pullers(s.pc) == Pulls(es)
  {
    var s0 := Initial<T>(max, threads);
    NobodyWaits(s0.pc, v);
    RunConserves(s0, es, s, v);
    RunInv(s0, es, s);
    CountConcat(s.pulled, s.items, v);
  }

  // A thread that runs is through exactly if there is room, or something to take.
  lemma ReturnsExactly<T>(s: State<T>, e: Event<T>)
    requires Enabled(s, e) && !e.Spurious?
    ensures var pushes := e.Push? || (e.Resume? && s.pc[e.t].PushWoken?);
      Next(s, e).pc[e.t] == Outside <==> if pushes then !(s.max > 0 && |s.items| == s.max) else s.items != []
  {
  }

  // ----- the code -----

  class Node<T> {
    var data: T
    var next: Node?<T>
    constructor (data: T)
      ensures this.data == data && next == null
    {
      this.data, next := data, null;
    }
  }

  class Monitor<T(==)> {
    var head: Node?<T>
    var tail: Node?<T>
    var size: int
    const maxSize: int
    var pc: seq<Pc<T>>           // who sleeps on the condition variable
    ghost var nodes: seq<Node<T>>
    ghost var pushed: seq<T>
    ghost var pulled: seq<T>

    ghost predicate Valid()
      reads this, nodes
    {
      && size == |nodes|
      && (forall i, j :: 0 <= i < j < |nodes| ==> nodes[i] != nodes[j])
      && (nodes == [] ==> head == null && tail == null)
      && (nodes != [] ==> head == nodes[0] && tail == nodes[|nodes| - 1])
      && (forall i {:trigger nodes[i].next} :: 0 <= i < |nodes| ==>
            nodes[i].next == if i + 1 < |nodes| then nodes[i + 1] else null)
    }

    ghost function Items(): seq<T>
      reads this, nodes
    {
      seq(|nodes|, i requires 0 <= i < |nodes| reads this, nodes => nodes[i].data)
    }

    ghost function Abs(): State<T>
      reads this, nodes
    {
      State(maxSize, Items(), pc, pushed, pulled)
    }

    constructor (maxSize: int, threads: nat)
      ensures Valid() && fresh(nodes) && Abs() == Initial(maxSize, threads)
    {
      head, tail, size, this.maxSize := null, null, 0, maxSize;
      pc := seq(threads, _ => Outside);
      nodes, pushed, pulled := [], [], [];
    }

    // queue_push from the point where the mutex is held, up to the unlock or the wait.
    method PushSection(t: nat, data: T)
      requires Valid() && t < |pc|
      modifies this, nodes
      ensures Valid() && fresh(set x | x in nodes && x !in old(nodes))
      ensures Abs() == TryPush(old(Abs()), t, data)
      ensures maxSize > 0 && |old(Items())| == maxSize ==> Items() == old(Items()) && pc == old(pc)[t := PushAsleep(data)]
      ensures !(maxSize > 0 && |old(Items())| == maxSize) ==> Items() == old(Items()) + [data] && pc[t] == Outside
    {
      if maxSize > 0 && size == maxSize {
        pc := pc[t := PushAsleep(data)];
        return;
      }
      size := size + 1;
      var node := new Node(data);
      if tail == null {
        tail := node;
        head := node;
      } else {
        tail.next := node;
        tail := node;
      }
      nodes := nodes + [node];
      pushed := pushed + [data];
      pc := Broadcast(pc[t := Outside]);
      assert Items() == old(Items()) + [data];
    }

    // queue_pull from the point where the mutex is held, up to the unlock (the value) or the wait (nothing).
    method PullSection(t: nat) returns (r: Option<T>)
      requires Valid() && t < |pc|
      modifies this
      ensures Valid() && forall x :: x in nodes ==> x in old(nodes)
      ensures Abs() == TryPull(old(Abs()), t)
      ensures r == if old(Items()) == [] then None else Some(old(Items())[0])
      ensures old(Items()) == [] ==> Items() == [] && pc == old(pc)[t := PullAsleep]
      ensures old(Items()) != [] ==> Items() == old(Items())[1..] && pc[t] == Outside
    {
      if size == 0 {
        pc := pc[t := PullAsleep];
        return None;
      }
      size := size - 1;
      var ptr := head;
      if head == tail {
        head := null;
        tail := null;
      } else {
        head := ptr.next;
      }
      var data := ptr.data;
      nodes := nodes[1..];
      pulled := pulled + [data];
      pc := Broadcast(pc[t := Outside]);
      assert Items() == old(Items())[1..];
      return Some(data);
    }
  }
}
