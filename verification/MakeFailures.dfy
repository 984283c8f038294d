// Why rules fail, with any number of workers of parallel_make/parmake.c.
module MakeFailures {
  import opened MakeGraph
  import opened MakeRun
  import opened MakeWorkers

  // The rules whose commands came to an end in a run, and whether they failed.
  ghost function Ended(s: State, es: seq<Event>): seq<(nat, bool)>
    decreases |es|
  {
    if es == [] || !Enabled(s, es[0]) then [] else EndedBy(s, es[0]) + Ended(Next(s, es[0]), es[1..])
  }

  ghost function EndedBy(s: State, e: Event): seq<(nat, bool)>
    requires Enabled(s, e)
  {
    if e.Finish? then [(s.ws[e.w].v, e.fail)] else []
  }

  // Some rule that x depends on, at however many removes, or x itself, had a command that failed.
  ghost predicate RootCause(g: Graph, log: seq<(nat, bool)>, x: nat) {
    exists z: nat :: Reaches(g, x, z) && (z, true) in log
  }

  ghost predicate Explained(s: State, log: seq<(nat, bool)>) {
    && Valid(s.g) && |s.st| == |s.g|
    && (forall x :: 0 <= x < |s.st| && s.st[x] == SATISFIED ==> (x, false) in log)
    && (forall x :: 0 <= x < |s.st| && s.st[x] == FAILED ==> RootCause(s.g, log, x))
    && (forall w :: 0 <= w < |s.ws| && s.ws[w].Failing? ==> RootCause(s.g, log, s.ws[w].next))
    && (forall x :: 0 <= x < |s.st| && (x, true) in log && (x, false) !in log ==> s.st[x] == FAILED)
  }

  lemma MoreCauses(g: Graph, log: seq<(nat, bool)>, more: seq<(nat, bool)>, x: nat)
    requires RootCause(g, log, x)
    ensures RootCause(g, log + more, x)
  {
    var z: nat :| Reaches(g, x, z) && (z, true) in log;
    assert (z, true) in log + more;
  }

  lemma StepCauses(s: State, log: seq<(nat, bool)>, e: Event, x: nat)
    requires Explained(s, log) && Enabled(s, e) && x < |s.g|
    requires Next(s, e).st[x] == FAILED || (e.w < |s.ws| && Next(s, e).ws[e.w].Failing? && Next(s, e).ws[e.w].next == x)
    ensures RootCause(s.g, log + EndedBy(s, e), x)
  {
    var more := EndedBy(s, e);
    if e.Finish? && e.fail && s.ws[e.w].v == x {
      ReachesSelf(s.g, x);
      assert (x, true) in log + more;
    } else {
      if e.Read? && s.ws[e.w].next == x && Some(s.g, s.st, x, FAILED) {
        var y :| y in s.g[x] && y < |s.st| && s.st[y] == FAILED;
        var z: nat :| Reaches(s.g, y, z) && (z, true) in log;
        ReachesThrough(s.g, x, y, z);
      }
      assert RootCause(s.g, log, x);
      MoreCauses(s.g, log, more, x);
    }
  }

  lemma StepExplained(s: State, log: seq<(nat, bool)>, e: Event)
    requires Explained(s, log) && Enabled(s, e)
    ensures Explained(Next(s, e), log + EndedBy(s, e)) && Next(s, e).g == s.g
  {
    var t, more := Next(s, e), log + EndedBy(s, e);
    StepEnds(s, log, e);
    forall x | 0 <= x < |t.st| && t.st[x] == FAILED ensures RootCause(t.g, more, x) {
      StepCauses(s, log, e, x);
    }
    forall w | 0 <= w < |t.ws| && t.ws[w].Failing? ensures RootCause(t.g, more, t.ws[w].next) {
      if w == e.w {
        StepCauses(s, log, e, t.ws[w].next);
      } else {
        MoreCauses(s.g, log, EndedBy(s, e), s.ws[w].next);
      }
    }
    hide RootCause, EndedBy;
  }

  lemma StepEnds(s: State, log: seq<(nat, bool)>, e: Event)
    requires Explained(s, log) && Enabled(s, e)
    ensures var t, more := Next(s, e), log + EndedBy(s, e);
      && t.g == s.g && |t.st| == |s.st|
      && (forall x :: 0 <= x < |t.st| && t.st[x] == SATISFIED ==> (x, false) in more)
      && (forall x :: 0 <= x < |t.st| && (x, true) in more && (x, false) !in more ==> t.st[x] == FAILED)
  {
    hide RootCause;
    assert forall p :: p in log + EndedBy(s, e) <==> p in log || p in EndedBy(s, e);
  }

  lemma {:induction false} ExplainedFrom(s: State, log: seq<(nat, bool)>, es: seq<Event>, s': State)
    requires Explained(s, log) && Steps(s, es, s')
    ensures Explained(s', log + Ended(s, es)) && s'.g == s.g
    decreases |es|
  {
    if es == [] {
      assert log + [] == log;
    } else {
      hide Explained, Next, Enabled, EndedBy;
      var more := EndedBy(s, es[0]);
      StepExplained(s, log, es[0]);
      ExplainedFrom(Next(s, es[0]), log + more, es[1..], s');
      assert log + more + Ended(Next(s, es[0]), es[1..]) == log + (more + Ended(Next(s, es[0]), es[1..]));
    }
  }

  // With any number of workers: a rule is satisfied only if its commands have succeeded, and failed only if commands of
  // it or of something below it have; and one whose commands have only failed is failed.
  lemma FailuresHaveCauses(active: set<nat>, s: State, es: seq<Event>, s': State, x: nat)
    requires Initial(active, s) && Steps(s, es, s') && x < |s.g|
    ensures s'.g == s.g && x < |s'.st|
    ensures s'.st[x] == SATISFIED ==> (x, false) in Ended(s, es)
    ensures s'.st[x] == FAILED ==> RootCause(s.g, Ended(s, es), x)
    ensures (x, true) in Ended(s, es) && (x, false) !in Ended(s, es) ==> s'.st[x] == FAILED
  {
    ExplainedFrom(s, [], es, s');
    assert [] + Ended(s, es) == Ended(s, es);
  }
}
