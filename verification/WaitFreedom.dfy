/** No call waits for another: whatever the others do, each call comes to its answer within
    a fixed number of its own steps. */
module WaitFreedom {
  import opened AtomicStore
  import M = StoreMachine

  /** Steps still to come, at most. */
  function Rank(pc: M.Pc): nat {
    match pc
    case Lookup(_) => 5
    case Create(_, _) => 4
    case Fetch(_, _) => 4
    case Stamp(_, _) => 3
    case Restamp(_, _, _) => 3
    case Write(_, _, _) => 2
    case Swap(_, _, _, _) => 2
    case Check(_, _) => 1
    case Done(_, _) => 0
  }

  /** How many of the steps are `t`'s own. */
  ghost function StepsOf(labels: seq<M.Label>, t: ThreadId): nat {
    |set i | 0 <= i < |labels| && labels[i].Advance? && labels[i].t == t|
  }

  lemma StepsOfAppend(labels: seq<M.Label>, l: M.Label, t: ThreadId)
    ensures StepsOf(labels + [l], t) == StepsOf(labels, t) + if l.Advance? && l.t == t then 1 else 0
  {
    var steps := set i | 0 <= i < |labels| && labels[i].Advance? && labels[i].t == t;
    var more := set i | 0 <= i < |labels + [l]| && (labels + [l])[i].Advance? && (labels + [l])[i].t == t;
    assert more == if l.Advance? && l.t == t then steps + {|labels|} else steps;
  }

  lemma TouchFalls(pc: M.Pc, keys: map<Name, Item>, clock: Time)
    requires M.Holds(pc) && (pc.Stamp? ==> pc.op.Writes()) && (pc.Restamp? ==> pc.op.Refresh?)
    ensures Rank(M.Touch(pc, keys, clock).0) < Rank(pc)
  {
  }

  /** A call's own step brings it closer to its answer. */
  lemma OwnStepFalls(s: M.State, t: ThreadId, spare: M.Ref)
    requires M.Inv(s) && M.Enabled(s, M.Advance(t, spare))
    ensures var s' := M.Step(s, M.Advance(t, spare)); t in s'.threads && Rank(s'.threads[t]) < Rank(s.threads[t])
  {
    var pc := s.threads[t];
    assert M.PcSound(s, pc);
    if M.Holds(pc) {
      TouchFalls(pc, s.objects[pc.ref], s.clock);
      assert M.Step(s, M.Advance(t, spare)).threads[t] == M.Touch(pc, s.objects[pc.ref], s.clock).0;
      hide M.Touch, Rank, M.Inv, M.PcSound;
    }
  }

  lemma {:induction false} RankFalls(s: M.State, labels: seq<M.Label>, t: ThreadId)
    requires M.Inv(s) && M.Runs(s, labels) && M.Finish(t) !in labels && t in s.threads
    ensures var end := M.After(s, labels);
            && M.Inv(end) && t in end.threads
            && Rank(end.threads[t]) + StepsOf(labels, t) <= Rank(s.threads[t])
    decreases |labels|
  {
    hide M.Inv, M.Step, M.Enabled, Rank;
    if labels == [] {
      assert StepsOf([], t) == 0;
    } else {
      hide StepsOf;
      var front, l := labels[..|labels| - 1], labels[|labels| - 1];
      assert labels == front + [l];
      M.RunsSplit(s, front, [l]);
      RankFalls(s, front, t);
      StepsOfAppend(front, l, t);
      var cur := M.After(s, front);
      assert M.After(cur, [l]) == M.Step(cur, l);
      M.StepKeepsInv(cur, l);
      if l.Advance? && l.t == t {
        OwnStepFalls(cur, t, l.spare);
      } else {
        M.OthersStandAside(cur, l, t);
      }
    }
  }

  /** Until it has answered, a call can always take its next step. */
  lemma NeverBlocked(s: M.State, t: ThreadId, spare: M.Ref)
    requires M.Inv(s) && t in s.threads && !s.threads[t].Done?
    requires s.threads[t].Lookup? ==> spare !in s.objects
    ensures M.Enabled(s, M.Advance(t, spare))
  {
    assert M.PcSound(s, s.threads[t]);
  }

  /** Wait-freedom: in every interleaving, a call takes at most five steps of its own, can
      take the next one at any moment, and has answered when it has taken five. */
  lemma AnswersWithinFiveSteps(s: M.State, t: ThreadId, op: Op, during: seq<M.Label>)
    requires M.Inv(s) && M.Runs(s, [M.Label.Begin(t, op)] + during) && M.Finish(t) !in during
    ensures StepsOf(during, t) <= 5
    ensures var end := M.After(s, [M.Label.Begin(t, op)] + during);
            && t in end.threads
            && (StepsOf(during, t) == 5 ==> end.threads[t].Done?)
            && (!end.threads[t].Done? ==> forall spare | spare !in end.objects :: M.Enabled(end, M.Advance(t, spare)))
  {
    var begin := M.Label.Begin(t, op);
    assert ([begin] + during)[1..] == during;
    M.StepKeepsInv(s, begin);
    var s1 := M.Step(s, begin);
    assert t in s1.threads && s1.threads[t] == M.Pc.Lookup(op);
    hide M.Inv, M.Step, M.Enabled;
    RankFalls(s1, during, t);
    var end := M.After(s1, during);
    if !end.threads[t].Done? {
      forall spare | spare !in end.objects
        ensures M.Enabled(end, M.Advance(t, spare))
      {
        NeverBlocked(end, t, spare);
      }
    }
  }
}
