/** Schedules in which calls do get in each other's way: the races that the store's code is
    written to survive can all happen. */
module Races {
  import opened AtomicStore
  import M = StoreMachine
  import opened ExpiredAnswers

  lemma Then(s: M.State, labels: seq<M.Label>, l: M.Label)
    requires M.Runs(s, labels) && M.Enabled(M.After(s, labels), l)
    ensures M.Runs(s, labels + [l]) && M.After(s, labels + [l]) == M.Step(M.After(s, labels), l)
  {
    M.RunsSplit(s, labels, [l]);
    assert M.After(M.After(s, labels), [l]) == M.Step(M.After(s, labels), l);
  }

  // ----- a Refresh and a Remove

  /** The three steps of a Remove that finds its key. */
  lemma RemoveSteps(s: M.State, u: ThreadId, op: Op, spare: M.Ref)
    requires u !in s.threads && spare !in s.objects && op.Remove?
    requires op.ns in s.scopes && s.scopes[op.ns] in s.objects && op.key in s.objects[s.scopes[op.ns]]
    ensures var ref := s.scopes[op.ns];
            var begin, l := M.Label.Begin(u, op), M.Advance(u, spare);
            var s1, s2 := M.Goto(s, u, M.Pc.Lookup(op)), M.Goto(s, u, M.Pc.Fetch(op, ref));
            && M.Enabled(s, begin) && M.Step(s, begin) == s1
            && M.Enabled(s1, l) && M.Step(s1, l) == s2
            && M.Enabled(s2, l)
            && M.Step(s2, l) == M.Goto(M.Update(s, ref, s.objects[ref] - {op.key}), u, M.Done(op, Ok))
  {
  }

  /** The load of a Refresh, and what is left of it once the item has gone. */
  lemma RefreshSteps(s: M.State, t: ThreadId, spare: M.Ref)
    requires t in s.threads && s.threads[t].op.Refresh? && M.Holds(s.threads[t]) && s.threads[t].ref in s.objects
    ensures var pc := s.threads[t];
            var keys := s.objects[pc.ref];
            var l := M.Advance(t, spare);
            && (pc.Fetch? && pc.op.key in keys ==>
                  M.Enabled(s, l) && M.Step(s, l) == M.Goto(s, t, M.Restamp(pc.op, pc.ref, keys[pc.op.key])))
            && (pc.Restamp? ==>
                  M.Enabled(s, l) &&
                  M.Step(s, l) == M.Goto(s, t, M.Swap(pc.op, pc.ref, pc.seen, Item(s.clock + pc.op.ttl, pc.seen.value))))
            && (pc.Swap? && pc.op.key !in keys ==>
                  M.Enabled(s, l) && M.Step(s, l) == M.Goto(s, t, M.Done(pc.op, Failed(ItemChanged))))
  {
    assert s.objects[s.threads[t].ref := s.objects[s.threads[t].ref]] == s.objects;
  }

  lemma Nothing(s: M.State)
    ensures M.Runs(s, []) && M.After(s, []) == s
  {
  }

  lemma RefreshIsPlaced(s: M.State, t: ThreadId)
    requires M.Inv(s) && t in s.threads && s.threads[t].Fetch?
    ensures var pc := s.threads[t]; pc.op.ns in s.scopes && s.scopes[pc.op.ns] == pc.ref && pc.ref in s.objects
  {
    assert M.PcSound(s, s.threads[t]);
  }

  /** Between the load of a Refresh and its CompareAndSwap there is room for another call: any
      Refresh about to load an item can be scheduled to answer ItemChanged. */
  lemma RefreshCanMiss(s: M.State, t: ThreadId) returns (labels: seq<M.Label>)
    requires M.Inv(s) && t in s.threads && s.threads[t].Fetch? && s.threads[t].op.Refresh?
    requires s.threads[t].op.key in s.objects[s.scopes[s.threads[t].op.ns]]
    ensures M.Runs(s, labels) && M.Finish(t) !in labels
    ensures var end := M.After(s, labels);
            t in end.threads && end.threads[t] == M.Done(s.threads[t].op, Failed(ItemChanged))
  {
    var op := s.threads[t].op;
    var ref := s.scopes[op.ns];
    hide M.Inv, M.PcSound, M.Step, M.Enabled, M.Runs, M.After;
    RefreshIsPlaced(s, t);
    var u := Bound(s.threads.Keys);
    var spare := Bound(s.objects.Keys);
    assert u !in s.threads.Keys && spare !in s.objects.Keys;
    Nothing(s);
    var remove := Remove(op.ns, op.key);
    var mine, begin, other := M.Advance(t, spare), M.Label.Begin(u, remove), M.Advance(u, spare);
    RefreshSteps(s, t, spare);
    Then(s, [], mine);
    var s1 := M.Step(s, mine);
    RemoveSteps(s1, u, remove, spare);
    Then(s, [] + [mine], begin);
    Then(s, [] + [mine] + [begin], other);
    Then(s, [] + [mine] + [begin] + [other], other);
    labels := [] + [mine] + [begin] + [other] + [other];
    var s4 := M.After(s, labels);
    assert s4.threads[t].Restamp? && op.key !in s4.objects[ref];
    RefreshSteps(s4, t, spare);
    Then(s, labels, mine);
    RefreshSteps(M.Step(s4, mine), t, spare);
    Then(s, labels + [mine], mine);
    labels := labels + [mine] + [mine];
  }

  // ----- two writers on a missing namespace

  lemma CreatorSteps(s: M.State, t: ThreadId, spare: M.Ref)
    requires t in s.threads && s.threads[t].op.Writes()
    ensures var pc := s.threads[t];
            var l := M.Advance(t, spare);
            && (pc.Lookup? && pc.op.ns !in s.scopes && spare !in s.objects ==>
                  M.Enabled(s, l) && M.Step(s, l) == M.Goto(M.Update(s, spare, map[]), t, M.Create(pc.op, spare)))
            && (pc.Create? && pc.op.ns !in s.scopes ==>
                  M.Enabled(s, l) &&
                  M.Step(s, l) == M.Goto(s.(scopes := s.scopes[pc.op.ns := pc.spare]), t, M.Pc.Stamp(pc.op, pc.spare)))
            && (pc.Create? && pc.op.ns in s.scopes ==>
                  M.Enabled(s, l) && M.Step(s, l) == M.Goto(s, t, M.Pc.Stamp(pc.op, s.scopes[pc.op.ns])))
  {
  }

  /** Two writers can both find the namespace missing and both bring an object: they go on
      with the one that was published first, and the other stays unpublished. */
  lemma CreatorsCanRace(s: M.State, t: ThreadId, u: ThreadId, spare: M.Ref, loser: M.Ref) returns (labels: seq<M.Label>)
    requires M.Inv(s) && t in s.threads && u in s.threads && t != u && s.threads[t].Lookup? && s.threads[u].Lookup?
    requires s.threads[t].op.Writes() && s.threads[u].op.Writes()
    requires s.threads[t].op.ns == s.threads[u].op.ns && s.threads[t].op.ns !in s.scopes
    requires spare !in s.objects && loser !in s.objects && spare != loser
    ensures M.Runs(s, labels)
    ensures var end := M.After(s, labels);
            && end.scopes == s.scopes[s.threads[t].op.ns := spare]
            && end.threads == s.threads[t := M.Pc.Stamp(s.threads[t].op, spare)][u := M.Pc.Stamp(s.threads[u].op, spare)]
            && loser in end.objects && M.Inv(end) && M.Unpublished(end, loser)
  {
    hide M.Inv, M.Step, M.Enabled, M.Runs, M.After;
    Nothing(s);
    var l, m := M.Advance(t, spare), M.Advance(u, loser);
    CreatorSteps(s, t, spare);
    Then(s, [], l);
    var s1 := M.Step(s, l);
    CreatorSteps(s1, u, loser);
    Then(s, [] + [l], m);
    var s2 := M.Step(s1, m);
    CreatorSteps(s2, t, spare);
    Then(s, [] + [l] + [m], l);
    var s3 := M.Step(s2, l);
    CreatorSteps(s3, u, loser);
    Then(s, [] + [l] + [m] + [l], m);
    labels := [] + [l] + [m] + [l] + [m];
    M.RunKeepsInv(s, labels);
    NewcomerUnpublished(s, M.After(s, labels), s.threads[t].op.ns, spare, loser);
  }

  lemma NewcomerUnpublished(s: M.State, end: M.State, ns: Name, spare: M.Ref, loser: M.Ref)
    requires M.Inv(s) && loser !in s.objects && spare != loser
    requires end.scopes == s.scopes[ns := spare] && loser in end.objects && end.objects[loser] == map[]
    ensures M.Unpublished(end, loser)
  {
  }
}
