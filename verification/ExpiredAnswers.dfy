/** ExpiredItem answers. Reads compare with the clock after they have loaded the item, so the
    item they report as expired may never have been in the store while expired. */
module ExpiredAnswers {
  import opened Options
  import opened AtomicStore
  import M = StoreMachine
  import opened SerialStore

  /** The key holds an item that has not expired. */
  predicate LiveAt(s: M.State, ns: Name, key: Name) {
    && ns in s.scopes && s.scopes[ns] in s.objects
    && key in s.objects[s.scopes[ns]] && s.clock <= s.objects[s.scopes[ns]][key].purge
  }

  /** The key holds an item that has expired. */
  predicate ExpiredAt(s: M.State, ns: Name, key: Name) {
    && ns in s.scopes && s.scopes[ns] in s.objects
    && key in s.objects[s.scopes[ns]] && s.objects[s.scopes[ns]][key].purge < s.clock
  }

  ghost predicate LiveThroughout(s: M.State, labels: seq<M.Label>, ns: Name, key: Name)
    requires M.Runs(s, labels)
    decreases labels
  {
    LiveAt(s, ns, key) && (labels != [] ==> LiveThroughout(M.Step(s, labels[0]), labels[1..], ns, key))
  }

  /** At some moment of the run the key holds an expired item. */
  ghost predicate ExpiryShown(s: M.State, labels: seq<M.Label>, ns: Name, key: Name)
    requires M.Runs(s, labels)
    decreases labels
  {
    ExpiredAt(s, ns, key) || (labels != [] && ExpiryShown(M.Step(s, labels[0]), labels[1..], ns, key))
  }

  /** At some moment of the run the serial operation would give this answer. */
  ghost predicate SeriallyAnswered(s: M.State, labels: seq<M.Label>, op: Op, answer: Response)
    requires M.Inv(s) && M.Runs(s, labels)
    decreases labels
  {
    SerialAnswer(M.Database(s), op, s.clock) == answer ||
    (labels != [] && (
       M.StepKeepsInv(s, labels[0]);
       SeriallyAnswered(M.Step(s, labels[0]), labels[1..], op, answer)))
  }

  /** Those are the moments at which a read, done in one instant, would answer ExpiredItem. */
  lemma ExpiredAtIsSerial(s: M.State, op: Op)
    requires M.Inv(s) && (op.Read? || op.ReadAndRemove?)
    ensures SerialAnswer(M.Database(s), op, s.clock) == Failed(ExpiredItem) <==> ExpiredAt(s, op.ns, op.key)
  {
  }

  lemma {:induction false} ShownIsSerial(s: M.State, labels: seq<M.Label>, op: Op)
    requires M.Inv(s) && M.Runs(s, labels) && (op.Read? || op.ReadAndRemove?)
    ensures SeriallyAnswered(s, labels, op, Failed(ExpiredItem)) <==> ExpiryShown(s, labels, op.ns, op.key)
    decreases labels
  {
    ExpiredAtIsSerial(s, op);
    hide M.Inv, M.Step, M.Enabled, M.Database, ExpiredAt, SerialAnswer;
    if labels != [] {
      M.StepKeepsInv(s, labels[0]);
      ShownIsSerial(M.Step(s, labels[0]), labels[1..], op);
    }
  }

  /** A run from the step at which `t`'s read loads its item to its answer ExpiredItem. */
  ghost predicate EndsExpired(s: M.State, t: ThreadId, labels: seq<M.Label>)
    requires t in s.threads
  {
    && M.Runs(s, labels)
    && labels != [] && labels[0].Advance? && labels[0].t == t
    && M.Finish(t) !in labels
    && t in M.After(s, labels).threads
    && M.After(s, labels).threads[t] == M.Done(s.threads[t].op, Failed(ExpiredItem))
  }

  predicate AboutToLoad(s: M.State, t: ThreadId) {
    t in s.threads && s.threads[t].Fetch? && (s.threads[t].op.Read? || s.threads[t].op.ReadAndRemove?)
  }

  // ----- nothing live, nothing strange

  /** An answer stays until the call returns. */
  lemma {:induction false} AnswerStays(s: M.State, labels: seq<M.Label>, t: ThreadId)
    requires M.Runs(s, labels) && M.Finish(t) !in labels && t in s.threads && s.threads[t].Done?
    ensures t in M.After(s, labels).threads && M.After(s, labels).threads[t] == s.threads[t]
    decreases labels
  {
    if labels != [] {
      M.OthersStandAside(s, labels[0], t);
      hide M.Enabled, M.Step;
      AnswerStays(M.Step(s, labels[0]), labels[1..], t);
    }
  }

  /** A read that finds no item does not answer ExpiredItem. */
  lemma MissedIsNotExpired(s: M.State, t: ThreadId, labels: seq<M.Label>)
    requires M.Inv(s) && AboutToLoad(s, t) && EndsExpired(s, t, labels)
    ensures LiveAt(s, s.threads[t].op.ns, s.threads[t].op.key) || ExpiredAt(s, s.threads[t].op.ns, s.threads[t].op.key)
  {
    var op := s.threads[t].op;
    assert M.PcSound(s, s.threads[t]);
    if op.key !in s.objects[s.scopes[op.ns]] {
      var s1 := M.Step(s, labels[0]);
      assert s1.threads[t] == M.Done(op, Failed(InvalidKey));
      hide M.Inv, M.Step, M.Enabled;
      AnswerStays(s1, labels[1..], t);
    }
  }

  lemma MissedIsShown(s: M.State, t: ThreadId, labels: seq<M.Label>)
    requires M.Inv(s) && AboutToLoad(s, t) && EndsExpired(s, t, labels)
    requires !LiveAt(s, s.threads[t].op.ns, s.threads[t].op.key)
    ensures M.Runs(s, labels) && ExpiryShown(s, labels, s.threads[t].op.ns, s.threads[t].op.key)
  {
    MissedIsNotExpired(s, t, labels);
  }

  // ----- schedules

  lemma Prepend(s: M.State, l: M.Label, rest: seq<M.Label>, ns: Name, key: Name)
    requires M.Enabled(s, l) && M.Runs(M.Step(s, l), rest)
    ensures M.Runs(s, [l] + rest) && M.After(s, [l] + rest) == M.After(M.Step(s, l), rest)
    ensures LiveThroughout(s, [l] + rest, ns, key) <==>
              LiveAt(s, ns, key) && LiveThroughout(M.Step(s, l), rest, ns, key)
    ensures ExpiryShown(s, [l] + rest, ns, key) <==>
              ExpiredAt(s, ns, key) || ExpiryShown(M.Step(s, l), rest, ns, key)
  {
    hide M.Step, M.Enabled, LiveAt, ExpiredAt;
    assert ([l] + rest)[1..] == rest;
  }

  lemma {:induction false} LiveIsNotExpired(s: M.State, labels: seq<M.Label>, ns: Name, key: Name)
    requires M.Runs(s, labels) && LiveThroughout(s, labels, ns, key)
    ensures !ExpiryShown(s, labels, ns, key)
    decreases labels
  {
    if labels != [] {
      hide M.Step, M.Enabled;
      LiveIsNotExpired(M.Step(s, labels[0]), labels[1..], ns, key);
    }
  }

  /** Finitely many threads and objects leave others to come. */
  lemma {:induction false} Bound(taken: set<nat>) returns (n: nat)
    ensures forall m :: m in taken ==> m < n
    decreases |taken|
  {
    n := 0;
    if taken != {} {
      var m :| m in taken;
      var rest := Bound(taken - {m});
      assert forall k :: k in taken ==> k == m || k in taken - {m};
      n := if rest <= m then m + 1 else rest;
    }
  }

  lemma {:induction false} LiveJoin(s: M.State, first: seq<M.Label>, rest: seq<M.Label>, ns: Name, key: Name)
    requires M.Runs(s, first) && M.Runs(M.After(s, first), rest)
    requires LiveThroughout(s, first, ns, key) && LiveThroughout(M.After(s, first), rest, ns, key)
    ensures M.Runs(s, first + rest) && LiveThroughout(s, first + rest, ns, key)
    ensures M.After(s, first + rest) == M.After(M.After(s, first), rest)
    decreases first
  {
    hide M.Step, M.Enabled, LiveAt;
    if first == [] {
      assert [] + rest == rest;
    } else {
      LiveJoin(M.Step(s, first[0]), first[1..], rest, ns, key);
      Prepend(s, first[0], first[1..] + rest, ns, key);
      assert first + rest == [first[0]] + (first[1..] + rest);
    }
  }

  /** The four steps of a Set on an open namespace. */
  lemma SetSteps(s: M.State, u: ThreadId, op: Op, spare: M.Ref)
    requires u !in s.threads && spare !in s.objects && op.Set? && op.ns in s.scopes && s.scopes[op.ns] in s.objects
    ensures var ref := s.scopes[op.ns];
            var item := Item(s.clock + op.ttl, op.value);
            var begin, l := M.Label.Begin(u, op), M.Advance(u, spare);
            var s1 := M.Goto(s, u, M.Pc.Lookup(op));
            var s2 := M.Goto(s, u, M.Pc.Stamp(op, ref));
            var s3 := M.Goto(s, u, M.Write(op, ref, item));
            var s4 := M.Goto(M.Update(s, ref, s.objects[ref][op.key := item]), u, M.Done(op, Ok));
            && M.Enabled(s, begin) && M.Step(s, begin) == s1
            && M.Enabled(s1, l) && M.Step(s1, l) == s2
            && M.Enabled(s2, l) && M.Step(s2, l) == s3
            && M.Enabled(s3, l) && M.Step(s3, l) == s4
  {
    assert s.objects[s.scopes[op.ns] := s.objects[s.scopes[op.ns]]] == s.objects;
  }

  /** Another thread sets the key, step by step, while it holds a live item. */
  lemma Overwriting(s: M.State, u: ThreadId, op: Op, spare: M.Ref) returns (labels: seq<M.Label>)
    requires u !in s.threads && spare !in s.objects && op.Set? && op.ttl >= 0
    requires LiveAt(s, op.ns, op.key)
    ensures M.Runs(s, labels) && LiveThroughout(s, labels, op.ns, op.key)
    ensures forall i :: 0 <= i < |labels| ==> !labels[i].Finish?
    ensures var ref := s.scopes[op.ns];
            M.After(s, labels) == s.(
              threads := s.threads[u := M.Done(op, Ok)],
              objects := s.objects[ref := s.objects[ref][op.key := Item(s.clock + op.ttl, op.value)]])
  {
    var ref := s.scopes[op.ns];
    var item := Item(s.clock + op.ttl, op.value);
    var begin, l := M.Label.Begin(u, op), M.Advance(u, spare);
    var s1 := M.Goto(s, u, M.Pc.Lookup(op));
    var s2 := M.Goto(s, u, M.Pc.Stamp(op, ref));
    var s3 := M.Goto(s, u, M.Write(op, ref, item));
    var s4 := M.Goto(M.Update(s, ref, s.objects[ref][op.key := item]), u, M.Done(op, Ok));
    hide M.Step, M.Enabled;
    SetSteps(s, u, op, spare);
    Prepend(s3, l, [], op.ns, op.key);
    Prepend(s2, l, [l] + [], op.ns, op.key);
    Prepend(s1, l, [l] + ([l] + []), op.ns, op.key);
    labels := [begin] + ([l] + ([l] + ([l] + [])));
    Prepend(s, begin, [l] + ([l] + ([l] + [])), op.ns, op.key);
  }

  /** Time passes, and the read looks at the clock. */
  lemma LateCheck(s: M.State, t: ThreadId, spare: M.Ref, to: Time, ns: Name, key: Name)
    requires t in s.threads && s.threads[t].Check?
    requires s.clock <= to && s.threads[t].item.purge < to
    requires ns in s.scopes && s.scopes[ns] in s.objects
    ensures var labels := [M.Label.Tick(to), M.Advance(t, spare)];
            && M.Runs(s, labels)
            && M.After(s, labels) == s.(clock := to, threads := s.threads[t := M.Done(s.threads[t].op, Failed(ExpiredItem))])
            && (LiveAt(s.(clock := to), ns, key) ==> LiveThroughout(s, labels, ns, key))
            && (key !in s.objects[s.scopes[ns]] ==> !ExpiryShown(s, labels, ns, key))
  {
    var s1, s2 := M.Step(s, M.Label.Tick(to)), M.Step(M.Step(s, M.Label.Tick(to)), M.Advance(t, spare));
    Prepend(s1, M.Advance(t, spare), [], ns, key);
    Prepend(s, M.Label.Tick(to), [M.Advance(t, spare)] + [], ns, key);
    assert [M.Label.Tick(to)] + ([M.Advance(t, spare)] + []) == [M.Label.Tick(to), M.Advance(t, spare)];
  }

  /** The load of a live item. */
  lemma LoadStep(s: M.State, t: ThreadId, spare: M.Ref)
    requires M.Inv(s) && AboutToLoad(s, t) && LiveAt(s, s.threads[t].op.ns, s.threads[t].op.key)
    ensures M.Enabled(s, M.Advance(t, spare))
    ensures var op := s.threads[t].op;
            var ref := s.scopes[op.ns];
            var keys := s.objects[ref];
            M.Step(s, M.Advance(t, spare)) ==
              M.Goto(if op.Read? then s else M.Update(s, ref, keys - {op.key}), t, M.Check(op, keys[op.key]))
  {
    assert M.PcSound(s, s.threads[t]);
    hide M.Inv, M.PcSound;
  }

  lemma TakenFrom(s: M.State, end: M.State, ns: Name, key: Name)
    requires M.Inv(s) && M.Inv(end) && ns in s.scopes && end.scopes == s.scopes
    requires end.objects == s.objects[s.scopes[ns] := s.objects[s.scopes[ns]] - {key}]
    ensures M.Database(end) == Delete(M.Database(s), ns, key)
  {
  }

  // ----- when ExpiredItem can be believed

  /** ExpiredItem does not mean that the key ever held an expired item: whenever a Read is
      about to load a live item, some schedule makes it answer ExpiredItem although the key
      holds a live item at every moment from before the load to the answer. */
  lemma ExpiredWithoutExpiry(s: M.State, t: ThreadId) returns (labels: seq<M.Label>)
    requires M.Inv(s) && AboutToLoad(s, t) && s.threads[t].op.Read?
    requires LiveAt(s, s.threads[t].op.ns, s.threads[t].op.key)
    ensures EndsExpired(s, t, labels)
    ensures LiveThroughout(s, labels, s.threads[t].op.ns, s.threads[t].op.key)
  {
    hide M.Inv, M.Step, M.Enabled;
    var op := s.threads[t].op;
    var item := s.objects[s.scopes[op.ns]][op.key];
    var u := Bound(s.threads.Keys);
    var spare := Bound(s.objects.Keys);
    assert u !in s.threads.Keys && spare !in s.objects.Keys;
    var load := M.Advance(t, spare);
    LoadStep(s, t, spare);
    var s1 := M.Step(s, load);
    var writes := Overwriting(s1, u, Set(op.ns, op.key, item.value, item.purge + 1 - s.clock), spare);
    var s2 := M.After(s1, writes);
    LateCheck(s2, t, spare, item.purge + 1, op.ns, op.key);
    var late := [M.Label.Tick(item.purge + 1), M.Advance(t, spare)];
    LiveJoin(s1, writes, late, op.ns, op.key);
    Prepend(s, load, writes + late, op.ns, op.key);
    labels := [load] + (writes + late);
  }

  /** Nor that the item may be forgotten: a ReadAndRemove about to take a live item can be
      scheduled to answer ExpiredItem with no other thread moving. The item is gone from the
      store, at no moment was it there expired, and nobody has received it. */
  lemma LiveItemCanBeLost(s: M.State, t: ThreadId) returns (labels: seq<M.Label>)
    requires M.Inv(s) && AboutToLoad(s, t) && s.threads[t].op.ReadAndRemove?
    requires LiveAt(s, s.threads[t].op.ns, s.threads[t].op.key)
    ensures EndsExpired(s, t, labels)
    ensures !ExpiryShown(s, labels, s.threads[t].op.ns, s.threads[t].op.key)
    ensures var op, end := s.threads[t].op, M.After(s, labels);
            && M.Inv(end)
            && M.Database(end) == Delete(M.Database(s), op.ns, op.key)
            && end.threads == s.threads[t := M.Done(op, Failed(ExpiredItem))]
  {
    hide M.Inv, M.Step, M.Enabled;
    var op := s.threads[t].op;
    var ref := s.scopes[op.ns];
    var item := s.objects[ref][op.key];
    var load := M.Advance(t, 0);
    LoadStep(s, t, 0);
    var s1 := M.Step(s, load);
    LateCheck(s1, t, 0, item.purge + 1, op.ns, op.key);
    var late := [M.Label.Tick(item.purge + 1), M.Advance(t, 0)];
    Prepend(s, load, late, op.ns, op.key);
    labels := [load] + late;
    M.RunKeepsInv(s, labels);
    TakenFrom(s, M.After(s, labels), op.ns, op.key);
  }

  /** Whether ExpiredItem can be believed is settled at the load: in every run in which a
      read ends with it, the serial read would have given that answer at some moment since
      the load, exactly when the key holds no live item at the load. */
  lemma ExpiredIsExpiredExactlyWhen(s: M.State, t: ThreadId)
    requires M.Inv(s) && AboutToLoad(s, t)
    ensures var op := s.threads[t].op;
            (forall labels :: EndsExpired(s, t, labels) ==> SeriallyAnswered(s, labels, op, Failed(ExpiredItem)))
            <==> !LiveAt(s, op.ns, op.key)
  {
    hide M.Inv, SeriallyAnswered, ExpiryShown;
    var op := s.threads[t].op;
    if !LiveAt(s, op.ns, op.key) {
      forall labels | EndsExpired(s, t, labels)
        ensures SeriallyAnswered(s, labels, op, Failed(ExpiredItem))
      {
        MissedIsShown(s, t, labels);
        ShownIsSerial(s, labels, op);
      }
    } else if op.Read? {
      var labels := ExpiredWithoutExpiry(s, t);
      LiveIsNotExpired(s, labels, op.ns, op.key);
      ShownIsSerial(s, labels, op);
    } else {
      var labels := LiveItemCanBeLost(s, t);
      ShownIsSerial(s, labels, op);
    }
  }
}
