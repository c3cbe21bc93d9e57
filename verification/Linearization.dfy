/** Every interleaving of the running store is a run of the atomic object: each call acts at
    exactly one of its steps, between its beginning and its end. */
module Linearization {
  import opened Options
  import A = AtomicStore
  import opened AtomicStore
  import opened M = StoreMachine

  /** What a step on the namespace's object amounts to for the atomic object, if anything. */
  function EffectOf(pc: Pc, keys: map<Name, Item>): Option<Effect>
    requires Holds(pc)
  {
    var key := pc.op.key;
    match pc
    case Write(op, _, item) =>
      if key !in keys then Some(if op.CheckAndSet? then Inserted(item) else Wrote(item))
      else Some(if op.CheckAndSet? then Refused(keys[key]) else Overwrote(keys[key], item))
    case Fetch(op, _) =>
      if key !in keys then Some(NoKey)
      else if op.Read? then Some(Looked(keys[key]))
      else if op.ReadAndRemove? then Some(Took(keys[key]))
      else if op.Remove? then Some(Removed(keys[key]))
      else None
    case Swap(_, _, seen, item) =>
      if key in keys && keys[key] == seen then Some(Swapped(seen, item)) else Some(Changed(seen))
    case _ => None
  }

  function ActOrStutter(t: ThreadId, effect: Option<Effect>): Action {
    if effect.Some? then Act(t, effect.value) else Stutter
  }

  /** The atomic step a concrete step stands for. */
  function ActionOf(s: M.State, l: Label): Action
    requires M.Enabled(s, l)
  {
    match l
    case Tick(to) => Action.Tick(to)
    case Begin(t, op) => Action.Begin(t, op)
    case Finish(t) => Answer(t)
    case Advance(t, _) =>
      var pc := s.threads[t];
      if Holds(pc) then ActOrStutter(t, EffectOf(pc, s.objects[pc.ref]))
      else if pc.Lookup? then
        if pc.op.ns in s.scopes || pc.op.Writes() then Stutter else Act(t, NoNamespace)
      else if pc.Create? then
        if pc.op.ns in s.scopes then Stutter else Open(t)
      else Judge(t)
    case TestAndDelete(c, key) =>
      var p := s.passes[c];
      if p.fetched[key].purge < p.now && key in s.objects[p.ref] && s.objects[p.ref][key] == p.fetched[key]
      then Collect(p.ns, key, p.fetched[key], p.now)
      else Stutter
    case _ => Stutter
  }

  /** A thread's place in the code and the status of its call agree. */
  ghost predicate Matches(pc: Pc, call: Status, log: seq<Entry>, clock: Time) {
    && call.op == pc.op
    && match pc
       case Check(op, item) =>
         call.Acted? && call.index < |log| && log[call.index].Called? &&
         log[call.index].effect == if op.Read? then Looked(item) else Took(item)
       case Done(_, response) => call.Answered? && call.response == response
       case Write(op, _, item) =>
         op.Writes() && call.Pending? && call.begun <= item.purge - op.ttl <= clock
       case Restamp(op, _, seen) =>
         call.Pending? && HeldSince(log, call.since, op.ns, op.key, seen)
       case Swap(op, _, seen, item) =>
         op.Refresh? && call.Pending? && call.begun <= item.purge - op.ttl <= clock &&
         HeldSince(log, call.since, op.ns, op.key, seen)
       case _ => call.Pending?
  }

  ghost predicate Simulates(s: M.State, a: A.State) {
    && M.Inv(s) && A.Inv(a)
    && a.db == Database(s)
    && a.clock == s.clock
    && a.calls.Keys == s.threads.Keys
    && forall t :: t in s.threads ==> Matches(s.threads[t], a.calls[t], a.log, a.clock)
  }

  lemma InitiallySimulates(s: M.State)
    requires Initial(s)
    ensures Simulates(s, A.State(map[], s.clock, map[], []))
  {
    InitialInv(s);
  }

  // ----- the contents

  /** Rewriting one published object rewrites one namespace. */
  lemma UpdateIsLocal(s: M.State, ns: Name, keys: map<Name, Item>)
    requires M.Inv(s) && ns in s.scopes
    ensures Database(Update(s, s.scopes[ns], keys)) == Database(s)[ns := keys]
  {
  }

  /** A step on the object is its effect on the contents. */
  lemma TouchIsEffect(db: Contents, pc: Pc, clock: Time)
    requires Holds(pc) && pc.op.ns in db
    requires pc.Write? ==> pc.op.Writes()
    ensures var effect := EffectOf(pc, db[pc.op.ns]);
            var keys := Touch(pc, db[pc.op.ns], clock).1;
            && (effect.None? ==> db[pc.op.ns := keys] == db)
            && (effect.Some? ==> effect.value != NoNamespace &&
                                 db[pc.op.ns := keys] == Effected(db, pc.op.ns, pc.op.key, effect.value))
  {
  }

  /** The effect is the one the contents call for, with the answer the code gives. */
  lemma TouchIsLegal(s: M.State, t: ThreadId, pc: Pc, call: Status, log: seq<Entry>)
    requires M.Inv(s) && Holds(pc) && PcSound(s, pc) && Matches(pc, call, log, s.clock)
    requires call.Pending? && call.begun <= s.clock
    requires EffectOf(pc, s.objects[pc.ref]).Some?
    ensures var effect := EffectOf(pc, s.objects[pc.ref]).value;
            && Legal(Database(s), Acting(t, call, effect, s.clock)) && Justified(log, Acting(t, call, effect, s.clock))
            && var next := Touch(pc, s.objects[pc.ref], s.clock).0;
               if ReadsClockLast(effect)
               then next.Check? && next.op == pc.op && effect == (if pc.op.Read? then Looked(next.item) else Took(next.item))
               else next == Done(pc.op, Verdict(pc.op, effect, s.clock))
  {
  }

  // ----- the simulation, step by step

  lemma MatchesLater(pc: Pc, call: Status, log: seq<Entry>, more: seq<Entry>, c: Time, d: Time)
    requires Matches(pc, call, log, c) && c <= d && log <= more
    ensures Matches(pc, call, more, d)
  {
    if pc.Restamp? || pc.Swap? {
      HeldSinceLater(log, more, call.since, pc.op.ns, pc.op.key, pc.seen);
    }
  }

  /** Whoever does not move still matches. */
  lemma BystandersMatch(s: M.State, a: A.State, b: A.State, t: ThreadId)
    requires Simulates(s, a) && a.log <= b.log && a.clock <= b.clock
    ensures forall u :: u in s.threads && u != t ==> Matches(s.threads[u], a.calls[u], b.log, b.clock)
  {
    forall u | u in s.threads && u != t
      ensures Matches(s.threads[u], a.calls[u], b.log, b.clock)
    {
      MatchesLater(s.threads[u], a.calls[u], a.log, b.log, a.clock, b.clock);
    }
  }

  /** What a step of thread `t` relies on. */
  ghost predicate Local(s: M.State, a: A.State, t: ThreadId) {
    && t in s.threads && t in a.calls
    && (forall ns :: ns in s.scopes ==> s.scopes[ns] in s.objects)
    && PcSound(s, s.threads[t])
    && Matches(s.threads[t], a.calls[t], a.log, a.clock)
    && (a.calls[t].Pending? ==> a.calls[t].begun <= a.clock && a.calls[t].since <= |a.log|)
    && Replay(a.log) == a.db
    && IndicesValid(a)
    && a.db == Database(s) && a.clock == s.clock
  }

  lemma SimulatesLocally(s: M.State, a: A.State, t: ThreadId)
    requires Simulates(s, a) && t in s.threads
    ensures Local(s, a, t)
  {
    InvImpliesIndices(a);
    assert t in s.threads.Keys;
    assert CallMatchesLog(a, t);
  }

  /** The atomic object can take the step, and its contents and `t`'s call still agree. */
  ghost predicate MoverMatches(s: M.State, a: A.State, t: ThreadId, spare: Ref)
    requires M.Enabled(s, Advance(t, spare))
  {
    var l := Advance(t, spare);
    var x := ActionOf(s, l);
    && IndicesValid(a) && A.Enabled(a, x)
    && t in M.Step(s, l).threads && t in A.Step(a, x).calls
    && Matches(M.Step(s, l).threads[t], A.Step(a, x).calls[t], A.Step(a, x).log, A.Step(a, x).clock)
    && (forall ns :: ns in M.Step(s, l).scopes ==> M.Step(s, l).scopes[ns] in M.Step(s, l).objects)
    && A.Step(a, x).db == Database(M.Step(s, l))
  }

  /** An advancing thread moves nobody else, on either side. */
  lemma OnlyTheMover(s: M.State, a: A.State, t: ThreadId, spare: Ref)
    requires M.Enabled(s, Advance(t, spare)) && t in a.calls
    requires IndicesValid(a) && A.Enabled(a, ActionOf(s, Advance(t, spare)))
    ensures var s' := M.Step(s, Advance(t, spare));
            t in s'.threads && s'.threads == s.threads[t := s'.threads[t]] && s'.clock == s.clock
    ensures var b := A.Step(a, ActionOf(s, Advance(t, spare)));
            t in b.calls && b.calls == a.calls[t := b.calls[t]] && b.clock == a.clock
  {
    hide Touch, EffectOf, Legal, Apply, IndicesValid, Verdict;
  }

  lemma MoverSuffices(s: M.State, a: A.State, t: ThreadId, spare: Ref)
    requires Simulates(s, a) && M.Enabled(s, Advance(t, spare)) && MoverMatches(s, a, t, spare)
    ensures StepSimulates(s, a, Advance(t, spare))
  {
    hide M.Inv, A.Inv, A.Step, M.Step, ActionOf, Matches, Database, Legal, IndicesValid;
    var l := Advance(t, spare);
    var x := ActionOf(s, l);
    M.StepKeepsInv(s, l);
    A.StepKeepsInv(a, x);
    OnlyTheMover(s, a, t, spare);
    BystandersMatch(s, a, A.Step(a, x), t);
  }

  lemma HolderStep(s: M.State, t: ThreadId, spare: Ref)
    requires M.Inv(s) && M.Enabled(s, Advance(t, spare)) && Holds(s.threads[t]) && PcSound(s, s.threads[t])
    ensures var s' := M.Step(s, Advance(t, spare));
            var pc := s.threads[t];
            var (next, keys) := Touch(pc, Database(s)[pc.op.ns], s.clock);
            && s.objects[pc.ref] == Database(s)[pc.op.ns]
            && s'.threads == s.threads[t := next]
            && (forall ns :: ns in s'.scopes ==> s'.scopes[ns] in s'.objects)
            && Database(s') == Database(s)[pc.op.ns := keys]
  {
    var pc := s.threads[t];
    var keys := Touch(pc, s.objects[pc.ref], s.clock).1;
    hide Touch;
    UpdateIsLocal(s, pc.op.ns, keys);
  }

  /** A holder's step that the atomic object does not see. */
  lemma SilentHolder(s: M.State, a: A.State, t: ThreadId, spare: Ref)
    requires Local(s, a, t) && M.Inv(s) && M.Enabled(s, Advance(t, spare)) && Holds(s.threads[t])
    requires EffectOf(s.threads[t], s.objects[s.threads[t].ref]).None?
    ensures MoverMatches(s, a, t, spare)
  {
    var pc := s.threads[t];
    HolderStep(s, t, spare);
    TouchIsEffect(Database(s), pc, s.clock);
    hide Database, M.Step, M.Inv, IndicesValid;
  }

  lemma ActStep(a: A.State, t: ThreadId, effect: Effect)
    requires IndicesValid(a) && A.Enabled(a, Act(t, effect)) && a.calls[t].op.ns in a.db && effect != NoNamespace
    ensures var b := A.Step(a, Act(t, effect));
            var op := a.calls[t].op;
            && b.db == Effected(a.db, op.ns, op.key, effect) && b.clock == a.clock
            && b.log == a.log + [Acting(t, a.calls[t], effect, a.clock)]
            && t in b.calls
            && b.calls[t] == if ReadsClockLast(effect) then Acted(op, |a.log|) else Answered(op, |a.log|, Verdict(op, effect, a.clock))
  {
    hide Legal, Effected, Verdict, IndicesValid;
  }

  lemma ActedMatches(pc: Pc, next: Pc, t: ThreadId, call: Status, effect: Effect, log: seq<Entry>, clock: Time)
    requires call.Pending? && call.op == pc.op
    requires if ReadsClockLast(effect)
             then next.Check? && next.op == pc.op && effect == (if pc.op.Read? then Looked(next.item) else Took(next.item))
             else next == Done(pc.op, Verdict(pc.op, effect, clock))
    ensures var acted := if ReadsClockLast(effect) then Acted(pc.op, |log|) else Answered(pc.op, |log|, Verdict(pc.op, effect, clock));
            Matches(next, acted, log + [Acting(t, call, effect, clock)], clock)
  {
  }

  /** A holder's step that is the call's one atomic action. */
  lemma ActingHolder(s: M.State, a: A.State, t: ThreadId, spare: Ref)
    requires Local(s, a, t) && M.Inv(s) && M.Enabled(s, Advance(t, spare)) && Holds(s.threads[t])
    requires EffectOf(s.threads[t], s.objects[s.threads[t].ref]).Some?
    ensures MoverMatches(s, a, t, spare)
  {
    var pc := s.threads[t];
    HolderStep(s, t, spare);
    TouchIsEffect(Database(s), pc, s.clock);
    TouchIsLegal(s, t, pc, a.calls[t], a.log);
    var effect := EffectOf(pc, s.objects[pc.ref]).value;
    assert ActionOf(s, Advance(t, spare)) == Act(t, effect) && a.calls[t].op == pc.op;
    hide EffectOf, Touch, Legal, Effected, Database, M.Step, M.Inv, M.Enabled, PcSound, Verdict, IndicesValid, ActionOf;
    ActStep(a, t, effect);
    ActedMatches(pc, Touch(pc, Database(s)[pc.op.ns], s.clock).0, t, a.calls[t], effect, a.log, a.clock);
    hide A.Step, Matches, A.Enabled;
  }

  /** The step that looks the namespace up. */
  lemma LookupStep(s: M.State, t: ThreadId, spare: Ref)
    requires (forall ns :: ns in s.scopes ==> s.scopes[ns] in s.objects)
    requires M.Enabled(s, Advance(t, spare)) && s.threads[t].Lookup?
    ensures var s' := M.Step(s, Advance(t, spare));
            var op := s.threads[t].op;
            && s'.scopes == s.scopes && (forall ns :: ns in s'.scopes ==> s'.scopes[ns] in s'.objects)
            && Database(s') == Database(s) && s'.clock == s.clock && t in s'.threads
            && s'.threads[t] ==
                 if op.ns in s.scopes then Resolved(op, s.scopes[op.ns])
                 else if op.Writes() then Pc.Create(op, spare)
                 else Done(op, if op.Remove? then Ok else Failed(InvalidNamespace))
  {
  }

  lemma LookupSimulates(s: M.State, a: A.State, t: ThreadId, spare: Ref)
    requires Local(s, a, t) && M.Enabled(s, Advance(t, spare)) && s.threads[t].Lookup?
    ensures MoverMatches(s, a, t, spare)
  {
    LookupStep(s, t, spare);
    assert s.threads[t].op.ns in s.scopes <==> s.threads[t].op.ns in Database(s);
    hide IndicesValid, PcSound, M.Step, Database, HeldSince;
  }

  /** The step that publishes the new object, or finds that another one was quicker. */
  lemma CreateStep(s: M.State, t: ThreadId, spare: Ref)
    requires (forall ns :: ns in s.scopes ==> s.scopes[ns] in s.objects) && t in s.threads && PcSound(s, s.threads[t])
    requires M.Enabled(s, Advance(t, spare)) && s.threads[t].Create?
    ensures var s' := M.Step(s, Advance(t, spare));
            var op := s.threads[t].op;
            && op.Writes() && (forall ns :: ns in s'.scopes ==> s'.scopes[ns] in s'.objects)
            && s'.clock == s.clock && t in s'.threads && s'.threads[t].Stamp? && s'.threads[t].op == op
            && Database(s') == if op.ns in Database(s) then Database(s) else Database(s)[op.ns := map[]]
  {
  }

  lemma CreateSimulates(s: M.State, a: A.State, t: ThreadId, spare: Ref)
    requires Local(s, a, t) && M.Enabled(s, Advance(t, spare)) && s.threads[t].Create?
    ensures MoverMatches(s, a, t, spare)
  {
    CreateStep(s, t, spare);
    assert s.threads[t].op.ns in s.scopes <==> s.threads[t].op.ns in Database(s);
    hide IndicesValid, PcSound, M.Step, Database, HeldSince;
  }

  lemma CheckSimulates(s: M.State, a: A.State, t: ThreadId, spare: Ref)
    requires Local(s, a, t) && M.Enabled(s, Advance(t, spare)) && s.threads[t].Check?
    ensures MoverMatches(s, a, t, spare)
  {
    assert Database(M.Step(s, Advance(t, spare))) == Database(s);
    hide Database;
  }

  lemma TickSimulates(s: M.State, a: A.State, to: Time)
    requires Simulates(s, a) && M.Enabled(s, Label.Tick(to))
    ensures StepSimulates(s, a, Label.Tick(to))
  {
    M.StepKeepsInv(s, Label.Tick(to));
    A.StepKeepsInv(a, Action.Tick(to));
    hide M.Inv, A.Inv, Database;
    forall u | u in s.threads
      ensures Matches(s.threads[u], a.calls[u], a.log, to)
    {
      MatchesLater(s.threads[u], a.calls[u], a.log, a.log, a.clock, to);
    }
  }

  lemma BoundaryStep(s: M.State, l: Label)
    requires M.Inv(s) && M.Enabled(s, l) && (l.Begin? || l.Finish?)
    ensures M.Inv(M.Step(s, l)) && Database(M.Step(s, l)) == Database(s)
  {
    M.StepKeepsInv(s, l);
  }

  lemma BeginSimulates(s: M.State, a: A.State, t: ThreadId, op: Op)
    requires Simulates(s, a) && M.Enabled(s, Label.Begin(t, op))
    ensures StepSimulates(s, a, Label.Begin(t, op))
  {
    var x := Action.Begin(t, op);
    assert t !in s.threads.Keys;
    BoundaryStep(s, Label.Begin(t, op));
    A.StepKeepsInv(a, x);
    BystandersMatch(s, a, A.Step(a, x), t);
    assert Matches(Pc.Lookup(op), Pending(op, a.clock, |a.log|), a.log, a.clock);
    hide M.Inv, A.Inv, Database, IndicesValid, Matches;
  }

  lemma FinishSimulates(s: M.State, a: A.State, t: ThreadId)
    requires Simulates(s, a) && M.Enabled(s, Finish(t))
    ensures StepSimulates(s, a, Finish(t))
  {
    assert t in s.threads.Keys && Matches(s.threads[t], a.calls[t], a.log, a.clock);
    BoundaryStep(s, Finish(t));
    A.StepKeepsInv(a, Answer(t));
    BystandersMatch(s, a, A.Step(a, Answer(t)), t);
    hide M.Inv, A.Inv, Database, IndicesValid, Matches;
  }

  /** A pass's step is a collection, or nothing the atomic object sees. */
  lemma PassAction(s: M.State, l: Label)
    requires M.Inv(s) && M.Enabled(s, l) && IsPassStep(l)
    ensures ActionOf(s, l) ==
              if Deletes(s, l)
              then Collect(s.passes[l.c].ns, l.key, s.passes[l.c].fetched[l.key], s.passes[l.c].now)
              else Stutter
    ensures Deletes(s, l) ==>
              var p := s.passes[l.c];
              Legal(Database(s), Collected(p.ns, l.key, p.fetched[l.key], p.now, s.clock)) && p.ns in Database(s)
  {
    PassStepContents(s, l);
    hide M.Inv, Database, M.Step;
  }

  lemma PassStepActs(s: M.State, a: A.State, l: Label)
    requires Simulates(s, a) && M.Enabled(s, l) && IsPassStep(l)
    ensures var x := ActionOf(s, l);
            && IndicesValid(a) && A.Enabled(a, x)
            && A.Step(a, x).db == Database(M.Step(s, l)) && A.Step(a, x).calls == a.calls && A.Step(a, x).clock == a.clock
  {
    InvImpliesIndices(a);
    PassStepContents(s, l);
    PassAction(s, l);
    assert a.db == Database(s) && a.clock == s.clock;
    hide M.Inv, A.Inv, Database, M.Step, M.Enabled, ActionOf, IndicesValid, Simulates, Deletes, Legal;
  }

  lemma PassStepSimulates(s: M.State, a: A.State, l: Label)
    requires Simulates(s, a) && M.Enabled(s, l) && IsPassStep(l)
    ensures StepSimulates(s, a, l)
  {
    var x := ActionOf(s, l);
    PassStepContents(s, l);
    PassStepActs(s, a, l);
    A.StepKeepsInv(a, x);
    var b := A.Step(a, x);
    hide M.Inv, A.Inv, Database, A.Step, M.Step, ActionOf, A.Enabled, M.Enabled, IndicesValid;
    forall u | u in s.threads
      ensures Matches(s.threads[u], a.calls[u], b.log, b.clock)
    {
      MatchesLater(s.threads[u], a.calls[u], a.log, b.log, a.clock, b.clock);
    }
  }

  ghost predicate StepSimulates(s: M.State, a: A.State, l: Label)
    requires M.Enabled(s, l)
  {
    && IndicesValid(a)
    && A.Enabled(a, ActionOf(s, l))
    && Simulates(M.Step(s, l), A.Step(a, ActionOf(s, l)))
  }

  /** The forward simulation: whatever the running store does in one step, the atomic object
      can do, and they still agree. */
  lemma EveryStepSimulates(s: M.State, a: A.State, l: Label)
    requires Simulates(s, a) && M.Enabled(s, l)
    ensures StepSimulates(s, a, l)
  {
    if IsPassStep(l) {
      PassStepSimulates(s, a, l);
    } else if l.Advance? {
      var t, spare := l.t, l.spare;
      var pc := s.threads[t];
      SimulatesLocally(s, a, t);
      if Holds(pc) {
        if EffectOf(pc, s.objects[pc.ref]).None? {
          SilentHolder(s, a, t, spare);
        } else {
          ActingHolder(s, a, t, spare);
        }
      } else if pc.Lookup? {
        LookupSimulates(s, a, t, spare);
      } else if pc.Create? {
        CreateSimulates(s, a, t, spare);
      } else {
        CheckSimulates(s, a, t, spare);
      }
      MoverSuffices(s, a, t, spare);
    } else if l.Tick? {
      TickSimulates(s, a, l.to);
    } else if l.Begin? {
      BeginSimulates(s, a, l.t, l.op);
    } else {
      FinishSimulates(s, a, l.t);
    }
  }

  // ----- whole runs

  /** The atomic run that a concrete run stands for. */
  ghost function Shadow(s: M.State, a: A.State, labels: seq<Label>): A.State
    requires Simulates(s, a) && Runs(s, labels)
    decreases labels
  {
    if labels == [] then a
    else
      EveryStepSimulates(s, a, labels[0]);
      Shadow(M.Step(s, labels[0]), A.Step(a, ActionOf(s, labels[0])), labels[1..])
  }

  /** Linearizability: after every run of the store from its empty state there is a run of
      the atomic object with the same contents and the same calls in flight or answered;
      its log is legal entry by entry, replays to the contents, and only grows. */
  lemma {:induction false} EveryRunLinearizes(s: M.State, a: A.State, labels: seq<Label>)
    requires Simulates(s, a) && Runs(s, labels)
    ensures Simulates(After(s, labels), Shadow(s, a, labels))
    ensures a.log <= Shadow(s, a, labels).log && a.clock <= Shadow(s, a, labels).clock
    decreases labels
  {
    if labels != [] {
      EveryStepSimulates(s, a, labels[0]);
      A.StepKeepsInv(a, ActionOf(s, labels[0]));
      EveryRunLinearizes(M.Step(s, labels[0]), A.Step(a, ActionOf(s, labels[0])), labels[1..]);
    }
  }

  /** What a run stands for in two parts. */
  lemma {:induction false} ShadowSplit(s: M.State, a: A.State, first: seq<Label>, rest: seq<Label>)
    requires Simulates(s, a) && Runs(s, first + rest)
    ensures Runs(s, first) && Runs(After(s, first), rest)
    ensures Simulates(After(s, first), Shadow(s, a, first))
    ensures After(s, first + rest) == After(After(s, first), rest)
    ensures Shadow(s, a, first + rest) == Shadow(After(s, first), Shadow(s, a, first), rest)
    decreases first
  {
    hide Simulates, A.Step, M.Step, ActionOf, A.Enabled, M.Enabled;
    if first == [] {
      assert [] + rest == rest;
    } else {
      assert (first + rest)[0] == first[0] && (first + rest)[1..] == first[1..] + rest;
      EveryStepSimulates(s, a, first[0]);
      ShadowSplit(M.Step(s, first[0]), A.Step(a, ActionOf(s, first[0])), first[1..], rest);
    }
  }

  /** The linearization of a run that starts from the empty store. */
  ghost function History(s: M.State, labels: seq<Label>): seq<Entry>
    requires Initial(s) && Runs(s, labels)
  {
    InitiallySimulates(s);
    Shadow(s, A.State(map[], s.clock, map[], []), labels).log
  }

  /** A reachable store holds what its history, replayed one entry after the other, leaves. */
  lemma ContentsAreReplayed(s: M.State, labels: seq<Label>)
    requires Initial(s) && Runs(s, labels)
    ensures M.Inv(After(s, labels))
    ensures LegalLog(History(s, labels), After(s, labels).clock)
    ensures Database(After(s, labels)) == Replay(History(s, labels))
  {
    InitiallySimulates(s);
    EveryRunLinearizes(s, A.State(map[], s.clock, map[], []), labels);
  }

  // ----- each call acts once

  ghost function Finished(labels: seq<Label>, t: ThreadId): nat {
    if labels == [] then 0 else (if labels[0] == Finish(t) then 1 else 0) + Finished(labels[1..], t)
  }

  lemma FinishIsAnswer(s: M.State, l: Label, t: ThreadId)
    requires M.Enabled(s, l)
    ensures ActionOf(s, l) == Answer(t) <==> l == Finish(t)
  {
    hide EffectOf;
  }

  /** Over any run a thread leaves exactly one entry in the history per call it finishes, and
      one more if the call in flight has already acted. */
  lemma {:induction false} EachCallActsOnce(s: M.State, a: A.State, labels: seq<Label>, t: ThreadId)
    requires Simulates(s, a) && Runs(s, labels)
    ensures EntriesOf(Shadow(s, a, labels).log, t) - EntriesOf(a.log, t)
         == HasActed(Shadow(s, a, labels), t) - HasActed(a, t) + Finished(labels, t)
    decreases labels
  {
    if labels != [] {
      EveryStepSimulates(s, a, labels[0]);
      ActsOncePerStep(a, ActionOf(s, labels[0]), t);
      FinishIsAnswer(s, labels[0], t);
      hide Simulates, A.Step, M.Step, ActionOf, A.Enabled, M.Enabled, HasActed;
      EachCallActsOnce(M.Step(s, labels[0]), A.Step(a, ActionOf(s, labels[0])), labels[1..], t);
    }
  }

  /** `t` is in a call that began at `begun`, when the log had `n` entries: its entry, if it
      has one, is among the later ones. */
  ghost predicate InCall(a: A.State, t: ThreadId, op: Op, begun: Time, n: nat) {
    && t in a.calls && a.calls[t].op == op
    && if a.calls[t].Pending? then a.calls[t].begun == begun && a.calls[t].since == n
       else n <= a.calls[t].index < |a.log| && Acts(a.log[a.calls[t].index], t, op, begun, n)
  }

  ghost predicate Acts(e: Entry, t: ThreadId, op: Op, begun: Time, since: nat) {
    e.Called? && e.who == t && e.op == op && e.begun == begun && e.since == since
  }

  lemma CallGoesOn(a: A.State, x: Action, t: ThreadId, op: Op, begun: Time, n: nat)
    requires IndicesValid(a) && A.Enabled(a, x) && x != Answer(t)
    requires InCall(a, t, op, begun, n) && n <= |a.log|
    ensures InCall(A.Step(a, x), t, op, begun, n)
  {
    hide Legal, Apply, Verdict, IndicesValid;
  }

  /** Until it returns, a call is the one that began. */
  lemma {:induction false} CallRunsOn(
    s: M.State, a: A.State, labels: seq<Label>, t: ThreadId, op: Op, begun: Time, n: nat)
    requires Simulates(s, a) && Runs(s, labels) && Finish(t) !in labels
    requires InCall(a, t, op, begun, n) && n <= |a.log|
    ensures InCall(Shadow(s, a, labels), t, op, begun, n)
    ensures Finished(labels, t) == 0
    decreases labels
  {
    if labels != [] {
      EveryStepSimulates(s, a, labels[0]);
      A.StepKeepsInv(a, ActionOf(s, labels[0]));
      FinishIsAnswer(s, labels[0], t);
      CallGoesOn(a, ActionOf(s, labels[0]), t, op, begun, n);
      hide Simulates, A.Step, M.Step, ActionOf, A.Enabled, M.Enabled, InCall, A.Inv;
      CallRunsOn(M.Step(s, labels[0]), A.Step(a, ActionOf(s, labels[0])), labels[1..], t, op, begun, n);
    }
  }

  // ----- Refresh

  /** Whatever interleaves, no step of a Refresh adds or drops a key or changes a value. Its
      CompareAndSwap moves the purge time of the very item it had loaded; if that item was
      removed or replaced meanwhile it changes nothing and says so. */
  lemma RefreshNeverClobbers(s: M.State, t: ThreadId, spare: Ref)
    requires M.Inv(s) && M.Enabled(s, Advance(t, spare)) && s.threads[t].op.Refresh?
    ensures M.Inv(M.Step(s, Advance(t, spare)))
    ensures var db, next := Database(s), Database(M.Step(s, Advance(t, spare)));
            && next.Keys == db.Keys
            && forall ns :: ns in db ==>
                 next[ns].Keys == db[ns].Keys && forall k :: k in db[ns] ==> next[ns][k].value == db[ns][k].value
    ensures var pc := s.threads[t];
            var s' := M.Step(s, Advance(t, spare));
            pc.Swap? ==>
              if A.Lookup(Database(s), pc.op.ns, pc.op.key) == Some(pc.seen)
              then s'.threads[t] == Done(pc.op, Ok) && A.Lookup(Database(s'), pc.op.ns, pc.op.key) == Some(pc.item)
              else s'.threads[t] == Done(pc.op, Failed(ItemChanged)) && Database(s') == Database(s)
  {
    M.StepKeepsInv(s, Advance(t, spare));
    assert PcSound(s, s.threads[t]);
    if Holds(s.threads[t]) {
      HolderStep(s, t, spare);
    } else {
      assert Database(M.Step(s, Advance(t, spare))) == Database(s);
    }
  }
}
