/** A caller that is alone: run without interference, the step machine's operations are the
    serial ones, so the object model and the step model describe the same code. */
module SoloCall {
  import opened Options
  import opened AtomicStore
  import opened SerialStore
  import opened WaitFreedom
  import M = StoreMachine
  import Linearization

  /** What the call has seen and done so far: it began with the contents `db`, and by now
      they are `cur`. */
  ghost predicate OnTrack(db: Contents, clock: Time, cur: Contents, pc: M.Pc) {
    var op := pc.op;
    match pc
    case Lookup(_) => cur == db
    case Create(_, _) => cur == db && op.Writes()
    case Stamp(_, _) => cur == Prepared(db, op) && op.ns in cur
    case Write(_, _, item) =>
      op.Writes() && cur == Prepared(db, op) && op.ns in cur && item == Item(clock + op.ttl, op.value)
    case Fetch(_, _) => cur == db && op.ns in cur && !op.Writes()
    case Restamp(_, _, seen) => op.Refresh? && cur == db && Lookup(db, op.ns, op.key) == Some(seen)
    case Swap(_, _, seen, item) =>
      op.Refresh? && cur == db && Lookup(db, op.ns, op.key) == Some(seen) && item == Item(clock + op.ttl, seen.value)
    case Check(_, item) =>
      cur == SerialAfter(db, op, clock) &&
      SerialEffect(db, op, clock) == if op.Read? then Looked(item) else Took(item)
    case Done(_, response) => cur == SerialAfter(db, op, clock) && response == SerialAnswer(db, op, clock)
  }

  lemma TouchOnTrack(db: Contents, clock: Time, cur: Contents, pc: M.Pc)
    requires M.Holds(pc) && OnTrack(db, clock, cur, pc) && (pc.Stamp? ==> pc.op.Writes()) && pc.op.ns in cur
    ensures var (next, keys) := M.Touch(pc, cur[pc.op.ns], clock);
            && OnTrack(db, clock, cur[pc.op.ns := keys], next)
            && next.op == pc.op && Rank(next) < Rank(pc)
  {
    assert cur[pc.op.ns := cur[pc.op.ns]] == cur;
  }

  /** One step of the lone caller. */
  ghost predicate Goes(db: Contents, s: M.State, t: ThreadId, spare: M.Ref)
    requires M.Inv(s) && M.Enabled(s, M.Advance(t, spare))
  {
    var s' := M.Step(s, M.Advance(t, spare));
    && M.Inv(s') && s'.clock == s.clock
    && t in s'.threads && s'.threads[t].op == s.threads[t].op && Rank(s'.threads[t]) < Rank(s.threads[t])
    && OnTrack(db, s.clock, M.Database(s'), s'.threads[t])
  }

  lemma HolderGoes(db: Contents, s: M.State, t: ThreadId, spare: M.Ref)
    requires M.Inv(s) && M.Enabled(s, M.Advance(t, spare)) && M.Holds(s.threads[t])
    requires OnTrack(db, s.clock, M.Database(s), s.threads[t])
    ensures Goes(db, s, t, spare)
  {
    var pc := s.threads[t];
    assert M.PcSound(s, pc);
    M.StepKeepsInv(s, M.Advance(t, spare));
    Linearization.HolderStep(s, t, spare);
    TouchOnTrack(db, s.clock, M.Database(s), pc);
    hide M.Inv, M.Database, M.Touch, OnTrack, Rank;
  }

  lemma LookupGoes(db: Contents, s: M.State, t: ThreadId, spare: M.Ref)
    requires M.Inv(s) && M.Enabled(s, M.Advance(t, spare)) && s.threads[t].Lookup?
    requires OnTrack(db, s.clock, M.Database(s), s.threads[t])
    ensures Goes(db, s, t, spare)
  {
    var op := s.threads[t].op;
    M.StepKeepsInv(s, M.Advance(t, spare));
    Linearization.LookupStep(s, t, spare);
    assert op.ns in s.scopes <==> op.ns in M.Database(s);
    hide M.Inv, M.Step, M.Database, M.Enabled;
  }

  lemma CreateGoes(db: Contents, s: M.State, t: ThreadId, spare: M.Ref)
    requires M.Inv(s) && M.Enabled(s, M.Advance(t, spare)) && s.threads[t].Create?
    requires OnTrack(db, s.clock, M.Database(s), s.threads[t])
    ensures Goes(db, s, t, spare)
  {
    M.StepKeepsInv(s, M.Advance(t, spare));
    assert M.PcSound(s, s.threads[t]);
    Linearization.CreateStep(s, t, spare);
    hide M.Inv, M.Step, M.Database, M.Enabled, M.PcSound;
  }

  lemma CheckGoes(db: Contents, s: M.State, t: ThreadId, spare: M.Ref)
    requires M.Inv(s) && M.Enabled(s, M.Advance(t, spare)) && s.threads[t].Check?
    requires OnTrack(db, s.clock, M.Database(s), s.threads[t])
    ensures Goes(db, s, t, spare)
  {
    assert M.PcSound(s, s.threads[t]);
    M.StepKeepsInv(s, M.Advance(t, spare));
    assert M.Database(M.Step(s, M.Advance(t, spare))) == M.Database(s);
    hide M.Inv, M.Database, M.PcSound, M.Touch, SerialAfter;
  }

  /** One step of the lone caller, whichever it is. */
  lemma StepGoes(db: Contents, s: M.State, t: ThreadId, spare: M.Ref)
    requires M.Inv(s) && M.Enabled(s, M.Advance(t, spare))
    requires OnTrack(db, s.clock, M.Database(s), s.threads[t])
    ensures Goes(db, s, t, spare)
  {
    hide M.Inv, M.Database, M.Step, OnTrack, Goes;
    if M.Holds(s.threads[t]) {
      HolderGoes(db, s, t, spare);
    } else if s.threads[t].Lookup? {
      LookupGoes(db, s, t, spare);
    } else if s.threads[t].Create? {
      CreateGoes(db, s, t, spare);
    } else {
      CheckGoes(db, s, t, spare);
    }
  }

  predicate OwnSteps(labels: seq<M.Label>, t: ThreadId) {
    forall i :: 0 <= i < |labels| ==> labels[i].Advance? && labels[i].t == t
  }

  /** The lone caller stays on track for as long as it runs alone. */
  lemma {:induction false} StaysOnTrack(db: Contents, s: M.State, t: ThreadId, labels: seq<M.Label>)
    requires M.Inv(s) && t in s.threads && OnTrack(db, s.clock, M.Database(s), s.threads[t])
    requires M.Runs(s, labels) && OwnSteps(labels, t)
    ensures var end := M.After(s, labels);
            && M.Inv(end) && end.clock == s.clock && t in end.threads && end.threads[t].op == s.threads[t].op
            && OnTrack(db, s.clock, M.Database(end), end.threads[t])
    decreases labels
  {
    if labels != [] {
      StepGoes(db, s, t, labels[0].spare);
      hide M.Inv, M.Database, M.Step, M.Enabled, OnTrack;
      StaysOnTrack(db, M.Step(s, labels[0]), t, labels[1..]);
    }
  }

  lemma SoloBegins(s: M.State, t: ThreadId, op: Op)
    requires M.Inv(s) && t !in s.threads
    ensures var s' := M.Step(s, M.Label.Begin(t, op));
            && M.Inv(s') && M.Database(s') == M.Database(s) && s'.clock == s.clock
            && t in s'.threads && s'.threads[t] == M.Pc.Lookup(op) && s'.objects == s.objects
  {
    M.StepKeepsInv(s, M.Label.Begin(t, op));
  }

  /** From any reachable state, whenever a call whose steps run one after the other ends, it
      answers what the serial operation answers and leaves the contents that one leaves. */
  lemma SoloCallIsSerial(s: M.State, t: ThreadId, op: Op, labels: seq<M.Label>)
    requires M.Inv(s) && M.Runs(s, [M.Label.Begin(t, op)] + labels) && OwnSteps(labels, t)
    requires var end := M.After(s, [M.Label.Begin(t, op)] + labels); t in end.threads && end.threads[t].Done?
    ensures var end := M.After(s, [M.Label.Begin(t, op)] + labels);
            && M.Inv(end)
            && end.threads[t] == M.Done(op, SerialAnswer(M.Database(s), op, s.clock))
            && M.Database(end) == SerialAfter(M.Database(s), op, s.clock)
  {
    var begin := M.Label.Begin(t, op);
    assert ([begin] + labels)[1..] == labels;
    SoloBegins(s, t, op);
    hide M.Inv, M.Database, M.Step;
    StaysOnTrack(M.Database(s), M.Step(s, begin), t, labels);
  }

  /** And it does end: some such run goes on to the answer. */
  lemma SoloCallEnds(s: M.State, t: ThreadId, op: Op, spare: M.Ref) returns (labels: seq<M.Label>)
    requires M.Inv(s) && t !in s.threads && spare !in s.objects
    ensures M.Runs(s, [M.Label.Begin(t, op)] + labels) && OwnSteps(labels, t)
    ensures var end := M.After(s, [M.Label.Begin(t, op)] + labels); t in end.threads && end.threads[t].Done?
  {
    var begin := M.Label.Begin(t, op);
    SoloBegins(s, t, op);
    labels := RunToTheEnd(M.Database(s), M.Step(s, begin), t, spare);
    assert ([begin] + labels)[1..] == labels;
  }

  lemma {:induction false} RunToTheEnd(db: Contents, s: M.State, t: ThreadId, spare: M.Ref) returns (labels: seq<M.Label>)
    requires M.Inv(s) && t in s.threads && OnTrack(db, s.clock, M.Database(s), s.threads[t])
    requires s.threads[t].Lookup? ==> spare !in s.objects
    ensures M.Runs(s, labels) && OwnSteps(labels, t)
    ensures t in M.After(s, labels).threads && M.After(s, labels).threads[t].Done?
    decreases Rank(s.threads[t])
  {
    labels := [];
    if !s.threads[t].Done? {
      var l := M.Advance(t, spare);
      NeverBlocked(s, t, spare);
      StepGoes(db, s, t, spare);
      assert !M.Step(s, l).threads[t].Lookup?;
      hide M.Inv, M.Database, M.Step, M.Enabled, OnTrack;
      var rest := RunToTheEnd(db, M.Step(s, l), t, spare);
      labels := [l] + rest;
      assert labels[1..] == rest;
    }
  }
}
