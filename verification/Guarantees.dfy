/** The history theorems read back on the running store: what a caller may conclude from an
    answer, whatever else ran. */
module Guarantees {
  import opened Options
  import A = AtomicStore
  import opened AtomicStore
  import M = StoreMachine
  import opened Linearization
  import opened Ledger

  // ----- one call of a run

  /** What ran before the call, its beginning, and what has run since. */
  function CallRun(before: seq<M.Label>, t: ThreadId, op: Op, during: seq<M.Label>): seq<M.Label> {
    before + ([M.Label.Begin(t, op)] + during)
  }

  /** A run from the empty store in which `t` began a call of `op` after `before` and has not
      returned since. */
  ghost predicate InRun(s: M.State, before: seq<M.Label>, t: ThreadId, op: Op, during: seq<M.Label>) {
    M.Initial(s) && M.Runs(s, CallRun(before, t, op, during)) && M.Finish(t) !in during
  }

  /** In every run, every thread that is in a call began it somewhere. */
  lemma {:induction false} EveryCallHasABeginning(s: M.State, labels: seq<M.Label>, t: ThreadId)
    returns (before: seq<M.Label>, op: Op, during: seq<M.Label>)
    requires M.Initial(s) && M.Runs(s, labels) && t in M.After(s, labels).threads
    ensures labels == CallRun(before, t, op, during) && InRun(s, before, t, op, during)
    decreases |labels|
  {
    assert labels != [];
    var n := |labels| - 1;
    var front, l := labels[..n], labels[n];
    assert labels == front + [l];
    M.RunsSplit(s, front, [l]);
    var prior := M.After(s, front);
    assert M.After(prior, [l]) == M.Step(prior, l);
    M.ThreadsKeepTheirCalls(prior, l);
    if t in prior.threads {
      assert l != M.Finish(t);
      hide M.Enabled, M.Step, M.Initial, M.Runs, M.After;
      before, op, during := EveryCallHasABeginning(s, front, t);
      during := during + [l];
      assert labels == CallRun(before, t, op, during);
    } else {
      before, op, during := front, l.op, [];
    }
  }

  ghost function Empty(s: M.State): A.State {
    A.State(map[], s.clock, map[], [])
  }

  /** Where the call stands now, seen from the atomic object. */
  lemma CallInRun(s: M.State, before: seq<M.Label>, t: ThreadId, op: Op, during: seq<M.Label>)
    requires InRun(s, before, t, op, during)
    ensures M.Runs(s, before) && History(s, before) <= History(s, CallRun(before, t, op, during))
    ensures Simulates(s, Empty(s))
    ensures var a := Shadow(s, Empty(s), CallRun(before, t, op, during));
            && Simulates(M.After(s, CallRun(before, t, op, during)), a)
            && InCall(a, t, op, M.After(s, before).clock, |History(s, before)|)
            && EntriesOf(a.log, t) == EntriesOf(History(s, before), t) + HasActed(a, t)
  {
    var run := CallRun(before, t, op, during);
    var begin := M.Label.Begin(t, op);
    InitiallySimulates(s);
    ShadowSplit(s, Empty(s), before, [begin] + during);
    var s0, a0 := M.After(s, before), Shadow(s, Empty(s), before);
    assert ([begin] + during)[1..] == during;
    EveryStepSimulates(s0, a0, begin);
    var s1, a1 := M.Step(s0, begin), A.Step(a0, Action.Begin(t, op));
    assert t !in a0.calls by { assert t !in s0.threads.Keys; }
    assert a1.log == a0.log && InCall(a1, t, op, s0.clock, |a0.log|) && HasActed(a1, t) == 0;
    assert Shadow(s, Empty(s), run) == Shadow(s1, a1, during);
    hide Simulates, A.Step, M.Step, A.Enabled, M.Enabled, InCall, ActionOf, M.Initial;
    CallRunsOn(s1, a1, during, t, op, s0.clock, |a0.log|);
    EachCallActsOnce(s1, a1, during, t);
    EveryRunLinearizes(s1, a1, during);
    EveryRunLinearizes(s, Empty(s), run);
  }

  lemma DoneHasVerdict(s: M.State, a: A.State, t: ThreadId) returns (c: Time)
    requires Simulates(s, a) && t in s.threads && s.threads[t].Done?
    ensures t in a.calls && a.calls[t].Answered? && a.calls[t].op == s.threads[t].op
    ensures var i := a.calls[t].index;
            && i < |a.log| && a.log[i].Called?
            && a.log[i].begun <= a.log[i].at <= c <= s.clock
            && s.threads[t].response == Verdict(s.threads[t].op, a.log[i].effect, c)
  {
    assert t in s.threads.Keys;
    assert Matches(s.threads[t], a.calls[t], a.log, a.clock) && CallMatchesLog(a, t);
    var i := a.calls[t].index;
    EntryWasLegal(a.log, a.clock, i);
    c :| a.log[i].at <= c <= a.clock && a.calls[t].response == Verdict(a.calls[t].op, a.log[i].effect, c);
  }

  /** Entry `i` is the one entry that `t` has made since the history had `n` entries, for
      its call of `op` begun at `begun`. */
  ghost predicate OnlyEntry(log: seq<Entry>, n: nat, i: nat, t: ThreadId, op: Op, begun: Time) {
    && n <= i < |log| && Acts(log[i], t, op, begun, n)
    && forall j :: n <= j < |log| && log[j].Called? && log[j].who == t ==> j == i
  }

  lemma IsOnlyEntry(log: seq<Entry>, n: nat, i: nat, t: ThreadId, op: Op, begun: Time)
    requires n <= i < |log| && Acts(log[i], t, op, begun, n) && EntriesOf(log, t) == EntriesOf(log[..n], t) + 1
    ensures OnlyEntry(log, n, i, t, op, begun)
  {
    forall j | n <= j < |log| && log[j].Called? && log[j].who == t
      ensures j == i
    {
      if j < i { TwoEntries(log, n, j, i, t); }
      if i < j { TwoEntries(log, n, i, j, t); }
    }
  }

  /** The verdict on an effect changes with time only when an item expires. */
  lemma VerdictsDrift(op: Op, effect: Effect, at: Time, c: Time)
    requires at <= c
    ensures Verdict(op, effect, c) != Verdict(op, effect, at) ==>
              Verdict(op, effect, c) == Failed(ExpiredItem) && ReadsClockLast(effect) && at <= effect.item.purge < c
    ensures Verdict(op, effect, c) == Failed(ItemChanged) ==> effect.Changed?
  {
  }

  /** Every answer is earned during the call: between its beginning and its answer the call
      has made one entry in the history, no more, and the answer is the verdict on that entry
      at a clock reading between the entry and now. That is the answer the contents called
      for when the entry was made, but for two answers that speak of a span of time:
      ExpiredItem, when the item, live then, expired before the reading; and ItemChanged, and
      then an entry made during the call has given the key another item or none. */
  lemma AnswersAreEarned(s: M.State, before: seq<M.Label>, t: ThreadId, op: Op, during: seq<M.Label>)
    returns (i: nat, c: Time)
    requires InRun(s, before, t, op, during)
    requires var end := M.After(s, CallRun(before, t, op, during)); t in end.threads && end.threads[t].Done?
    ensures M.Runs(s, before)
    ensures var log, end := History(s, CallRun(before, t, op, during)), M.After(s, CallRun(before, t, op, during));
            var response := end.threads[t].response;
            && OnlyEntry(log, |History(s, before)|, i, t, op, M.After(s, before).clock)
            && log[i].begun <= log[i].at <= c <= end.clock
            && response == Verdict(op, log[i].effect, c)
            && (response != Verdict(op, log[i].effect, log[i].at) ==>
                  response == Failed(ExpiredItem) && log[i].at <= log[i].effect.item.purge < c)
            && (response == Failed(ItemChanged) ==>
                  exists j :: |History(s, before)| <= j < i && Disturbs(log[j], op.ns, op.key))
  {
    var run := CallRun(before, t, op, during);
    CallInRun(s, before, t, op, during);
    var a := Shadow(s, Empty(s), run);
    c := DoneHasVerdict(M.After(s, run), a, t);
    i := a.calls[t].index;
    var n := |History(s, before)|;
    assert a.log == History(s, run) && a.log[..n] == History(s, before);
    if a.log[i].effect.Changed? { var _ := ChangesAreReal(a.log, a.clock, i); }
    hide Simulates, History, Shadow, M.After, M.Runs, Disturbs, OnlyEntry, Verdict;
    IsOnlyEntry(a.log, n, i, t, op, M.After(s, before).clock);
    VerdictsDrift(op, a.log[i].effect, a.log[i].at, c);
  }

  /** A value a read returns was under that very key when the read acted, during this call:
      an earlier Set or CheckAndSet had written it, nothing had removed or overwritten it
      since, and the read compared clocks no later than the ttl after the instant at which
      a write or refresh had stamped the item. */
  lemma GotMeansWritten(s: M.State, before: seq<M.Label>, t: ThreadId, op: Op, during: seq<M.Label>)
    returns (i: nat, w: nat, k: nat, c: Time)
    requires InRun(s, before, t, op, during)
    requires var end := M.After(s, CallRun(before, t, op, during));
             t in end.threads && end.threads[t].Done? && end.threads[t].response.Got?
    ensures M.Runs(s, before)
    ensures var log, end := History(s, CallRun(before, t, op, during)), M.After(s, CallRun(before, t, op, during));
            && OnlyEntry(log, |History(s, before)|, i, t, op, M.After(s, before).clock)
            && (log[i].effect.Looked? || log[i].effect.Took?)
            && ComesFrom(log, i, op.ns, op.key, log[i].effect.item, w, k)
            && (log[w].op.Set? || log[w].op.CheckAndSet?) && log[w].op.value == end.threads[t].response.value
            && (log[k].op.Set? || log[k].op.CheckAndSet? || log[k].op.Refresh?)
            && log[i].at <= c <= log[k].effect.item.purge
            && log[k].begun <= log[k].effect.item.purge - TimeToLive(log[k].op) <= log[k].at
  {
    var run := CallRun(before, t, op, during);
    i, c := AnswersAreEarned(s, before, t, op, during);
    ContentsAreReplayed(s, run);
    hide LegalLog, Legal, Apply, Replay, M.Inv, M.Runs, M.After, History;
    w, k := ReadsAreGenuine(History(s, run), M.After(s, run).clock, i, c, M.After(s, run).threads[t].response.value);
  }

  lemma TookFits(log: seq<Entry>, clock: Time, i: nat)
    requires LegalLog(log, clock) && i < |log| && log[i].Called? && log[i].effect.Took?
    ensures log[i].op.ReadAndRemove?
  {
    EntryWasLegal(log, clock, i);
  }

  /** A call that reports an error has changed nothing: its one entry leaves the contents as
      they were. The one exception is a ReadAndRemove that takes an item and then finds it
      expired. */
  lemma FailedCallsChangeNothing(s: M.State, before: seq<M.Label>, t: ThreadId, op: Op, during: seq<M.Label>)
    returns (i: nat, c: Time)
    requires InRun(s, before, t, op, during)
    requires var end := M.After(s, CallRun(before, t, op, during));
             t in end.threads && end.threads[t].Done? && end.threads[t].response.Failed?
    ensures M.Runs(s, before)
    ensures var log, end := History(s, CallRun(before, t, op, during)), M.After(s, CallRun(before, t, op, during));
            && OnlyEntry(log, |History(s, before)|, i, t, op, M.After(s, before).clock)
            && log[i].at <= c <= end.clock
            && (Replay(log[..i + 1]) == Replay(log[..i]) ||
                (op.ReadAndRemove? && log[i].effect.Took? && log[i].effect.item.purge < c &&
                 end.threads[t].response == Failed(ExpiredItem)))
  {
    var run := CallRun(before, t, op, during);
    i, c := AnswersAreEarned(s, before, t, op, during);
    ContentsAreReplayed(s, run);
    hide M.Inv, M.Runs, M.After, History, Replay, Legal, Apply, LegalLog;
    if !History(s, run)[i].effect.Took? {
      RefusalsChangeNothing(History(s, run), M.After(s, run).clock, i);
    } else {
      TookFits(History(s, run), M.After(s, run).clock, i);
    }
  }

  // ----- what each operation does, in any interleaving

  /** The operation, spelled out: it found these contents, left those, and answered this.
      A writer or refresher read the clock at `stamp`, a reader at `c`. */
  ghost predicate DoesWhatItSays(op: Op, found: Contents, left: Contents, response: Response, stamp: Time, c: Time) {
    var keys := if op.ns in found then found[op.ns] else map[];
    match op
    case Read(ns, key) => left == found && response == ReadAnswer(found, ns, key, c)
    case ReadAndRemove(ns, key) =>
      && left == (if ns in found then found[ns := keys - {key}] else found)
      && response == ReadAnswer(found, ns, key, c)
    case CheckAndSet(ns, key, value, ttl) =>
      if key in keys then left == found && response == Failed(ItemAlreadyExists)
      else left == found[ns := keys[key := Item(stamp + ttl, value)]] && response == Ok
    case Set(ns, key, value, ttl) => left == found[ns := keys[key := Item(stamp + ttl, value)]] && response == Ok
    case Refresh(ns, key, ttl) =>
      if response == Ok then key in keys && left == found[ns := keys[key := Item(stamp + ttl, keys[key].value)]]
      else
        && left == found
        && ((response == Failed(InvalidNamespace) && ns !in found)
            || (response == Failed(InvalidKey) && ns in found && key !in keys)
            || (response == Failed(ItemChanged) && ns in found))
    case Remove(ns, key) => left == (if ns in found then found[ns := keys - {key}] else found) && response == Ok
  }

  function ReadAnswer(found: Contents, ns: Name, key: Name, c: Time): Response {
    if ns !in found then Failed(InvalidNamespace)
    else if key !in found[ns] then Failed(InvalidKey)
    else if found[ns][key].purge < c then Failed(ExpiredItem)
    else Got(found[ns][key].value)
  }

  function StampOf(e: Entry): Time
    requires e.Called?
  {
    match e.effect
    case Inserted(item) => if e.op.CheckAndSet? then item.purge - e.op.ttl else e.at
    case Wrote(item) => if e.op.Set? then item.purge - e.op.ttl else e.at
    case Overwrote(_, item) => if e.op.Set? then item.purge - e.op.ttl else e.at
    case Swapped(_, item) => if e.op.Refresh? then item.purge - e.op.ttl else e.at
    case _ => e.at
  }

  lemma EntryDoesWhatItSays(db: Contents, e: Entry, c: Time)
    requires Legal(db, e) && e.Called?
    ensures DoesWhatItSays(e.op, db, Apply(db, e), Verdict(e.op, e.effect, c), StampOf(e), c)
    ensures e.begun <= StampOf(e) <= e.at
  {
    if e.op.ns in db {
      assert db[e.op.ns := db[e.op.ns]] == db;
      if e.op.key !in db[e.op.ns] { assert db[e.op.ns] - {e.op.key} == db[e.op.ns]; }
    }
  }

  /** In every interleaving, each call does what its operation says, in one step: its one
      entry takes the contents it finds to the contents it leaves, the clock readings it
      uses were taken during the call, and it answers accordingly. */
  lemma CallsDoWhatTheySay(s: M.State, before: seq<M.Label>, t: ThreadId, op: Op, during: seq<M.Label>)
    returns (i: nat, stamp: Time, c: Time)
    requires InRun(s, before, t, op, during)
    requires var end := M.After(s, CallRun(before, t, op, during)); t in end.threads && end.threads[t].Done?
    ensures M.Runs(s, before)
    ensures var log, end := History(s, CallRun(before, t, op, during)), M.After(s, CallRun(before, t, op, during));
            && OnlyEntry(log, |History(s, before)|, i, t, op, M.After(s, before).clock)
            && M.After(s, before).clock <= stamp <= c <= end.clock
            && DoesWhatItSays(op, Replay(log[..i]), Replay(log[..i + 1]), end.threads[t].response, stamp, c)
  {
    var run := CallRun(before, t, op, during);
    i, c := AnswersAreEarned(s, before, t, op, during);
    ContentsAreReplayed(s, run);
    hide M.Inv, M.Runs, M.After, History, Replay, Legal, Apply, LegalLog, DoesWhatItSays, Verdict, StampOf;
    var log := History(s, run);
    EntryWasLegal(log, M.After(s, run).clock, i);
    EntryDoesWhatItSays(Replay(log[..i]), log[i], c);
    stamp := StampOf(log[i]);
  }

  // ----- whole histories

  /** On any run, what the collector deletes had expired before the clock reading its pass
      began with, whatever ran between its look at the item and its delete, and it deletes
      nothing else. */
  lemma CollectorSparesTheLiving(s: M.State, labels: seq<M.Label>, i: nat)
    requires M.Initial(s) && M.Runs(s, labels)
    requires i < |History(s, labels)| && History(s, labels)[i].Collected?
    ensures var log := History(s, labels);
            var e := log[i];
            && e.item.purge < e.cutoff <= e.at <= M.After(s, labels).clock
            && Lookup(Replay(log[..i]), e.name, e.spot) == Some(e.item)
            && forall ns, key :: Lookup(Replay(log[..i + 1]), ns, key) ==
                 if ns == e.name && key == e.spot then None else Lookup(Replay(log[..i]), ns, key)
  {
    ContentsAreReplayed(s, labels);
    CollectorTakesOnlyExpired(History(s, labels), M.After(s, labels).clock, i);
  }

  /** Of all the calls of a run, at most one takes any one stored item out: two entries that
      remove a key's item have an insertion of that key between them. */
  lemma EachItemLeavesOnce(s: M.State, labels: seq<M.Label>, i: nat, j: nat, ns: Name, key: Name)
    requires M.Initial(s) && M.Runs(s, labels)
    requires i < j < |History(s, labels)|
    requires Buries(History(s, labels)[i], ns, key) && Buries(History(s, labels)[j], ns, key)
    ensures exists b :: i < b < j && Births(History(s, labels)[b], ns, key)
  {
    ContentsAreReplayed(s, labels);
    ConsumedAtMostOnce(History(s, labels), M.After(s, labels).clock, i, j, ns, key);
  }

  /** And over the whole run insertions and removals of a key balance with its presence now. */
  lemma ItemsAreConserved(s: M.State, labels: seq<M.Label>, ns: Name, key: Name)
    requires M.Initial(s) && M.Runs(s, labels)
    ensures M.Inv(M.After(s, labels))
    ensures BirthCount(History(s, labels), ns, key) - BurialCount(History(s, labels), ns, key)
         == if Lookup(M.Database(M.After(s, labels)), ns, key).Some? then 1 else 0
  {
    ContentsAreReplayed(s, labels);
    Conservation(History(s, labels), M.After(s, labels).clock, ns, key);
  }
}
