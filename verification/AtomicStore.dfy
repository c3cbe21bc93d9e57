/** The key/value store as an atomic object: the contents are one value, every call acts on
    it in a single indivisible step, and the steps taken so far form a log. */
module AtomicStore {
  import opened Options

  type Time = int
  type Name = string
  type ThreadId = nat

  /** What clients keep in the store: an authorization request, or a plain string. */
  datatype AuthCodeData = AuthCodeData(
    uid: string, redirectURI: string, scope: string, state: string, challenge: string, challengeMethod: string)

  datatype Value = Text(text: string) | AuthCode(data: AuthCodeData)

  datatype Item = Item(purge: Time, value: Value)

  /** Namespace, then key, then item. A namespace, once opened, stays. */
  type Contents = map<Name, map<Name, Item>>

  datatype StoreError = InvalidNamespace | InvalidKey | ExpiredItem | ItemAlreadyExists | ItemChanged

  datatype Response = Ok | Got(value: Value) | Failed(error: StoreError)

  datatype Op =
    | Read(ns: Name, key: Name)
    | ReadAndRemove(ns: Name, key: Name)
    | CheckAndSet(ns: Name, key: Name, value: Value, ttl: int)
    | Set(ns: Name, key: Name, value: Value, ttl: int)
    | Refresh(ns: Name, key: Name, ttl: int)
    | Remove(ns: Name, key: Name)
  {
    predicate Writes() {
      CheckAndSet? || Set?
    }
  }

  /** What one atomic step found and did. */
  datatype Effect =
    | NoNamespace
    | NoKey
    | Looked(item: Item)                // Read found the item
    | Took(item: Item)                  // ReadAndRemove found and deleted it
    | Inserted(item: Item)              // CheckAndSet found the key free
    | Refused(item: Item)               // CheckAndSet found the key held
    | Wrote(item: Item)                 // Set on a free key
    | Overwrote(was: Item, item: Item)  // Set on a held key
    | Swapped(was: Item, item: Item)    // Refresh found the item it had loaded
    | Changed(was: Item)                // Refresh did not
    | Removed(item: Item)               // Remove found the key held

  /** One entry of the log. `begun` is the clock when the call began, `since` the length of
      the log then, and `at` the clock when it acted. */
  datatype Entry =
    | Called(who: ThreadId, op: Op, effect: Effect, begun: Time, since: nat, at: Time)
    | Opened(name: Name)
    | Collected(name: Name, spot: Name, item: Item, cutoff: Time, at: Time)

  function Lookup(db: Contents, ns: Name, key: Name): Option<Item> {
    if ns in db && key in db[ns] then Some(db[ns][key]) else None
  }

  function Put(db: Contents, ns: Name, key: Name, item: Item): Contents
    requires ns in db
  {
    db[ns := db[ns][key := item]]
  }

  function Delete(db: Contents, ns: Name, key: Name): Contents
    requires ns in db
  {
    db[ns := db[ns] - {key}]
  }

  /** The effect is what the contents call for. */
  ghost predicate Finds(db: Contents, ns: Name, key: Name, effect: Effect) {
    match effect
    case NoNamespace => ns !in db
    case NoKey => ns in db && key !in db[ns]
    case Looked(item) => Lookup(db, ns, key) == Some(item)
    case Took(item) => Lookup(db, ns, key) == Some(item)
    case Inserted(_) => ns in db && key !in db[ns]
    case Refused(item) => Lookup(db, ns, key) == Some(item)
    case Wrote(_) => ns in db && key !in db[ns]
    case Overwrote(was, _) => Lookup(db, ns, key) == Some(was)
    case Swapped(was, item) => Lookup(db, ns, key) == Some(was) && item.value == was.value
    case Changed(was) => ns in db && Lookup(db, ns, key) != Some(was)
    case Removed(item) => Lookup(db, ns, key) == Some(item)
  }

  function Effected(db: Contents, ns: Name, key: Name, effect: Effect): Contents
    requires ns in db || effect == NoNamespace
  {
    match effect
    case Took(_) => Delete(db, ns, key)
    case Removed(_) => Delete(db, ns, key)
    case Inserted(item) => Put(db, ns, key, item)
    case Wrote(item) => Put(db, ns, key, item)
    case Overwrote(_, item) => Put(db, ns, key, item)
    case Swapped(_, item) => Put(db, ns, key, item)
    case _ => db
  }

  /** Calls of `op` can have this effect; what they write was stamped with a clock reading
      taken during the call. */
  ghost predicate Fits(op: Op, effect: Effect, begun: Time, at: Time) {
    match op
    case Read(_, _) => effect.NoNamespace? || effect.NoKey? || effect.Looked?
    case ReadAndRemove(_, _) => effect.NoNamespace? || effect.NoKey? || effect.Took?
    case CheckAndSet(_, _, value, ttl) =>
      effect.Refused? || (effect.Inserted? && effect.item.value == value && begun <= effect.item.purge - ttl <= at)
    case Set(_, _, value, ttl) =>
      (effect.Wrote? || effect.Overwrote?) && effect.item.value == value && begun <= effect.item.purge - ttl <= at
    case Refresh(_, _, ttl) =>
      effect.NoNamespace? || effect.NoKey? || effect.Changed? ||
      (effect.Swapped? && begun <= effect.item.purge - ttl <= at)
    case Remove(_, _) => effect.NoNamespace? || effect.NoKey? || effect.Removed?
  }

  /** The entry may come next. The collector may delete only what was expired at its cutoff. */
  ghost predicate Legal(db: Contents, e: Entry) {
    match e
    case Called(_, op, effect, begun, _, at) =>
      Finds(db, op.ns, op.key, effect) && begun <= at && Fits(op, effect, begun, at)
    case Opened(ns) => ns !in db
    case Collected(ns, key, item, cutoff, at) =>
      Lookup(db, ns, key) == Some(item) && item.purge < cutoff <= at
  }

  function Apply(db: Contents, e: Entry): Contents {
    match e
    case Called(_, op, effect, _, _, _) => if op.ns in db then Effected(db, op.ns, op.key, effect) else db
    case Opened(ns) => db[ns := map[]]
    case Collected(ns, key, _, _, _) => if ns in db then Delete(db, ns, key) else db
  }

  /** The answer of a call, given its effect and, for the two reads, the clock they consult
      after taking the item. */
  function Verdict(op: Op, effect: Effect, clock: Time): Response {
    match effect
    case NoNamespace => if op.Remove? then Ok else Failed(InvalidNamespace)
    case NoKey => if op.Remove? then Ok else Failed(InvalidKey)
    case Looked(item) => if item.purge < clock then Failed(ExpiredItem) else Got(item.value)
    case Took(item) => if item.purge < clock then Failed(ExpiredItem) else Got(item.value)
    case Refused(_) => Failed(ItemAlreadyExists)
    case Changed(_) => Failed(ItemChanged)
    case _ => Ok
  }

  predicate ReadsClockLast(effect: Effect) {
    effect.Looked? || effect.Took?
  }

  // ----- the log determines the contents

  function Replay(log: seq<Entry>): Contents {
    if log == [] then map[] else Apply(Replay(log[..|log| - 1]), log[|log| - 1])
  }

  /** The item was under the key at some moment since the log had `since` entries. */
  ghost predicate HeldSince(log: seq<Entry>, since: nat, ns: Name, key: Name, item: Item) {
    since <= |log| &&
    (Lookup(Replay(log), ns, key) == Some(item) ||
     (log != [] && HeldSince(log[..|log| - 1], since, ns, key, item)))
  }

  /** A Refresh may report a change only of an item that was there during the call. */
  ghost predicate Justified(log: seq<Entry>, e: Entry) {
    e.Called? && e.effect.Changed? ==> HeldSince(log, e.since, e.op.ns, e.op.key, e.effect.was)
  }

  // ----- the atomic object with its calls in flight

  /** A call waits, then acts once (entry `index` of the log), then answers. */
  datatype Status =
    | Pending(op: Op, begun: Time, since: nat)
    | Acted(op: Op, index: nat)
    | Answered(op: Op, index: nat, response: Response)

  /** The entry of a call that acts now. */
  function Acting(t: ThreadId, call: Status, effect: Effect, at: Time): Entry
    requires call.Pending?
  {
    Called(t, call.op, effect, call.begun, call.since, at)
  }

  datatype State = State(db: Contents, clock: Time, calls: map<ThreadId, Status>, log: seq<Entry>)

  datatype Action =
    | Stutter
    | Tick(to: Time)
    | Begin(t: ThreadId, op: Op)
    | Open(t: ThreadId)
    | Act(t: ThreadId, effect: Effect)
    | Judge(t: ThreadId)
    | Answer(t: ThreadId)
    | Collect(ns: Name, key: Name, item: Item, cutoff: Time)

  ghost predicate Enabled(a: State, x: Action) {
    match x
    case Stutter => true
    case Tick(to) => a.clock <= to
    case Begin(t, _) => t !in a.calls
    case Open(t) => t in a.calls && a.calls[t].Pending? && a.calls[t].op.Writes() && a.calls[t].op.ns !in a.db
    case Act(t, effect) =>
      && t in a.calls && a.calls[t].Pending?
      && Legal(a.db, Acting(t, a.calls[t], effect, a.clock))
      && Justified(a.log, Acting(t, a.calls[t], effect, a.clock))
    case Judge(t) => t in a.calls && a.calls[t].Acted?
    case Answer(t) => t in a.calls && a.calls[t].Answered?
    case Collect(ns, key, item, cutoff) => Legal(a.db, Collected(ns, key, item, cutoff, a.clock))
  }

  ghost predicate IndicesValid(a: State) {
    forall t :: t in a.calls && !a.calls[t].Pending? ==>
      a.calls[t].index < |a.log| && a.log[a.calls[t].index].Called?
  }

  ghost function Step(a: State, x: Action): State
    requires Enabled(a, x) && IndicesValid(a)
  {
    match x
    case Stutter => a
    case Tick(to) => a.(clock := to)
    case Begin(t, op) => a.(calls := a.calls[t := Pending(op, a.clock, |a.log|)])
    case Open(t) => Append(a, Opened(a.calls[t].op.ns))
    case Act(t, effect) =>
      var op := a.calls[t].op;
      var next := Append(a, Acting(t, a.calls[t], effect, a.clock));
      next.(calls := a.calls[t := if ReadsClockLast(effect) then Acted(op, |a.log|)
                                  else Answered(op, |a.log|, Verdict(op, effect, a.clock))])
    case Judge(t) =>
      var c := a.calls[t];
      a.(calls := a.calls[t := Answered(c.op, c.index, Verdict(c.op, a.log[c.index].effect, a.clock))])
    case Answer(t) => a.(calls := a.calls - {t})
    case Collect(ns, key, item, cutoff) => Append(a, Collected(ns, key, item, cutoff, a.clock))
  }

  function Append(a: State, e: Entry): State {
    a.(db := Apply(a.db, e), log := a.log + [e])
  }

  /** Every entry was legal when it came, and none lies in the future. */
  ghost predicate LegalLog(log: seq<Entry>, clock: Time) {
    log == [] ||
    var n := |log| - 1;
    && LegalLog(log[..n], clock) && Legal(Replay(log[..n]), log[n]) && Justified(log[..n], log[n])
    && (log[n].Opened? || log[n].at <= clock)
  }

  ghost predicate CallMatchesLog(a: State, t: ThreadId)
    requires t in a.calls
  {
    match a.calls[t]
    case Pending(_, begun, since) => begun <= a.clock && since <= |a.log|
    case Acted(op, index) =>
      index < |a.log| && a.log[index].Called? && a.log[index].who == t && a.log[index].op == op &&
      ReadsClockLast(a.log[index].effect)
    case Answered(op, index, response) =>
      index < |a.log| && a.log[index].Called? && a.log[index].who == t && a.log[index].op == op &&
      exists c :: a.log[index].at <= c <= a.clock && response == Verdict(op, a.log[index].effect, c)
  }

  ghost predicate Inv(a: State) {
    && LegalLog(a.log, a.clock)
    && Replay(a.log) == a.db
    && (forall t :: t in a.calls ==> CallMatchesLog(a, t))
  }

  lemma {:induction false} LegalLogLater(log: seq<Entry>, c: Time, d: Time)
    requires LegalLog(log, c) && c <= d
    ensures LegalLog(log, d)
  {
    if log != [] { LegalLogLater(log[..|log| - 1], c, d); }
  }

  lemma AppendKeepsLog(a: State, e: Entry)
    requires LegalLog(a.log, a.clock) && Replay(a.log) == a.db && Legal(a.db, e)
    requires Justified(a.log, e) && (e.Opened? || e.at <= a.clock)
    ensures LegalLog(a.log + [e], a.clock) && Replay(a.log + [e]) == Apply(a.db, e)
  {
    assert (a.log + [e])[..|a.log|] == a.log;
  }

  lemma {:induction false} HeldSinceLater(log: seq<Entry>, more: seq<Entry>, since: nat, ns: Name, key: Name, item: Item)
    requires HeldSince(log, since, ns, key, item) && log <= more
    ensures HeldSince(more, since, ns, key, item)
    decreases |more|
  {
    if log == more {
    } else {
      HeldSinceLater(log, more[..|more| - 1], since, ns, key, item);
    }
  }

  lemma InvImpliesIndices(a: State)
    requires Inv(a)
    ensures IndicesValid(a)
  {
    forall t | t in a.calls && !a.calls[t].Pending?
      ensures a.calls[t].index < |a.log| && a.log[a.calls[t].index].Called?
    {
      assert CallMatchesLog(a, t);
    }
  }

  lemma OthersStillMatch(a: State, b: State, t: ThreadId)
    requires t in a.calls && t in b.calls && a.calls[t] == b.calls[t] && CallMatchesLog(a, t)
    requires a.clock <= b.clock && a.log <= b.log
    ensures CallMatchesLog(b, t)
  {
    if a.calls[t].Answered? {
      var i := a.calls[t].index;
      var c :| a.log[i].at <= c <= a.clock && a.calls[t].response == Verdict(a.calls[t].op, a.log[i].effect, c);
      assert b.log[i].at <= c <= b.clock;
    }
  }

  /** The object's log stays legal, replays to its contents, and every call in flight is
      backed by at most one entry of its own, whose effect fixes its answer. */
  lemma StepKeepsInv(a: State, x: Action)
    requires Inv(a) && Enabled(a, x)
    ensures IndicesValid(a) && Inv(Step(a, x))
    ensures a.log <= Step(a, x).log && a.clock <= Step(a, x).clock
  {
    InvImpliesIndices(a);
    var b := Step(a, x);
    match x {
      case Tick(to) => LegalLogLater(a.log, a.clock, to);
      case Open(t) => AppendKeepsLog(a, Opened(a.calls[t].op.ns));
      case Act(t, effect) => AppendKeepsLog(a, Acting(t, a.calls[t], effect, a.clock));
      case Collect(ns, key, item, cutoff) => AppendKeepsLog(a, Collected(ns, key, item, cutoff, a.clock));
      case _ =>
    }
    assert a.log <= b.log;
    forall t | t in b.calls
      ensures CallMatchesLog(b, t)
    {
      if t in a.calls {
        assert CallMatchesLog(a, t);
        if a.calls[t] == b.calls[t] {
          OthersStillMatch(a, b, t);
        } else if x.Judge? {
          LogEntryInPast(a.log, a.clock, a.calls[t].index);
        }
      }
    }
  }

  lemma {:induction false} LogEntryInPast(log: seq<Entry>, clock: Time, i: nat)
    requires LegalLog(log, clock) && i < |log| && !log[i].Opened?
    ensures log[i].at <= clock
  {
    if i < |log| - 1 { LogEntryInPast(log[..|log| - 1], clock, i); }
  }

  /** Entry `i` was legal for what the entries before it had left. */
  lemma {:induction false} EntryWasLegal(log: seq<Entry>, clock: Time, i: nat)
    requires LegalLog(log, clock) && i < |log|
    ensures Legal(Replay(log[..i]), log[i]) && Justified(log[..i], log[i])
    ensures Replay(log[..i + 1]) == Apply(Replay(log[..i]), log[i])
    ensures LegalLog(log[..i], clock)
  {
    var n := |log| - 1;
    if i < n {
      EntryWasLegal(log[..n], clock, i);
      assert log[..n][..i] == log[..i] && log[..n][..i + 1] == log[..i + 1];
    } else {
      assert log[..i + 1] == log;
    }
    assert log[..i + 1][..i] == log[..i];
  }

  // ----- each call acts once

  ghost function EntriesOf(log: seq<Entry>, t: ThreadId): nat {
    if log == [] then 0
    else
      var n := |log| - 1;
      EntriesOf(log[..n], t) + if log[n].Called? && log[n].who == t then 1 else 0
  }

  /** A longer log has no fewer entries of a thread. */
  lemma {:induction false} EntriesGrow(log: seq<Entry>, m: nat, t: ThreadId)
    requires m <= |log|
    ensures EntriesOf(log[..m], t) <= EntriesOf(log, t)
    decreases |log|
  {
    if m < |log| {
      EntriesGrow(log[..|log| - 1], m, t);
      assert log[..|log| - 1][..m] == log[..m];
    } else {
      assert log[..m] == log;
    }
  }

  /** Two entries count as two. */
  lemma TwoEntries(log: seq<Entry>, n: nat, i: nat, j: nat, t: ThreadId)
    requires n <= i < j < |log| && log[i].Called? && log[i].who == t && log[j].Called? && log[j].who == t
    ensures EntriesOf(log, t) >= EntriesOf(log[..n], t) + 2
  {
    assert log[..i + 1][..i] == log[..i] && log[..j + 1][..j] == log[..j];
    EntriesGrow(log[..i], n, t);
    assert log[..i][..n] == log[..n];
    EntriesGrow(log[..j], i + 1, t);
    assert log[..j][..i + 1] == log[..i + 1];
    EntriesGrow(log, j + 1, t);
  }

  ghost function HasActed(a: State, t: ThreadId): nat {
    if t in a.calls && !a.calls[t].Pending? then 1 else 0
  }

  lemma ActsOncePerStep(a: State, x: Action, t: ThreadId)
    requires IndicesValid(a) && Enabled(a, x)
    ensures EntriesOf(Step(a, x).log, t) - EntriesOf(a.log, t)
         == HasActed(Step(a, x), t) - HasActed(a, t) + if x == Answer(t) then 1 else 0
  {
    hide Legal, Apply, Verdict, IndicesValid, Justified;
    var b := Step(a, x);
    assert b.log != a.log ==> b.log[..|a.log|] == a.log;
  }

  /** A call that has acted keeps its entry, and one that acts gets a new one. */
  lemma CallsKeepTheirEntries(a: State, x: Action)
    requires IndicesValid(a) && Enabled(a, x)
    ensures forall t :: t in Step(a, x).calls && !Step(a, x).calls[t].Pending? ==>
              Step(a, x).calls[t].index >= |a.log| ||
              (t in a.calls && !a.calls[t].Pending? && Step(a, x).calls[t].index == a.calls[t].index)
  {
    hide Legal, Apply, Verdict, IndicesValid, Justified;
  }
}
