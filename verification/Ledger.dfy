/** What any legal history of the store says about its items: where they come from, how
    often they are consumed, and what the collector may take. */
module Ledger {
  import opened Options
  import opened AtomicStore

  ghost predicate At(e: Entry, ns: Name, key: Name) {
    match e
    case Called(_, op, _, _, _, _) => op.ns == ns && op.key == key
    case Opened(_) => false
    case Collected(name, spot, _, _, _) => name == ns && spot == key
  }

  /** The entry brings an item to a free key. */
  ghost predicate Births(e: Entry, ns: Name, key: Name) {
    At(e, ns, key) && e.Called? && (e.effect.Inserted? || e.effect.Wrote?)
  }

  /** The entry removes the item: a consuming read, a Remove that hits, or the collector. */
  ghost predicate Buries(e: Entry, ns: Name, key: Name) {
    At(e, ns, key) && (e.Collected? || (e.Called? && (e.effect.Took? || e.effect.Removed?)))
  }

  /** The entry puts a caller's value under the key. */
  ghost predicate Writes(e: Entry, ns: Name, key: Name) {
    At(e, ns, key) && e.Called? && (e.effect.Inserted? || e.effect.Wrote? || e.effect.Overwrote?)
  }

  /** The entry leaves its own item under the key. */
  ghost predicate Stamps(e: Entry, ns: Name, key: Name) {
    At(e, ns, key) && e.Called? &&
    (e.effect.Inserted? || e.effect.Wrote? || e.effect.Overwrote? || e.effect.Swapped?)
  }

  ghost function Present(log: seq<Entry>, ns: Name, key: Name): nat {
    if Lookup(Replay(log), ns, key).Some? then 1 else 0
  }

  // ----- one entry

  lemma ElsewhereUntouched(db: Contents, e: Entry, ns: Name, key: Name)
    requires Legal(db, e) && !At(e, ns, key)
    ensures Lookup(Apply(db, e), ns, key) == Lookup(db, ns, key)
  {
  }

  lemma EffectHere(db: Contents, e: Entry, ns: Name, key: Name)
    requires Legal(db, e)
    ensures Births(e, ns, key) ==> Lookup(db, ns, key).None?
    ensures Buries(e, ns, key) ==> Lookup(db, ns, key).Some? && Lookup(Apply(db, e), ns, key).None?
    ensures Stamps(e, ns, key) ==> Lookup(Apply(db, e), ns, key) == Some(e.effect.item)
    ensures !Stamps(e, ns, key) && !Buries(e, ns, key) ==> Lookup(Apply(db, e), ns, key) == Lookup(db, ns, key)
    ensures Stamps(e, ns, key) && !Births(e, ns, key) ==> Lookup(db, ns, key).Some?
    ensures Stamps(e, ns, key) && !Writes(e, ns, key) ==> Lookup(db, ns, key).value.value == e.effect.item.value
  {
    if !At(e, ns, key) {
      ElsewhereUntouched(db, e, ns, key);
    }
  }

  /** Entry `i` of a legal history, seen from one key. */
  lemma EntryHere(log: seq<Entry>, clock: Time, i: nat, ns: Name, key: Name)
    requires LegalLog(log, clock) && i < |log|
    ensures var before, after := Lookup(Replay(log[..i]), ns, key), Lookup(Replay(log[..i + 1]), ns, key);
            && (Births(log[i], ns, key) ==> before.None?)
            && (Buries(log[i], ns, key) ==> before.Some? && after.None?)
            && (Stamps(log[i], ns, key) ==> after == Some(log[i].effect.item) && !Buries(log[i], ns, key))
            && (!Stamps(log[i], ns, key) && !Buries(log[i], ns, key) ==> after == before)
            && (Stamps(log[i], ns, key) && !Births(log[i], ns, key) ==> before.Some?)
            && (Stamps(log[i], ns, key) && !Writes(log[i], ns, key) ==> before.value.value == after.value.value)
            && (Writes(log[i], ns, key) ==> Stamps(log[i], ns, key))
  {
    EntryWasLegal(log, clock, i);
    EffectHere(Replay(log[..i]), log[i], ns, key);
  }

  // ----- conservation

  ghost function BirthCount(log: seq<Entry>, ns: Name, key: Name): nat {
    if log == [] then 0
    else BirthCount(log[..|log| - 1], ns, key) + if Births(log[|log| - 1], ns, key) then 1 else 0
  }

  ghost function BurialCount(log: seq<Entry>, ns: Name, key: Name): nat {
    if log == [] then 0
    else BurialCount(log[..|log| - 1], ns, key) + if Buries(log[|log| - 1], ns, key) then 1 else 0
  }

  /** Over any history, the items that came under a key and the items that left it balance:
      the difference is 1 while the key is held and 0 while it is free. */
  lemma {:induction false} Conservation(log: seq<Entry>, clock: Time, ns: Name, key: Name)
    requires LegalLog(log, clock)
    ensures BirthCount(log, ns, key) - BurialCount(log, ns, key) == Present(log, ns, key)
  {
    if log != [] {
      var n := |log| - 1;
      Conservation(log[..n], clock, ns, key);
      EffectHere(Replay(log[..n]), log[n], ns, key);
    }
  }

  // ----- at most one consumption per item

  /** The item under the key before entry `i` came with entry `LastBirth(log, i, ..)`. */
  ghost function LastBirth(log: seq<Entry>, i: nat, ns: Name, key: Name): int
    requires i <= |log|
  {
    if i == 0 then -1
    else if Births(log[i - 1], ns, key) then i - 1
    else LastBirth(log, i - 1, ns, key)
  }

  lemma {:induction false} LastBirthIsBirth(log: seq<Entry>, clock: Time, i: nat, ns: Name, key: Name)
    requires LegalLog(log, clock) && i <= |log|
    ensures -1 <= LastBirth(log, i, ns, key) < i
    ensures LastBirth(log, i, ns, key) >= 0 ==> Births(log[LastBirth(log, i, ns, key)], ns, key)
    ensures Lookup(Replay(log[..i]), ns, key).Some? ==> LastBirth(log, i, ns, key) >= 0
    decreases i
  {
    if i > 0 {
      LastBirthIsBirth(log, clock, i - 1, ns, key);
      EntryHere(log, clock, i - 1, ns, key);
    }
  }

  /** After a burial the key is free until the next birth. */
  lemma {:induction false} FreeUntilBirth(log: seq<Entry>, clock: Time, i: nat, j: nat, ns: Name, key: Name)
    requires LegalLog(log, clock) && i < j <= |log| && Buries(log[i], ns, key)
    ensures LastBirth(log, j, ns, key) <= i ==> Lookup(Replay(log[..j]), ns, key).None?
    decreases j
  {
    EntryHere(log, clock, j - 1, ns, key);
    if j - 1 > i {
      FreeUntilBirth(log, clock, i, j - 1, ns, key);
    }
  }

  /** Each stored item is consumed at most once: two removals of a key, whoever makes them,
      take items that came with two different insertions, the later one made in between. */
  lemma ConsumedAtMostOnce(log: seq<Entry>, clock: Time, i: nat, j: nat, ns: Name, key: Name)
    requires LegalLog(log, clock) && i < j < |log|
    requires Buries(log[i], ns, key) && Buries(log[j], ns, key)
    ensures 0 <= LastBirth(log, i, ns, key) < i < LastBirth(log, j, ns, key) < j
    ensures Births(log[LastBirth(log, j, ns, key)], ns, key)
  {
    EntryHere(log, clock, i, ns, key);
    EntryHere(log, clock, j, ns, key);
    LastBirthIsBirth(log, clock, i, ns, key);
    LastBirthIsBirth(log, clock, j, ns, key);
    FreeUntilBirth(log, clock, i, j, ns, key);
  }

  // ----- where items come from

  /** Entry `w` wrote the value, entry `k` at or after it fixed the purge time, and the item
      has been under the key since. */
  ghost predicate ComesFrom(log: seq<Entry>, i: nat, ns: Name, key: Name, item: Item, w: nat, k: nat) {
    && w <= k < i <= |log|
    && Writes(log[w], ns, key) && log[w].effect.item.value == item.value
    && Stamps(log[k], ns, key) && log[k].effect.item == item
    && forall m :: w < m < i ==> !Buries(log[m], ns, key) && !Writes(log[m], ns, key)
  }

  /** The origin of an item after one more entry: itself, a fresh stamp, or as before. */
  lemma OriginExtends(log: seq<Entry>, i: nat, ns: Name, key: Name, was: Item, item: Item, w: nat, k: nat)
    requires 0 < i <= |log| && !Buries(log[i - 1], ns, key) && !Writes(log[i - 1], ns, key)
    requires ComesFrom(log, i - 1, ns, key, was, w, k) && item.value == was.value
    requires if Stamps(log[i - 1], ns, key) then log[i - 1].effect.item == item else item == was
    ensures ComesFrom(log, i, ns, key, item, w, if Stamps(log[i - 1], ns, key) then i - 1 else k)
  {
    hide At, Buries;
  }

  /** Every item under a key has an origin in the history. */
  lemma {:induction false} EveryItemComesFrom(log: seq<Entry>, clock: Time, i: nat, ns: Name, key: Name)
    returns (w: nat, k: nat)
    requires LegalLog(log, clock) && i <= |log| && Lookup(Replay(log[..i]), ns, key).Some?
    ensures ComesFrom(log, i, ns, key, Lookup(Replay(log[..i]), ns, key).value, w, k)
    decreases i
  {
    var e := log[i - 1];
    EntryHere(log, clock, i - 1, ns, key);
    if Writes(e, ns, key) {
      w, k := i - 1, i - 1;
    } else {
      hide Apply, Legal, LegalLog, Replay, At, Lookup, Writes, Stamps, Buries, Births, ComesFrom;
      w, k := EveryItemComesFrom(log, clock, i - 1, ns, key);
      OriginExtends(log, i, ns, key, Lookup(Replay(log[..i - 1]), ns, key).value,
                    Lookup(Replay(log[..i]), ns, key).value, w, k);
      if Stamps(e, ns, key) {
        k := i - 1;
      }
    }
  }

  function TimeToLive(op: Op): int
    requires op.CheckAndSet? || op.Set? || op.Refresh?
  {
    op.ttl
  }

  lemma StampFits(log: seq<Entry>, clock: Time, k: nat, ns: Name, key: Name)
    requires LegalLog(log, clock) && k < |log| && Stamps(log[k], ns, key)
    ensures log[k].op.Set? || log[k].op.CheckAndSet? || log[k].op.Refresh?
    ensures log[k].begun <= log[k].effect.item.purge - TimeToLive(log[k].op) <= log[k].at
    ensures Writes(log[k], ns, key) ==> !log[k].op.Refresh? && log[k].op.value == log[k].effect.item.value
  {
    EntryWasLegal(log, clock, k);
  }

  /** No thin air and no over-age: when a read answers with a value, that value was written
      earlier under the same key by a Set or CheckAndSet, nothing has removed or overwritten
      it since, and the read's clock shows no more than the ttl after the clock reading that
      the write or a later Refresh took during its own call. */
  lemma ReadsAreGenuine(log: seq<Entry>, clock: Time, i: nat, c: Time, v: Value) returns (w: nat, k: nat)
    requires LegalLog(log, clock) && i < |log| && log[i].Called?
    requires log[i].effect.Looked? || log[i].effect.Took?
    requires Verdict(log[i].op, log[i].effect, c) == Got(v)
    ensures ComesFrom(log, i, log[i].op.ns, log[i].op.key, log[i].effect.item, w, k)
    ensures (log[w].op.Set? || log[w].op.CheckAndSet?) && log[w].op.value == v
    ensures log[k].op.Set? || log[k].op.CheckAndSet? || log[k].op.Refresh?
    ensures c <= log[k].effect.item.purge
    ensures log[k].begun <= log[k].effect.item.purge - TimeToLive(log[k].op) <= log[k].at
  {
    EntryWasLegal(log, clock, i);
    w, k := EveryItemComesFrom(log, clock, i, log[i].op.ns, log[i].op.key);
    StampFits(log, clock, w, log[i].op.ns, log[i].op.key);
    StampFits(log, clock, k, log[i].op.ns, log[i].op.key);
    hide Apply, Legal, LegalLog, Replay, At;
  }

  // ----- the collector

  /** Whatever ran between the collector's look at an item and its delete, what it deletes
      had expired strictly before the clock reading the pass began with. */
  lemma CollectorTakesOnlyExpired(log: seq<Entry>, clock: Time, i: nat)
    requires LegalLog(log, clock) && i < |log| && log[i].Collected?
    ensures Lookup(Replay(log[..i]), log[i].name, log[i].spot) == Some(log[i].item)
    ensures log[i].item.purge < log[i].cutoff <= log[i].at <= clock
    ensures forall ns, key :: Lookup(Replay(log[..i + 1]), ns, key) ==
              if ns == log[i].name && key == log[i].spot then None else Lookup(Replay(log[..i]), ns, key)
  {
    EntryWasLegal(log, clock, i);
    LogEntryInPast(log, clock, i);
    forall ns, key | ns != log[i].name || key != log[i].spot
      ensures Lookup(Replay(log[..i + 1]), ns, key) == Lookup(Replay(log[..i]), ns, key)
    {
      ElsewhereUntouched(Replay(log[..i]), log[i], ns, key);
    }
  }

  /** A live item leaves a key only through a call: when it is gone one entry later, that
      entry is a consuming read, a Remove or a Set. */
  lemma LiveItemsLeaveByCallsOnly(log: seq<Entry>, clock: Time, i: nat, ns: Name, key: Name)
    requires LegalLog(log, clock) && i < |log| && !log[i].Opened?
    requires Lookup(Replay(log[..i]), ns, key).Some?
    requires log[i].at <= Lookup(Replay(log[..i]), ns, key).value.purge
    requires var after := Lookup(Replay(log[..i + 1]), ns, key);
             after.None? || after.value.value != Lookup(Replay(log[..i]), ns, key).value.value
    ensures log[i].Called? && At(log[i], ns, key)
    ensures log[i].op.ReadAndRemove? || log[i].op.Remove? || log[i].op.Set?
  {
    EntryWasLegal(log, clock, i);
    EffectHere(Replay(log[..i]), log[i], ns, key);
  }

  // ----- changes that are reported

  /** The entry gives the key another item, or none. */
  ghost predicate Disturbs(e: Entry, ns: Name, key: Name) {
    Stamps(e, ns, key) || Buries(e, ns, key)
  }

  /** An item that was under the key and no longer is has been disturbed in between. */
  lemma {:induction false} Departure(
    log: seq<Entry>, clock: Time, i: nat, since: nat, ns: Name, key: Name, item: Item) returns (j: nat)
    requires LegalLog(log, clock) && i <= |log|
    requires HeldSince(log[..i], since, ns, key, item) && Lookup(Replay(log[..i]), ns, key) != Some(item)
    ensures since <= j < i && Disturbs(log[j], ns, key)
    decreases i
  {
    assert i > 0 && log[..i][..i - 1] == log[..i - 1];
    hide LegalLog, Replay, Stamps, Buries, Births, Writes, Lookup;
    EntryHere(log, clock, i - 1, ns, key);
    if Lookup(Replay(log[..i - 1]), ns, key) == Some(item) {
      j := i - 1;
    } else {
      j := Departure(log, clock, i - 1, since, ns, key, item);
    }
  }

  /** ItemChanged is never reported of a key that was left alone: the item the Refresh had
      loaded was under the key during the call, and an entry made during the call gave the
      key another item or none. */
  lemma ChangesAreReal(log: seq<Entry>, clock: Time, i: nat) returns (j: nat)
    requires LegalLog(log, clock) && i < |log| && log[i].Called? && log[i].effect.Changed?
    ensures HeldSince(log[..i], log[i].since, log[i].op.ns, log[i].op.key, log[i].effect.was)
    ensures log[i].since <= j < i && Disturbs(log[j], log[i].op.ns, log[i].op.key)
  {
    EntryWasLegal(log, clock, i);
    j := Departure(log, clock, i, log[i].since, log[i].op.ns, log[i].op.key, log[i].effect.was);
  }

  // ----- calls that must not disturb

  /** Looking, missing, being refused and coming too late for a swap change nothing at all. */
  lemma RefusalsChangeNothing(log: seq<Entry>, clock: Time, i: nat)
    requires LegalLog(log, clock) && i < |log| && log[i].Called?
    requires var e := log[i].effect; e.NoNamespace? || e.NoKey? || e.Looked? || e.Refused? || e.Changed?
    ensures Replay(log[..i + 1]) == Replay(log[..i])
  {
    EntryWasLegal(log, clock, i);
  }
}
