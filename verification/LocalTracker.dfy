/** The in-process tracker: a map of counter records updated in place, with stale records
    deleted from inside unrelated calls. The mutex makes each method one atomic step. */
module LocalTracker {
  import opened WindowTime
  import opened SlidingWindow

  /** The purge delay `NewLocalTracker` uses. */
  const PURGE_DELAY := 5 * MINUTE

  class Counter {
    var current: nat
    var previous: nat
    var window: int  // a stamp, in Unix milliseconds

    constructor (current: nat, previous: nat, window: int)
      ensures View() == Entry(current, previous, window)
    {
      this.current, this.previous, this.window := current, previous, window;
    }

    function View(): Entry
      reads this
    {
      Entry(current, previous, window)
    }

    /** Counts one request in the window stamped `scoped`. */
    method Count(scoped: int, previousStamp: int)
      modifies this
      ensures View() == Counted(old(View()), scoped, previousStamp)
    {
      if scoped == window {
        current := current + 1;
      } else {
        if window == previousStamp {
          previous := current;
        } else {
          previous := 0;
        }
        current := 1;
        window := scoped;
      }
    }
  }

  /** The table compresses the log and holds nothing stamped at or before `horizon`. */
  ghost predicate Sound(cfg: Config, table: Table, log: seq<Hit>, last: int, horizon: int)
    requires cfg.windowLength > 0
  {
    && Consistent(cfg, table, log, last)
    && (forall id :: id in table ==> table[id].window > horizon)
    && horizon < Stamp(last, cfg.windowLength)
  }

  lemma SoundIsRecent(cfg: Config, table: Table, log: seq<Hit>, last: int, horizon: int, cutoff: int)
    requires cfg.windowLength > 0 && Sound(cfg, table, log, last, horizon) && cutoff <= horizon
    ensures forall id :: id in table ==> table[id].window > cutoff
  {
  }

  lemma PurgeSound(cfg: Config, table: Table, log: seq<Hit>, last: int, now: int, horizon: int)
    requires cfg.Valid() && Sound(cfg, table, log, last, horizon) && last <= WindowOf(now, cfg.windowLength)
    ensures Sound(cfg, table, log, WindowOf(now, cfg.windowLength), horizon)
    ensures Sound(cfg, Swept(cfg, table, now), log, WindowOf(now, cfg.windowLength), UnixMilli(now - 3 * cfg.windowLength))
  {
    WaitConsistent(cfg, table, log, last, now);
    StampOrder(last, WindowOf(now, cfg.windowLength), cfg.windowLength);
    SweepConsistent(cfg, table, log, last, now);
    HorizonIsStale(cfg, now);
  }

  lemma IncrementSound(cfg: Config, table: Table, log: seq<Hit>, id: Id, now: int, horizon: int)
    requires cfg.Valid() && Sound(cfg, table, log, WindowOf(now, cfg.windowLength), horizon)
    ensures IncrementValue(cfg, table, id, now) == LogIncrement(cfg, log, id, now)
    ensures Sound(cfg, table[id := Bumped(cfg, table, id, now)], log + [Hit(id, now)],
                  WindowOf(now, cfg.windowLength), horizon)
  {
    IncrementRefinesLog(cfg, table, log, id, now);
    TruncateIsWindowStart(now, cfg.windowLength);
  }

  lemma UnixMilliMonotone(a: int, b: int)
    ensures a <= b ==> UnixMilli(a) <= UnixMilli(b)
  {
  }

  lemma HorizonIsStale(cfg: Config, now: int)
    requires cfg.Valid()
    ensures UnixMilli(now - 3 * cfg.windowLength) < Stamp(WindowOf(now, cfg.windowLength), cfg.windowLength)
  {
    TruncateIsWindowStart(now, cfg.windowLength);
  }

  lemma {:induction false} LatestHit(cfg: Config, log: seq<Hit>, id: Id) returns (i: nat)
    requires cfg.windowLength > 0 && Seen(log, id)
    ensures i < |log| && log[i].id == id && WindowOf(log[i].now, cfg.windowLength) == Latest(cfg, log, id)
  {
    var n := |log| - 1;
    if log[n].id == id {
      i := n;
    } else {
      SeenSplit(log, id);
      i := LatestHit(cfg, log[..n], id);
    }
  }

  lemma {:induction false} SubsetIsSmaller<T>(a: set<T>, b: set<T>)
    requires a <= b
    ensures |a| <= |b|
  {
    if a != {} {
      var x :| x in a;
      SubsetIsSmaller(a - {x}, b - {x});
    }
  }

  class Tracker {
    var counters: map<Id, Counter>
    const cfg: Config
    const purgeDelay: nat
    var purgeTime: int

    /** Every increment so far, oldest first, and the window of the latest call. */
    ghost var log: seq<Hit>
    ghost var last: int

    /** The records as values. */
    ghost function Table(): Table
      reads this`counters, counters.Values
    {
      map id | id in counters :: counters[id].View()
    }

    /** No record is shared by two ids. */
    ghost predicate Distinct()
      reads this`counters
    {
      forall i, j :: i in counters && j in counters && i != j ==> counters[i] != counters[j]
    }

    ghost predicate Valid()
      reads this, counters.Values
    {
      && cfg.Valid()
      && Distinct()
      && Sound(cfg, Table(), log, last, Horizon())
    }

    /** No retained counter is stamped at or before this: the cut-off of the latest purge. */
    ghost function Horizon(): int
      reads this`purgeTime
    {
      UnixMilli(purgeTime - purgeDelay - 3 * cfg.windowLength)
    }

    constructor (cfg: Config, purgeDelay: nat, now: int)
      requires cfg.Valid()
      ensures Valid() && this.cfg == cfg && this.purgeDelay == purgeDelay
      ensures purgeTime == now + purgeDelay
      ensures Table() == map[] && log == [] && last == WindowOf(now, cfg.windowLength)
      ensures fresh(counters.Values)
    {
      this.cfg, this.purgeDelay := cfg, purgeDelay;
      counters := map[];
      purgeTime := now + purgeDelay;
      log, last := [], WindowOf(now, cfg.windowLength);
      new;
      EmptyConsistent(cfg, last);
      HorizonIsStale(cfg, now);
    }

    /** Every retained counter's window is later than now - purgeDelay - 3 windows. */
    ghost predicate RecentOnly(now: int)
      reads this`counters, counters.Values
    {
      forall id :: id in Table() ==> Table()[id].window > UnixMilli(now - purgeDelay - 3 * cfg.windowLength)
    }

    /** The purge loop. */
    method DeleteUpTo(purgeTarget: int)
      requires Distinct()
      modifies this`counters
      ensures Distinct() && counters.Values <= old(counters.Values)
      ensures Table() == KeptAfter(old(Table()), purgeTarget)
    {
      var entries := counters;
      var todo := entries.Keys;
      while todo != {}
        invariant todo <= entries.Keys
        invariant forall id :: id in counters <==> id in entries && (id in todo || entries[id].window > purgeTarget)
        invariant forall id :: id in counters ==> counters[id] == entries[id]
        decreases todo
      {
        var k :| k in todo;
        todo := todo - {k};
        if entries[k].window <= purgeTarget {
          counters := map id | id in counters && id != k :: counters[id];
        }
      }
    }

    /** Deletes the counters stamped at or before three windows ago, when it is time to. */
    method Purge(now: int)
      requires Valid() && last <= WindowOf(now, cfg.windowLength)
      modifies this
      ensures Valid() && counters.Values <= old(counters.Values)
      ensures log == old(log) && last == WindowOf(now, cfg.windowLength)
      ensures Table() == if old(purgeTime) <= now then Swept(cfg, old(Table()), now) else old(Table())
      ensures purgeTime == if old(purgeTime) <= now then now + purgeDelay else old(purgeTime)
      ensures UnixMilli(now - purgeDelay - 3 * cfg.windowLength) <= Horizon()
    {
      hide Sound, UnixMilli, WindowOf, Stamp;
      PurgeSound(cfg, Table(), log, last, now, Horizon());
      last := WindowOf(now, cfg.windowLength);
      if purgeTime > now {
        UnixMilliMonotone(now - purgeDelay - 3 * cfg.windowLength, purgeTime - purgeDelay - 3 * cfg.windowLength);
        return;
      }
      DeleteUpTo(UnixMilli(now - 3 * cfg.windowLength));
      purgeTime := now + purgeDelay;
      UnixMilliMonotone(now - purgeDelay - 3 * cfg.windowLength, now - 3 * cfg.windowLength);
    }

    /** The estimate for `id`, read straight off the log of increments; nothing is counted. */
    method Get(id: Id, now: int) returns (rate: nat)
      requires Valid() && last <= WindowOf(now, cfg.windowLength)
      modifies this
      ensures Valid() && fresh(counters.Values - old(counters.Values))
      ensures rate == LogGet(cfg, log, id, now)
      ensures log == old(log) && last == WindowOf(now, cfg.windowLength)
      ensures Table() == Ready(cfg, old(Table()), Call.Get(id, now), old(purgeTime) <= now)
      ensures purgeTime == if old(purgeTime) <= now then now + purgeDelay else old(purgeTime)
      ensures RecentOnly(now)
    {
      Purge(now);
      GetRefinesLog(cfg, Table(), log, id, now);
      hide Consistent, Stamp, WindowOf;
      var scopedWindow := Truncate(now, cfg.windowLength);
      var previousWindow := scopedWindow - cfg.windowLength;
      TruncateIsWindowStart(now, cfg.windowLength);
      if id !in counters {
        return 0;
      }
      var v := counters[id];
      assert Table()[id] == v.View();
      if UnixMilli(scopedWindow) == v.window {
        return SlidingRate(cfg, v.current, v.previous, now - scopedWindow);
      }
      if v.window == UnixMilli(previousWindow) {
        return v.current;
      } else {
        return 0;
      }
    }

    /** The critical section of `Increment` after the purge: find or make the record, roll it
        over if its window has passed, count. */
    method Record(id: Id, now: int) returns (rate: nat)
      requires Distinct() && cfg.windowLength > 0
      modifies this`counters, counters.Values
      ensures Distinct() && fresh(counters.Values - old(counters.Values))
      ensures Table() == old(Table())[id := Bumped(cfg, old(Table()), id, now)]
      ensures rate == IncrementValue(cfg, old(Table()), id, now)
    {
      hide Truncate, UnixMilli, WindowOf;
      var scopedWindow := Truncate(now, cfg.windowLength);
      var previousWindow := scopedWindow - cfg.windowLength;
      TruncateIsWindowStart(now, cfg.windowLength);
      var elapsed := now - scopedWindow;
      ghost var table := Table();
      if id !in counters {
        var v := new Counter(1, 0, UnixMilli(scopedWindow));
        counters := counters[id := v];
        return 1;
      }
      var v := counters[id];
      assert table[id] == v.View();
      v.Count(UnixMilli(scopedWindow), UnixMilli(previousWindow));
      return SlidingRate(cfg, v.current, v.previous, elapsed);
    }

    /** Counts one request of `id` and answers the new estimate, again straight off the log. */
    method Increment(id: Id, now: int) returns (rate: nat)
      requires Valid() && last <= WindowOf(now, cfg.windowLength)
      modifies this, counters.Values
      ensures Valid() && fresh(counters.Values - old(counters.Values))
      ensures rate == LogIncrement(cfg, old(log), id, now)
      ensures log == old(log) + [Hit(id, now)] && last == WindowOf(now, cfg.windowLength)
      ensures Table() == After(cfg, Ready(cfg, old(Table()), Call.Increment(id, now), old(purgeTime) <= now),
                               Call.Increment(id, now))
      ensures purgeTime == if old(purgeTime) <= now then now + purgeDelay else old(purgeTime)
      ensures RecentOnly(now)
    {
      hide Sound, UnixMilli, WindowOf, Stamp, Bumped, LogIncrement, IncrementValue;
      Purge(now);
      IncrementSound(cfg, Table(), log, id, now, Horizon());
      rate := Record(id, now);
      SoundIsRecent(cfg, Table(), log + [Hit(id, now)], last, Horizon(), UnixMilli(now - purgeDelay - 3 * cfg.windowLength));
      log := log + [Hit(id, now)];
    }

    /** Bounded memory: no more counters than distinct ids incremented since the horizon. */
    lemma CountersAreBounded(now: int)
      requires Valid() && RecentOnly(now)
      ensures |counters| <= |set i | 0 <= i < |log| &&
                Stamp(WindowOf(log[i].now, cfg.windowLength), cfg.windowLength)
                > UnixMilli(now - purgeDelay - 3 * cfg.windowLength) :: log[i].id|
    {
      var horizon := UnixMilli(now - purgeDelay - 3 * cfg.windowLength);
      var active := set i | 0 <= i < |log| &&
        Stamp(WindowOf(log[i].now, cfg.windowLength), cfg.windowLength) > horizon :: log[i].id;
      forall id | id in counters
        ensures id in active
      {
        assert id in Table();
        var i := LatestHit(cfg, log, id);
      }
      SubsetIsSmaller(counters.Keys, active);
    }
  }
}
