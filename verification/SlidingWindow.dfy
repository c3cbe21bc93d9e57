/** The counters of the sliding-window tracker as a value, and the full log of requests
    that they compress: two counts and a stamp per id stand for every past increment. */
module SlidingWindow {
  import opened WindowTime

  type Id = nat

  /** What one `counter` record holds. */
  datatype Entry = Entry(current: nat, previous: nat, window: int)

  type Table = map<Id, Entry>

  /** `decay(pv, e)` is the share of `pv` that survives `e` milliseconds into the window:
      the truncation of `float64(pv) * (float64(W - e) / float64(W))`. */
  datatype Config = Config(windowLength: int, decay: (nat, nat) -> nat) {
    /** Milliseconds in a window. */
    function Millis(): int {
      windowLength / MILLISECOND
    }

    /** All that the log refinement needs of the arithmetic: decay never adds. */
    ghost predicate Valid() {
      && windowLength >= MILLISECOND
      && forall pv: nat, e: nat :: e <= Millis() ==> decay(pv, e) <= pv
    }

    /** Later in the window no more survives. */
    ghost predicate Fading() {
      forall pv: nat, e: nat, e': nat :: e <= e' <= Millis() ==> decay(pv, e') <= decay(pv, e)
    }

    /** More requests leave no less, and no more than they were more. */
    ghost predicate Steady() {
      forall a: nat, b: nat, e: nat :: a <= b && e <= Millis() ==>
        decay(a, e) <= decay(b, e) && decay(b, e) - decay(a, e) <= b - a
    }

    /** The result is at most `slack` below the exact quotient: 0 for exact arithmetic; 1 is
        meant for float64 at counts far below 2^53, whose product can land just under an
        integer. */
    ghost predicate Near(slack: nat)
      requires Millis() > 0
    {
      forall pv: nat, e: nat :: e <= Millis() ==> pv * (Millis() - e) / Millis() <= decay(pv, e) + slack
    }
  }

  /** One past `Increment`. */
  datatype Hit = Hit(id: Id, now: int)

  // ----- the operations on a table

  function SlidingRate(cfg: Config, current: nat, previous: nat, elapsed: nat): nat {
    cfg.decay(previous, elapsed / MILLISECOND) + current
  }

  function Elapsed(cfg: Config, now: int): nat
    requires cfg.windowLength > 0
  {
    TruncateIsWindowStart(now, cfg.windowLength);
    now - Truncate(now, cfg.windowLength)
  }

  function GetValue(cfg: Config, table: Table, id: Id, now: int): nat
    requires cfg.windowLength > 0
  {
    var scoped := Truncate(now, cfg.windowLength);
    if id !in table then 0
    else if UnixMilli(scoped) == table[id].window then
      SlidingRate(cfg, table[id].current, table[id].previous, Elapsed(cfg, now))
    else if table[id].window == UnixMilli(scoped - cfg.windowLength) then table[id].current
    else 0
  }

  /** One more in the window stamped `scoped`, the window before being stamped `previous`:
      count on, roll over, or start afresh. */
  function Counted(e: Entry, scoped: int, previous: int): Entry {
    if scoped == e.window then e.(current := e.current + 1)
    else if e.window == previous then Entry(1, e.current, scoped)
    else Entry(1, 0, scoped)
  }

  /** The entry an increment of `id` leaves behind. */
  function Bumped(cfg: Config, table: Table, id: Id, now: int): Entry
    requires cfg.windowLength > 0
  {
    var scoped := Truncate(now, cfg.windowLength);
    if id !in table then Entry(1, 0, UnixMilli(scoped))
    else Counted(table[id], UnixMilli(scoped), UnixMilli(scoped - cfg.windowLength))
  }

  /** A new id is answered with a plain 1; every other increment with the sliding rate. */
  function IncrementValue(cfg: Config, table: Table, id: Id, now: int): nat
    requires cfg.windowLength > 0
  {
    if id !in table then 1
    else
      var e := Bumped(cfg, table, id, now);
      SlidingRate(cfg, e.current, e.previous, Elapsed(cfg, now))
  }

  /** A table without what is stamped at or before `cutoff`. */
  function KeptAfter(table: Table, cutoff: int): Table {
    map id | id in table && table[id].window > cutoff :: table[id]
  }

  /** The purge drops what is stamped at or before three window lengths ago. */
  function Swept(cfg: Config, table: Table, now: int): Table {
    KeptAfter(table, UnixMilli(now - 3 * cfg.windowLength))
  }

  // ----- the log

  /** Successive calls arrive in non-decreasing windows, the last of them no later than
      window `last`. Within a window the clock readings may come in any order, because each
      is taken before the lock. */
  ghost predicate Ordered(cfg: Config, log: seq<Hit>, last: int)
    requires cfg.windowLength > 0
  {
    log == [] ||
    var n := |log| - 1;
    var k := WindowOf(log[n].now, cfg.windowLength);
    k <= last && Ordered(cfg, log[..n], k)
  }

  ghost predicate InWindow(cfg: Config, h: Hit, id: Id, k: int)
    requires cfg.windowLength > 0
  {
    h.id == id && WindowOf(h.now, cfg.windowLength) == k
  }

  /** How many logged increments of `id` fall in window `k`. */
  ghost function Count(cfg: Config, log: seq<Hit>, id: Id, k: int): nat
    requires cfg.windowLength > 0
  {
    if log == [] then 0
    else
      var n := |log| - 1;
      Count(cfg, log[..n], id, k) + if InWindow(cfg, log[n], id, k) then 1 else 0
  }

  ghost predicate Seen(log: seq<Hit>, id: Id) {
    exists i :: 0 <= i < |log| && log[i].id == id
  }

  /** The window of the latest increment of `id`. */
  ghost function Latest(cfg: Config, log: seq<Hit>, id: Id): int
    requires cfg.windowLength > 0 && Seen(log, id)
  {
    var n := |log| - 1;
    if log[n].id == id then WindowOf(log[n].now, cfg.windowLength)
    else Latest(cfg, log[..n], id)
  }

  /** What the whole log says `Get` should answer. */
  ghost function LogGet(cfg: Config, log: seq<Hit>, id: Id, now: int): nat
    requires cfg.windowLength > 0
  {
    var k := WindowOf(now, cfg.windowLength);
    var c, p := Count(cfg, log, id, k), Count(cfg, log, id, k - 1);
    if c > 0 then SlidingRate(cfg, c, p, Elapsed(cfg, now)) else p
  }

  /** What the whole log says `Increment` should answer. */
  ghost function LogIncrement(cfg: Config, log: seq<Hit>, id: Id, now: int): nat
    requires cfg.windowLength > 0
  {
    var k := WindowOf(now, cfg.windowLength);
    SlidingRate(cfg, Count(cfg, log, id, k) + 1, Count(cfg, log, id, k - 1), Elapsed(cfg, now))
  }

  // ----- counting

  lemma CountAppend(cfg: Config, log: seq<Hit>, h: Hit, id: Id, k: int)
    requires cfg.windowLength > 0
    ensures Count(cfg, log + [h], id, k) == Count(cfg, log, id, k) + if InWindow(cfg, h, id, k) then 1 else 0
  {
    assert (log + [h])[..|log|] == log;
  }

  lemma {:induction false} OrderedWeaken(cfg: Config, log: seq<Hit>, a: int, b: int)
    requires cfg.windowLength > 0 && a <= b && Ordered(cfg, log, a)
    ensures Ordered(cfg, log, b)
  {
  }

  lemma OrderedAppend(cfg: Config, log: seq<Hit>, h: Hit, last: int)
    requires cfg.windowLength > 0 && Ordered(cfg, log, last) && last <= WindowOf(h.now, cfg.windowLength)
    ensures Ordered(cfg, log + [h], WindowOf(h.now, cfg.windowLength))
  {
    assert (log + [h])[..|log|] == log;
    OrderedWeaken(cfg, log, last, WindowOf(h.now, cfg.windowLength));
  }

  lemma {:induction false} NothingLater(cfg: Config, log: seq<Hit>, last: int, id: Id, k: int)
    requires cfg.windowLength > 0 && Ordered(cfg, log, last) && last < k
    ensures Count(cfg, log, id, k) == 0
  {
    if log != [] {
      var n := |log| - 1;
      NothingLater(cfg, log[..n], WindowOf(log[n].now, cfg.windowLength), id, k);
    }
  }

  lemma {:induction false} SeenSplit(log: seq<Hit>, id: Id)
    requires log != []
    ensures Seen(log, id) <==> log[|log| - 1].id == id || Seen(log[..|log| - 1], id)
  {
    var n := |log| - 1;
    if Seen(log, id) && log[n].id != id {
      var i :| 0 <= i < |log| && log[i].id == id;
      assert log[..n][i].id == id;
    }
    if Seen(log[..n], id) {
      var i :| 0 <= i < n && log[..n][i].id == id;
      assert log[i].id == id;
    }
  }

  /** The latest window of an id holds at least one of its hits, no later window holds any. */
  lemma {:induction false} LatestIsLast(cfg: Config, log: seq<Hit>, last: int, id: Id, k: int)
    requires cfg.windowLength > 0 && Ordered(cfg, log, last) && Seen(log, id)
    ensures Latest(cfg, log, id) <= last
    ensures Count(cfg, log, id, Latest(cfg, log, id)) >= 1
    ensures k > Latest(cfg, log, id) ==> Count(cfg, log, id, k) == 0
  {
    hide WindowOf, Truncate, Stamp;
    var n := |log| - 1;
    var w := WindowOf(log[n].now, cfg.windowLength);
    if log[n].id == id {
      if k > w { NothingLater(cfg, log[..n], w, id, k); }
    } else {
      SeenSplit(log, id);
      LatestIsLast(cfg, log[..n], w, id, k);
    }
  }

  // ----- the refinement

  /** The table compresses the log: each retained entry holds exactly the log's counts for
      the id's latest window and the one before it, and an id without an entry has nothing
      in window `last - 1` or later. */
  ghost predicate Consistent(cfg: Config, table: Table, log: seq<Hit>, last: int)
    requires cfg.windowLength > 0
  {
    && Ordered(cfg, log, last)
    && (forall id :: id in table ==> Seen(log, id) && Compresses(cfg, table[id], log, id))
    && (forall id: Id, k :: id !in table && k >= last - 1 ==> Count(cfg, log, id, k) == 0)
  }

  ghost predicate Compresses(cfg: Config, e: Entry, log: seq<Hit>, id: Id)
    requires cfg.windowLength > 0 && Seen(log, id)
  {
    var k := Latest(cfg, log, id);
    e == Entry(Count(cfg, log, id, k), Count(cfg, log, id, k - 1), Stamp(k, cfg.windowLength))
  }

  lemma EmptyConsistent(cfg: Config, last: int)
    requires cfg.windowLength > 0
    ensures Consistent(cfg, map[], [], last)
  {
  }

  /** A sweep keeps the refinement, on any schedule and whatever its clock reading: what it
      deletes can no longer influence an answer. */
  lemma SweepConsistent(cfg: Config, table: Table, log: seq<Hit>, last: int, now: int)
    requires cfg.Valid() && Consistent(cfg, table, log, last)
    ensures var w := WindowOf(now, cfg.windowLength);
            Consistent(cfg, Swept(cfg, table, now), log, if last <= w then w else last)
  {
    var w := WindowOf(now, cfg.windowLength);
    var latest := if last <= w then w else last;
    var swept := Swept(cfg, table, now);
    OrderedWeaken(cfg, log, last, latest);
    forall id: Id, k | id !in swept && k >= latest - 1
      ensures Count(cfg, log, id, k) == 0
    {
      if id in table {
        CutoffIsStale(now, Latest(cfg, log, id), cfg.windowLength);
        LatestIsLast(cfg, log, last, id, k);
      }
    }
  }

  /** Of windows of whole milliseconds, a sweep takes exactly those three or more back. */
  lemma SweepTakesExactly(cfg: Config, table: Table, id: Id, k: int, now: int)
    requires cfg.Valid() && cfg.windowLength % 1_000_000 == 0
    requires id in table && table[id].window == Stamp(k, cfg.windowLength)
    ensures id in Swept(cfg, table, now) <==> k > now / cfg.windowLength - 3
  {
    CutoffIsExact(now, k, cfg.windowLength);
  }

  /** Skipping the sweep keeps it too. */
  lemma WaitConsistent(cfg: Config, table: Table, log: seq<Hit>, last: int, now: int)
    requires cfg.Valid() && Consistent(cfg, table, log, last) && last <= WindowOf(now, cfg.windowLength)
    ensures Consistent(cfg, table, log, WindowOf(now, cfg.windowLength))
  {
    OrderedWeaken(cfg, log, last, WindowOf(now, cfg.windowLength));
  }

  /** `Get` answers from the table what the whole log says. */
  lemma GetRefinesLog(cfg: Config, table: Table, log: seq<Hit>, id: Id, now: int)
    requires cfg.Valid() && Consistent(cfg, table, log, WindowOf(now, cfg.windowLength))
    ensures GetValue(cfg, table, id, now) == LogGet(cfg, log, id, now)
  {
    hide WindowOf, Truncate, Stamp;
    var w := WindowOf(now, cfg.windowLength);
    if id in table {
      StampsIdentifyWindows(now, Latest(cfg, log, id), cfg.windowLength);
      LatestIsLast(cfg, log, w, id, w);
      LatestIsLast(cfg, log, w, id, w - 1);
    }
  }

  /** `Increment` answers what the whole log says, and its table compresses the longer log. */
  lemma IncrementRefinesLog(cfg: Config, table: Table, log: seq<Hit>, id: Id, now: int)
    requires cfg.Valid() && Consistent(cfg, table, log, WindowOf(now, cfg.windowLength))
    ensures IncrementValue(cfg, table, id, now) == LogIncrement(cfg, log, id, now)
    ensures Consistent(cfg, table[id := Bumped(cfg, table, id, now)], log + [Hit(id, now)], WindowOf(now, cfg.windowLength))
  {
    hide WindowOf, Truncate, Stamp;
    var w := WindowOf(now, cfg.windowLength);
    ElapsedWithinWindow(now, cfg.windowLength);
    if id in table {
      StampsIdentifyWindows(now, Latest(cfg, log, id), cfg.windowLength);
      LatestIsLast(cfg, log, w, id, w);
      LatestIsLast(cfg, log, w, id, w - 1);
    }
    BumpCompresses(cfg, table, log, id, now);
    OthersKept(cfg, table, log, id, now);
    OrderedAppend(cfg, log, Hit(id, now), w);
  }

  /** As long as an id's own windows do not go back, its answers are the log's, whatever the
      windows of other ids do. */
  lemma ForwardAgrees(cfg: Config, table: Table, log: seq<Hit>, last: int, id: Id, now: int)
    requires cfg.Valid() && Consistent(cfg, table, log, last)
    requires id in table && Latest(cfg, log, id) <= WindowOf(now, cfg.windowLength)
    ensures IncrementValue(cfg, table, id, now) == LogIncrement(cfg, log, id, now)
  {
    hide WindowOf, Truncate, Stamp, UnixMilli;
    var w := WindowOf(now, cfg.windowLength);
    ElapsedWithinWindow(now, cfg.windowLength);
    StampsIdentifyWindows(now, Latest(cfg, log, id), cfg.windowLength);
    LatestIsLast(cfg, log, last, id, w);
    LatestIsLast(cfg, log, last, id, w - 1);
  }

  /** Without a counter, or with one of a later window, an id starts afresh. */
  lemma BackwardIsOne(cfg: Config, table: Table, log: seq<Hit>, last: int, id: Id, now: int)
    requires cfg.Valid() && Consistent(cfg, table, log, last)
    requires id !in table || WindowOf(now, cfg.windowLength) < Latest(cfg, log, id)
    ensures IncrementValue(cfg, table, id, now) == 1
    ensures Bumped(cfg, table, id, now) == Entry(1, 0, Stamp(WindowOf(now, cfg.windowLength), cfg.windowLength))
  {
    ElapsedWithinWindow(now, cfg.windowLength);
    StampsIdentifyWindows(now, WindowOf(now, cfg.windowLength), cfg.windowLength);
    if id in table {
      StampsIdentifyWindows(now, Latest(cfg, log, id), cfg.windowLength);
    }
    hide WindowOf, Truncate, Stamp, UnixMilli, Ordered;
  }

  /** A call may come in any window, an earlier one included. It is answered what the log
      says exactly when the id has a counter and the window does not go back behind it, or
      when the log has nothing to add to the call itself. Otherwise the counter is reset, or
      was purged too early, and the call is answered 1. */
  lemma IncrementMatchesLogExactlyWhen(cfg: Config, table: Table, log: seq<Hit>, last: int, id: Id, now: int)
    requires cfg.Valid() && Consistent(cfg, table, log, last)
    ensures var k := WindowOf(now, cfg.windowLength);
            IncrementValue(cfg, table, id, now) == LogIncrement(cfg, log, id, now) <==>
              ((id in table && Latest(cfg, log, id) <= k) ||
               (Count(cfg, log, id, k) == 0 && cfg.decay(Count(cfg, log, id, k - 1), Elapsed(cfg, now) / MILLISECOND) == 0))
    ensures id !in table || WindowOf(now, cfg.windowLength) < Latest(cfg, log, id) ==>
              IncrementValue(cfg, table, id, now) == 1 &&
              Bumped(cfg, table, id, now) == Entry(1, 0, Stamp(WindowOf(now, cfg.windowLength), cfg.windowLength))
  {
    hide IncrementValue, Bumped, WindowOf, Truncate, Stamp, Count, Elapsed;
    if id in table && Latest(cfg, log, id) <= WindowOf(now, cfg.windowLength) {
      ForwardAgrees(cfg, table, log, last, id, now);
    } else {
      BackwardIsOne(cfg, table, log, last, id, now);
    }
  }

  /** The same of Get, which shows nothing for a counter that is missing or later. */
  lemma GetMatchesLogExactlyWhen(cfg: Config, table: Table, log: seq<Hit>, last: int, id: Id, now: int)
    requires cfg.Valid() && Consistent(cfg, table, log, last)
    ensures var k := WindowOf(now, cfg.windowLength);
            GetValue(cfg, table, id, now) == LogGet(cfg, log, id, now) <==>
              ((id in table && Latest(cfg, log, id) <= k) ||
               (Count(cfg, log, id, k) == 0 && Count(cfg, log, id, k - 1) == 0))
    ensures id !in table || WindowOf(now, cfg.windowLength) < Latest(cfg, log, id) ==>
              GetValue(cfg, table, id, now) == 0
  {
    hide WindowOf, Truncate, Stamp, UnixMilli, Ordered;
    var w := WindowOf(now, cfg.windowLength);
    ElapsedWithinWindow(now, cfg.windowLength);
    if id in table {
      StampsIdentifyWindows(now, Latest(cfg, log, id), cfg.windowLength);
      LatestIsLast(cfg, log, last, id, w);
      LatestIsLast(cfg, log, last, id, w - 1);
    }
  }

  /** A sweep shows in the answer of the next increment exactly when it takes a counter that
      the increment would have continued, and the log has something to add to the call. */
  lemma SweepShowsExactlyWhen(cfg: Config, table: Table, log: seq<Hit>, last: int, id: Id, at: int, now: int)
    requires cfg.Valid() && Consistent(cfg, table, log, last)
    ensures IncrementValue(cfg, Swept(cfg, table, at), id, now) != IncrementValue(cfg, table, id, now) <==>
              && id in table && id !in Swept(cfg, table, at)
              && Latest(cfg, log, id) <= WindowOf(now, cfg.windowLength)
              && LogIncrement(cfg, log, id, now) != 1
  {
    SweepConsistent(cfg, table, log, last, at);
    hide WindowOf, LogIncrement, Consistent, UnixMilli;
    if id in table {
      if Latest(cfg, log, id) <= WindowOf(now, cfg.windowLength) {
        ForwardAgrees(cfg, table, log, last, id, now);
      } else {
        BackwardIsOne(cfg, table, log, last, id, now);
      }
    }
  }

  lemma BumpCompresses(cfg: Config, table: Table, log: seq<Hit>, id: Id, now: int)
    requires cfg.Valid() && Consistent(cfg, table, log, WindowOf(now, cfg.windowLength))
    ensures Seen(log + [Hit(id, now)], id)
    ensures Compresses(cfg, Bumped(cfg, table, id, now), log + [Hit(id, now)], id)
  {
    hide WindowOf, Truncate, UnixMilli;
    var w := WindowOf(now, cfg.windowLength);
    var longer := log + [Hit(id, now)];
    assert longer[|log|].id == id;
    TruncateIsWindowStart(now, cfg.windowLength);
    CountAppend(cfg, log, Hit(id, now), id, w);
    CountAppend(cfg, log, Hit(id, now), id, w - 1);
    if id in table {
      StampsIdentifyWindows(now, Latest(cfg, log, id), cfg.windowLength);
      LatestIsLast(cfg, log, w, id, w);
      LatestIsLast(cfg, log, w, id, w - 1);
    }
  }

  /** An increment of one id leaves what the log says of every other id. */
  lemma OthersKept(cfg: Config, table: Table, log: seq<Hit>, id: Id, now: int)
    requires cfg.Valid() && Consistent(cfg, table, log, WindowOf(now, cfg.windowLength))
    ensures forall o: Id, k :: o != id ==> Count(cfg, log + [Hit(id, now)], o, k) == Count(cfg, log, o, k)
    ensures forall o :: o in table && o != id ==>
              Seen(log + [Hit(id, now)], o) && Compresses(cfg, table[o], log + [Hit(id, now)], o)
  {
    hide WindowOf, Truncate, Stamp;
    var longer := log + [Hit(id, now)];
    assert longer[..|log|] == log;
    forall o: Id, k | o != id
      ensures Count(cfg, longer, o, k) == Count(cfg, log, o, k)
    {
      CountAppend(cfg, log, Hit(id, now), o, k);
    }
    forall o | o in table && o != id
      ensures Seen(longer, o) && Compresses(cfg, table[o], longer, o)
    {
      SeenSplit(longer, o);
    }
  }

  // ----- whole runs

  datatype Call = Get(id: Id, now: int) | Increment(id: Id, now: int)

  /** The table a call works on: purged first when the schedule says so. */
  function Ready(cfg: Config, table: Table, call: Call, sweep: bool): Table {
    if sweep then Swept(cfg, table, call.now) else table
  }

  function After(cfg: Config, ready: Table, call: Call): Table
    requires cfg.windowLength > 0
  {
    match call
    case Get(_, _) => ready
    case Increment(id, now) => ready[id := Bumped(cfg, ready, id, now)]
  }

  function Answer(cfg: Config, ready: Table, call: Call): nat
    requires cfg.windowLength > 0
  {
    match call
    case Get(id, now) => GetValue(cfg, ready, id, now)
    case Increment(id, now) => IncrementValue(cfg, ready, id, now)
  }

  /** The answers of a run that starts from `table`; `sweeps[i]` says whether call `i`
      first runs the purge. */
  function Run(cfg: Config, table: Table, calls: seq<Call>, sweeps: seq<bool>): (answers: seq<nat>)
    requires cfg.windowLength > 0 && |sweeps| == |calls|
    ensures |answers| == |calls|
    decreases calls
  {
    if calls == [] then []
    else
      var ready := Ready(cfg, table, calls[0], sweeps[0]);
      [Answer(cfg, ready, calls[0])] + Run(cfg, After(cfg, ready, calls[0]), calls[1..], sweeps[1..])
  }

  ghost predicate WindowsAscend(cfg: Config, calls: seq<Call>, last: int)
    requires cfg.windowLength > 0
  {
    calls == [] ||
    var k := WindowOf(calls[0].now, cfg.windowLength);
    last <= k && WindowsAscend(cfg, calls[1..], k)
  }

  /** Gets leave no trace in the log. */
  ghost function NextLog(log: seq<Hit>, call: Call): seq<Hit> {
    if call.Increment? then log + [Hit(call.id, call.now)] else log
  }

  ghost function Logged(log: seq<Hit>, calls: seq<Call>): seq<Hit>
    decreases calls
  {
    if calls == [] then log else Logged(NextLog(log, calls[0]), calls[1..])
  }

  ghost function LogAnswer(cfg: Config, log: seq<Hit>, call: Call): nat
    requires cfg.windowLength > 0
  {
    match call
    case Get(id, now) => LogGet(cfg, log, id, now)
    case Increment(id, now) => LogIncrement(cfg, log, id, now)
  }

  /** One call, purging first or not: its answer is the log's, and the refinement goes on. */
  lemma StepRefinesLog(cfg: Config, table: Table, log: seq<Hit>, last: int, call: Call, sweep: bool)
    requires cfg.Valid() && Consistent(cfg, table, log, last) && last <= WindowOf(call.now, cfg.windowLength)
    ensures Answer(cfg, Ready(cfg, table, call, sweep), call) == LogAnswer(cfg, log, call)
    ensures Consistent(cfg, After(cfg, Ready(cfg, table, call, sweep), call), NextLog(log, call),
                       WindowOf(call.now, cfg.windowLength))
  {
    if sweep {
      SweepConsistent(cfg, table, log, last, call.now);
    } else {
      WaitConsistent(cfg, table, log, last, call.now);
    }
    var ready := Ready(cfg, table, call, sweep);
    if call.Get? {
      GetRefinesLog(cfg, ready, log, call.id, call.now);
    } else {
      IncrementRefinesLog(cfg, ready, log, call.id, call.now);
    }
  }

  /** Every answer of every run is the one the full log of increments gives, whatever the
      purge schedule. */
  lemma {:induction false} RunRefinesLog(
    cfg: Config, table: Table, log: seq<Hit>, last: int, calls: seq<Call>, sweeps: seq<bool>, i: nat)
    requires cfg.Valid() && Consistent(cfg, table, log, last)
    requires |sweeps| == |calls| && WindowsAscend(cfg, calls, last) && i < |calls|
    ensures Run(cfg, table, calls, sweeps)[i] == LogAnswer(cfg, Logged(log, calls[..i]), calls[i])
    decreases i
  {
    var call := calls[0];
    var after := After(cfg, Ready(cfg, table, call, sweeps[0]), call);
    StepRefinesLog(cfg, table, log, last, call, sweeps[0]);
    hide Consistent, LogAnswer, Answer, After, Ready, WindowOf, NextLog;
    if i > 0 {
      RunRefinesLog(cfg, after, NextLog(log, call), WindowOf(call.now, cfg.windowLength), calls[1..], sweeps[1..], i - 1);
      assert calls[..i][1..] == calls[1..][..i - 1];
    }
  }

  /** Purging is invisible: two trackers that purge on any two schedules, never included,
      answer every call of every run alike. */
  lemma PurgeIsInvisible(cfg: Config, calls: seq<Call>, sweeps: seq<bool>, others: seq<bool>, last: int)
    requires cfg.Valid() && |sweeps| == |others| == |calls| && WindowsAscend(cfg, calls, last)
    ensures Run(cfg, map[], calls, sweeps) == Run(cfg, map[], calls, others)
  {
    EmptyConsistent(cfg, last);
    forall i | 0 <= i < |calls|
      ensures Run(cfg, map[], calls, sweeps)[i] == Run(cfg, map[], calls, others)[i]
    {
      RunRefinesLog(cfg, map[], [], last, calls, sweeps, i);
      RunRefinesLog(cfg, map[], [], last, calls, others, i);
    }
  }

  // ----- the answers in full

  predicate FallsIn(now: int, k: int, length: int)
    requires length > 0
  {
    now / length == k
  }

  /** The increments of `id` in window `k` among the first `n` calls. */
  ghost function Arrivals(calls: seq<Call>, n: nat, id: Id, k: int, length: int): set<int>
    requires n <= |calls| && length > 0
  {
    set j | 0 <= j < n && calls[j] == Increment(id, calls[j].now) && FallsIn(calls[j].now, k, length)
  }

  lemma {:induction false} LoggedAppend(log: seq<Hit>, calls: seq<Call>, n: nat)
    requires n < |calls|
    ensures Logged(log, calls[..n + 1]) == NextLog(Logged(log, calls[..n]), calls[n])
    decreases n
  {
    if n == 0 {
      assert calls[..1][1..] == [];
    } else {
      LoggedAppend(NextLog(log, calls[0]), calls[1..], n - 1);
      assert calls[..n + 1][1..] == calls[1..][..n] && calls[..n][1..] == calls[1..][..n - 1];
    }
  }

  lemma ArrivalsGrow(calls: seq<Call>, n: nat, id: Id, k: int, length: int)
    requires n < |calls| && length > 0
    ensures |Arrivals(calls, n + 1, id, k, length)| == |Arrivals(calls, n, id, k, length)|
         + if calls[n] == Increment(id, calls[n].now) && FallsIn(calls[n].now, k, length) then 1 else 0
  {
    hide FallsIn;
    var fewer := Arrivals(calls, n, id, k, length);
    assert Arrivals(calls, n + 1, id, k, length)
        == if calls[n] == Increment(id, calls[n].now) && FallsIn(calls[n].now, k, length) then fewer + {n} else fewer;
  }

  /** The count of the log is the number of the calls. */
  lemma {:induction false} CountIsArrivals(cfg: Config, calls: seq<Call>, n: nat, id: Id, k: int)
    requires cfg.windowLength > 0 && n <= |calls|
    ensures Count(cfg, Logged([], calls[..n]), id, k) == |Arrivals(calls, n, id, k, cfg.windowLength)|
    decreases n
  {
    if n == 0 {
      assert Arrivals(calls, 0, id, k, cfg.windowLength) == {};
    } else {
      var call := calls[n - 1];
      assert FallsIn(call.now, k, cfg.windowLength) <==> WindowOf(call.now, cfg.windowLength) == k;
      hide FallsIn, WindowOf, Arrivals, Logged;
      CountIsArrivals(cfg, calls, n - 1, id, k);
      LoggedAppend([], calls, n - 1);
      ArrivalsGrow(calls, n - 1, id, k, cfg.windowLength);
      if call.Increment? { CountAppend(cfg, Logged([], calls[..n - 1]), Hit(call.id, call.now), id, k); }
    }
  }

  /** What the log answers, without any of the tracker's own terms. */
  lemma LogAnswersInFull(cfg: Config, log: seq<Hit>, id: Id, now: int)
    requires cfg.Valid()
    ensures (now % cfg.windowLength) / 1_000_000 >= 0
    ensures var k, ms := now / cfg.windowLength, (now % cfg.windowLength) / 1_000_000;
            var c, p := Count(cfg, log, id, k), Count(cfg, log, id, k - 1);
            && LogIncrement(cfg, log, id, now) == c + 1 + cfg.decay(p, ms)
            && LogGet(cfg, log, id, now) == if c > 0 then c + cfg.decay(p, ms) else p
  {
  }

  ghost predicate NeverGoBack(calls: seq<Call>, length: int)
    requires length > 0
  {
    forall m, n :: 0 <= m < n < |calls| ==> calls[m].now / length <= calls[n].now / length
  }

  lemma {:induction false} NeverGoBackAscends(cfg: Config, calls: seq<Call>, last: int)
    requires cfg.windowLength > 0 && (calls != [] ==> last <= calls[0].now / cfg.windowLength)
    requires NeverGoBack(calls, cfg.windowLength)
    ensures WindowsAscend(cfg, calls, last)
    decreases calls
  {
    if calls != [] {
      NeverGoBackAscends(cfg, calls[1..], calls[0].now / cfg.windowLength);
    }
  }

  lemma RunAnswersFromLog(cfg: Config, calls: seq<Call>, sweeps: seq<bool>, i: nat)
    requires cfg.Valid() && |sweeps| == |calls| && i < |calls| && NeverGoBack(calls, cfg.windowLength)
    ensures Run(cfg, map[], calls, sweeps)[i] == LogAnswer(cfg, Logged([], calls[..i]), calls[i])
  {
    var first := calls[0].now / cfg.windowLength;
    NeverGoBackAscends(cfg, calls, first);
    EmptyConsistent(cfg, first);
    hide NeverGoBack, Consistent, WindowsAscend, Run, LogAnswer, Logged;
    RunRefinesLog(cfg, map[], [], first, calls, sweeps, i);
  }

  /** The tracker in one statement. In any run whose windows do not go back, on any purge
      schedule, with `c` and `p` the numbers of the id's increments so far in the call's
      window and in the one before, and `ms` the whole milliseconds into the window:
      Increment answers c + 1 + decay(p, ms); Get answers c + decay(p, ms), or p, undecayed,
      while the window is still empty. */
  lemma AnswersInFull(cfg: Config, calls: seq<Call>, sweeps: seq<bool>, i: nat)
    requires cfg.Valid() && |sweeps| == |calls| && i < |calls| && NeverGoBack(calls, cfg.windowLength)
    ensures (calls[i].now % cfg.windowLength) / 1_000_000 >= 0
    ensures var id, now := calls[i].id, calls[i].now;
            var k, ms := now / cfg.windowLength, (now % cfg.windowLength) / 1_000_000;
            var c := |Arrivals(calls, i, id, k, cfg.windowLength)|;
            var p := |Arrivals(calls, i, id, k - 1, cfg.windowLength)|;
            Run(cfg, map[], calls, sweeps)[i] ==
              if calls[i].Increment? then c + 1 + cfg.decay(p, ms)
              else if c > 0 then c + cfg.decay(p, ms)
              else p
  {
    hide NeverGoBack, Run, Logged, Count, Arrivals, LogGet, LogIncrement;
    var k := calls[i].now / cfg.windowLength;
    RunAnswersFromLog(cfg, calls, sweeps, i);
    LogAnswersInFull(cfg, Logged([], calls[..i]), calls[i].id, calls[i].now);
    CountIsArrivals(cfg, calls, i, calls[i].id, k);
    CountIsArrivals(cfg, calls, i, calls[i].id, k - 1);
  }

  // ----- calls whose windows go back

  /** Answer `i` of a run is answer `i - 1` of the run that follows its first call. */
  lemma RunUnfolds(cfg: Config, table: Table, calls: seq<Call>, sweeps: seq<bool>, i: nat)
    requires cfg.windowLength > 0 && |sweeps| == |calls| && 0 < i < |calls|
    ensures Run(cfg, table, calls, sweeps)[i]
         == Run(cfg, After(cfg, Ready(cfg, table, calls[0], sweeps[0]), calls[0]), calls[1..], sweeps[1..])[i - 1]
  {
  }

  lemma ThreeCalls(cfg: Config, a: Call, b: Call, c: Call, x: bool, y: bool, z: bool)
    requires cfg.windowLength > 0
    ensures var first := After(cfg, Ready(cfg, map[], a, x), a);
            var second := After(cfg, Ready(cfg, first, b, y), b);
            Run(cfg, map[], [a, b, c], [x, y, z])[2] == Answer(cfg, Ready(cfg, second, c, z), c)
  {
    var first := After(cfg, Ready(cfg, map[], a, x), a);
    var second := After(cfg, Ready(cfg, first, b, y), b);
    RunUnfolds(cfg, map[], [a, b, c], [x, y, z], 2);
    assert [a, b, c][1..] == [b, c] && [x, y, z][1..] == [y, z];
    RunUnfolds(cfg, first, [b, c], [y, z], 1);
    assert [b, c][1..] == [c] && [y, z][1..] == [z];
  }

  /** What the log says of the second increment in a window, one elsewhere in between. */
  lemma SecondInWindow(cfg: Config, id: Id, t: int, h: Hit)
    requires cfg.Valid()
    requires var k := WindowOf(t, cfg.windowLength); !InWindow(cfg, h, id, k) && !InWindow(cfg, h, id, k - 1)
    ensures var calls := [Increment(id, t), Increment(h.id, h.now), Increment(id, t)];
            LogAnswer(cfg, Logged([], calls[..2]), calls[2]) == 2
  {
    hide WindowOf, Truncate;
    var k := WindowOf(t, cfg.windowLength);
    var a, b := Increment(id, t), Increment(h.id, h.now);
    assert [a, b, a][..2] == [a, b] && [a, b][1..] == [b] && [b][1..] == [] && [] + [Hit(id, t)] == [Hit(id, t)];
    assert Logged([Hit(id, t)], [b]) == [Hit(id, t)] + [h];
    ElapsedWithinWindow(t, cfg.windowLength);
    CountAppend(cfg, [], Hit(id, t), id, k);
    CountAppend(cfg, [], Hit(id, t), id, k - 1);
    CountAppend(cfg, [Hit(id, t)], h, id, k);
    CountAppend(cfg, [Hit(id, t)], h, id, k - 1);
  }

  /** An id whose counter, if it has one, belongs to the next window starts afresh. */
  lemma EarlierIsOne(cfg: Config, table: Table, id: Id, t: int)
    requires cfg.Valid()
    requires id in table ==> table[id].window == Stamp(WindowOf(t, cfg.windowLength) + 1, cfg.windowLength)
    ensures IncrementValue(cfg, table, id, t) == 1
  {
    ElapsedWithinWindow(t, cfg.windowLength);
    StampsIdentifyWindows(t, WindowOf(t, cfg.windowLength) + 1, cfg.windowLength);
    hide WindowOf, Truncate;
  }

  lemma NextWindows(t: int, n: nat, length: int)
    requires length > 0
    ensures WindowOf(t + n * length, length) == WindowOf(t, length) + n
  {
    var k, m := WindowOf(t, length), WindowOf(t + n * length, length);
    TruncateIsWindowStart(t, length);
    TruncateIsWindowStart(t + n * length, length);
    assert (k + n) * length == k * length + n * length;
    if m < k + n { WindowsAreApart(m, k + n, length); }
    if m > k + n { WindowsAreApart(k + n, m, length); }
  }

  lemma SameWindowIsTwo(cfg: Config, table: Table, id: Id, t: int)
    requires cfg.Valid() && id in table && table[id] == Entry(1, 0, Stamp(WindowOf(t, cfg.windowLength), cfg.windowLength))
    ensures IncrementValue(cfg, table, id, t) == 2
  {
    ElapsedWithinWindow(t, cfg.windowLength);
    StampsIdentifyWindows(t, WindowOf(t, cfg.windowLength), cfg.windowLength);
    hide WindowOf, Truncate;
  }

  /** When windows go back a purge can show: for every configuration, a purge on behalf of
      another id makes the second increment of a window answer 1, where without the purge it
      answers 2, as the log does. */
  lemma PurgeShowsOutOfOrder(cfg: Config, id: Id, other: Id, t: int)
    requires cfg.Valid() && id != other
    ensures var calls := [Increment(id, t), Increment(other, t + 4 * cfg.windowLength), Increment(id, t)];
            && Run(cfg, map[], calls, [false, true, false])[2] == 1
            && Run(cfg, map[], calls, [false, false, false])[2] == 2
            && LogAnswer(cfg, Logged([], calls[..2]), calls[2]) == 2
  {
    var length := cfg.windowLength;
    var a, b := Increment(id, t), Increment(other, t + 4 * length);
    SecondInWindow(cfg, id, t, Hit(other, b.now));
    ThreeCalls(cfg, a, b, a, false, true, false);
    ThreeCalls(cfg, a, b, a, false, false, false);
    TruncateIsWindowStart(t, length);
    TruncateIsWindowStart(b.now, length);
    NextWindows(t, 4, length);
    CutoffIsStale(b.now, WindowOf(t, length), length);
    hide Run, LogAnswer, Logged, IncrementValue, WindowOf, Truncate, UnixMilli, Stamp;
    var first := After(cfg, map[], a);
    assert first == map[id := Entry(1, 0, Stamp(WindowOf(t, length), length))];
    SameWindowIsTwo(cfg, After(cfg, first, b), id, t);
    assert id !in Swept(cfg, first, b.now);
  }

  /** And purge or not, an id whose own window goes back is answered 1 where the log says 2. */
  lemma GoingBackForgets(cfg: Config, id: Id, t: int, x: bool, y: bool, z: bool)
    requires cfg.Valid()
    ensures var calls := [Increment(id, t), Increment(id, t + cfg.windowLength), Increment(id, t)];
            && Run(cfg, map[], calls, [x, y, z])[2] == 1
            && LogAnswer(cfg, Logged([], calls[..2]), calls[2]) == 2
  {
    var length := cfg.windowLength;
    var a, b := Increment(id, t), Increment(id, t + length);
    NextWindows(t, 1, length);
    SecondInWindow(cfg, id, t, Hit(id, b.now));
    ThreeCalls(cfg, a, b, a, x, y, z);
    var first := After(cfg, Ready(cfg, map[], a, x), a);
    var second := After(cfg, Ready(cfg, first, b, y), b);
    hide LogAnswer, Logged, Run, WindowOf, Truncate;
    TruncateIsWindowStart(b.now, length);
    EarlierIsOne(cfg, Ready(cfg, second, a, z), id, t);
  }

  // ----- ids do not interfere

  ghost function OwnHits(log: seq<Hit>, id: Id): seq<Hit> {
    if log == [] then []
    else
      var n := |log| - 1;
      OwnHits(log[..n], id) + if log[n].id == id then [log[n]] else []
  }

  lemma {:induction false} CountOwn(cfg: Config, log: seq<Hit>, id: Id, k: int)
    requires cfg.windowLength > 0
    ensures Count(cfg, OwnHits(log, id), id, k) == Count(cfg, log, id, k)
  {
    if log != [] {
      var n := |log| - 1;
      CountOwn(cfg, log[..n], id, k);
      if log[n].id == id { CountAppend(cfg, OwnHits(log[..n], id), log[n], id, k); }
      else { assert OwnHits(log, id) == OwnHits(log[..n], id); }
    }
  }

  /** The calls a private tracker for `id` would have received. */
  function OwnCalls(calls: seq<Call>, id: Id): seq<Call> {
    if calls == [] then []
    else (if calls[0].id == id then [calls[0]] else []) + OwnCalls(calls[1..], id)
  }

  function OwnAnswers(calls: seq<Call>, answers: seq<nat>, id: Id): seq<nat>
    requires |answers| == |calls|
  {
    if calls == [] then []
    else (if calls[0].id == id then [answers[0]] else []) + OwnAnswers(calls[1..], answers[1..], id)
  }

  lemma OwnAnswerAgrees(cfg: Config, log: seq<Hit>, call: Call)
    requires cfg.windowLength > 0
    ensures LogAnswer(cfg, OwnHits(log, call.id), call) == LogAnswer(cfg, log, call)
  {
    var k := WindowOf(call.now, cfg.windowLength);
    CountOwn(cfg, log, call.id, k);
    CountOwn(cfg, log, call.id, k - 1);
  }

  lemma OwnHitsNext(log: seq<Hit>, call: Call, id: Id)
    ensures OwnHits(NextLog(log, call), id) == if call.id == id then NextLog(OwnHits(log, id), call) else OwnHits(log, id)
  {
    if call.Increment? {
      assert NextLog(log, call)[..|log|] == log;
    }
  }

  /** The shared tracker is a product of private ones: what it answers to the calls of one
      id is what a tracker that sees only those calls answers, each purging when it likes. */
  lemma IdsAreIndependent(cfg: Config, calls: seq<Call>, sweeps: seq<bool>, id: Id, ownSweeps: seq<bool>, last: int)
    requires cfg.Valid() && |sweeps| == |calls| && WindowsAscend(cfg, calls, last)
    requires |ownSweeps| == |OwnCalls(calls, id)|
    ensures OwnAnswers(calls, Run(cfg, map[], calls, sweeps), id)
         == Run(cfg, map[], OwnCalls(calls, id), ownSweeps)
    ensures forall i :: 0 <= i < |calls| && calls[i].id == id ==>
              var own := |OwnCalls(calls[..i], id)|;
              && own < |ownSweeps| && OwnCalls(calls, id)[own] == calls[i]
              && Run(cfg, map[], calls, sweeps)[i] == Run(cfg, map[], OwnCalls(calls, id), ownSweeps)[own]
  {
    EmptyConsistent(cfg, last);
    ProductStep(cfg, map[], [], last, calls, sweeps, id, map[], last, ownSweeps);
    var answers := Run(cfg, map[], calls, sweeps);
    hide Run, WindowsAscend, Consistent, OwnCalls, OwnAnswers;
    forall i | 0 <= i < |calls| && calls[i].id == id
      ensures var own := |OwnCalls(calls[..i], id)|;
              && own < |ownSweeps| && OwnCalls(calls, id)[own] == calls[i]
              && answers[i] == OwnAnswers(calls, answers, id)[own]
    {
      OwnAt(calls, answers, id, i);
    }
  }

  /** Where call `i` stands among the id's own. */
  lemma {:induction false} OwnAt(calls: seq<Call>, answers: seq<nat>, id: Id, i: nat)
    requires |answers| == |calls| && i < |calls| && calls[i].id == id
    ensures var own := |OwnCalls(calls[..i], id)|;
            && own < |OwnCalls(calls, id)| == |OwnAnswers(calls, answers, id)|
            && OwnCalls(calls, id)[own] == calls[i] && OwnAnswers(calls, answers, id)[own] == answers[i]
    decreases i
  {
    OwnLengths(calls, answers, id);
    if i > 0 {
      OwnAt(calls[1..], answers[1..], id, i - 1);
      assert calls[..i][1..] == calls[1..][..i - 1];
    }
  }

  lemma {:induction false} OwnLengths(calls: seq<Call>, answers: seq<nat>, id: Id)
    requires |answers| == |calls|
    ensures |OwnCalls(calls, id)| == |OwnAnswers(calls, answers, id)|
  {
    if calls != [] { OwnLengths(calls[1..], answers[1..], id); }
  }

  lemma {:induction false} ProductStep(
    cfg: Config, table: Table, log: seq<Hit>, last: int, calls: seq<Call>, sweeps: seq<bool>,
    id: Id, own: Table, ownLast: int, ownSweeps: seq<bool>)
    requires cfg.Valid() && ownLast <= last
    requires Consistent(cfg, table, log, last) && Consistent(cfg, own, OwnHits(log, id), ownLast)
    requires |sweeps| == |calls| && WindowsAscend(cfg, calls, last)
    requires |ownSweeps| == |OwnCalls(calls, id)|
    ensures OwnAnswers(calls, Run(cfg, table, calls, sweeps), id)
         == Run(cfg, own, OwnCalls(calls, id), ownSweeps)
    decreases calls
  {
    if calls != [] {
      var call, rest := calls[0], calls[1..];
      var k := WindowOf(call.now, cfg.windowLength);
      var after := After(cfg, Ready(cfg, table, call, sweeps[0]), call);
      StepRefinesLog(cfg, table, log, last, call, sweeps[0]);
      assert Run(cfg, table, calls, sweeps)[1..] == Run(cfg, after, rest, sweeps[1..]);
      OwnHitsNext(log, call, id);
      if call.id == id {
        var ownAfter := After(cfg, Ready(cfg, own, call, ownSweeps[0]), call);
        StepRefinesLog(cfg, own, OwnHits(log, id), ownLast, call, ownSweeps[0]);
        OwnAnswerAgrees(cfg, log, call);
        assert OwnCalls(calls, id)[1..] == OwnCalls(rest, id);
        ProductStep(cfg, after, NextLog(log, call), k, rest, sweeps[1..], id, ownAfter, k, ownSweeps[1..]);
      } else {
        assert OwnCalls(calls, id) == OwnCalls(rest, id);
        ProductStep(cfg, after, NextLog(log, call), k, rest, sweeps[1..], id, own, ownLast, ownSweeps);
      }
    }
  }
}
