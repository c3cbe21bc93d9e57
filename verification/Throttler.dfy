/** The HTTP middleware's decision: count the request, then compare the rate with the limit. */
module Throttler {
  import opened Options
  import opened WindowTime
  import opened SlidingWindow
  import opened LocalTracker
  import opened Admission

  const DEFAULT_REQUEST_LIMIT: nat := 100
  const DEFAULT_WINDOW_LENGTH := 60 * SECOND

  /** What a request meets: the mapper's error page, the exceeded handler, or the next handler. */
  datatype Outcome = MapperFailed | Exceeded | Served

  /** The middleware as configured; zero and null stand for "use the default". */
  class Throttle {
    var requestLimit: nat
    var tracker: Tracker?

    constructor (requestLimit: nat, tracker: Tracker?)
      ensures this.requestLimit == requestLimit && this.tracker == tracker
    {
      this.requestLimit, this.tracker := requestLimit, tracker;
    }

    /** Fixes the defaults; `decay` is the arithmetic of a default tracker. */
    method Handler(now: int, decay: (nat, nat) -> nat) returns (h: Handler)
      requires tracker != null ==> tracker.Valid()
      requires Config(DEFAULT_WINDOW_LENGTH, decay).Valid()
      ensures h.tracker.Valid()
      ensures h.limit > 0 && (requestLimit != 0 ==> h.limit == requestLimit)
      ensures requestLimit == 0 ==> h.limit == 100
      ensures tracker != null ==> h.tracker == tracker
      ensures tracker == null ==>
                fresh(h.tracker) && fresh(h.tracker.counters.Values) && h.tracker.log == [] &&
                h.tracker.cfg == Config(60_000_000_000, decay) && h.tracker.purgeDelay == 300_000_000_000 &&
                h.tracker.purgeTime == now + 300_000_000_000
    {
      var effective := tracker;
      if effective == null {
        effective := new Tracker(Config(DEFAULT_WINDOW_LENGTH, decay), PURGE_DELAY, now);
      }
      var limit := requestLimit;
      if limit == 0 {
        limit := DEFAULT_REQUEST_LIMIT;
      }
      h := new Handler(effective, limit);
    }
  }

  class Handler {
    const tracker: Tracker
    const limit: nat

    constructor (tracker: Tracker, limit: nat)
      ensures this.tracker == tracker && this.limit == limit
    {
      this.tracker, this.limit := tracker, limit;
    }

    /** One request, `mapped` being what the request mapper makes of it. It is served exactly
        when, as the newest entry of the log, it is within the limit; served or not, it is
        logged. An unmappable request leaves no trace. */
    method ServeHTTP(mapped: Option<Id>, now: int) returns (outcome: Outcome)
      requires tracker.Valid() && tracker.last <= WindowOf(now, tracker.cfg.windowLength)
      modifies tracker, tracker.counters.Values
      ensures tracker.Valid() && fresh(tracker.counters.Values - old(tracker.counters.Values))
      ensures mapped.None? <==> outcome == MapperFailed
      ensures mapped.None? ==> tracker.log == old(tracker.log) && tracker.last == old(tracker.last)
      ensures mapped.Some? ==> tracker.log == old(tracker.log) + [Hit(mapped.value, now)]
      ensures mapped.Some? ==>
                (outcome == Served <==> Admitted(tracker.cfg, limit, tracker.log, |old(tracker.log)|))
    {
      hide LogIncrement, Sound, WindowOf;
      if mapped.None? {
        return MapperFailed;
      }
      var rate := tracker.Increment(mapped.value, now);
      assert tracker.log[..|old(tracker.log)|] == old(tracker.log);
      if limit < rate {
        return Exceeded;
      }
      return Served;
    }
  }
}
