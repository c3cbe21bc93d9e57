/** What the limiter promises about admitted requests. A request is admitted when the rate
    its own increment returns does not exceed the limit; rejected requests count too. */
module Admission {
  import opened WindowTime
  import opened SlidingWindow

  /** Request `i` of the log got through. */
  ghost predicate Admitted(cfg: Config, limit: nat, log: seq<Hit>, i: nat)
    requires cfg.windowLength > 0 && i < |log|
  {
    LogIncrement(cfg, log[..i], log[i].id, log[i].now) <= limit
  }

  ghost function Millis(cfg: Config, t: int): nat
    requires cfg.windowLength > 0
  {
    Elapsed(cfg, t) / MILLISECOND
  }

  /** Admitted requests of `id` in the half-open interval (from, to]. */
  ghost function AdmittedDuring(cfg: Config, limit: nat, log: seq<Hit>, id: Id, from: int, to: int): nat
    requires cfg.windowLength > 0
  {
    if log == [] then 0
    else
      var n := |log| - 1;
      AdmittedDuring(cfg, limit, log[..n], id, from, to) +
      if log[n].id == id && from < log[n].now <= to && Admitted(cfg, limit, log, n) then 1 else 0
  }

  /** Admitted requests of `id` in window `k`, at most `e` milliseconds into it. */
  ghost function AdmittedUpTo(cfg: Config, limit: nat, log: seq<Hit>, id: Id, k: int, e: nat): nat
    requires cfg.windowLength > 0
  {
    if log == [] then 0
    else
      var n := |log| - 1;
      AdmittedUpTo(cfg, limit, log[..n], id, k, e) +
      if InWindow(cfg, log[n], id, k) && Millis(cfg, log[n].now) <= e && Admitted(cfg, limit, log, n) then 1 else 0
  }

  function CeilDiv(x: nat, d: int): nat
    requires d > 0
  {
    (x + d - 1) / d
  }

  // ----- within one fixed window

  /** No fixed window lets more than `limit` requests through, nor more than arrived. */
  lemma {:induction false} WindowCap(cfg: Config, limit: nat, log: seq<Hit>, id: Id, k: int, e: nat)
    requires cfg.Valid()
    ensures AdmittedUpTo(cfg, limit, log, id, k, e) <= limit
    ensures AdmittedUpTo(cfg, limit, log, id, k, e) <= Count(cfg, log, id, k)
  {
    if log != [] {
      WindowCap(cfg, limit, log[..|log| - 1], id, k, e);
    }
  }

  lemma {:induction false} NoneBefore(cfg: Config, limit: nat, log: seq<Hit>, last: int, id: Id, k: int, e: nat)
    requires cfg.Valid() && Ordered(cfg, log, last) && last < k
    ensures AdmittedUpTo(cfg, limit, log, id, k, e) == 0
  {
    if log != [] {
      var n := |log| - 1;
      NoneBefore(cfg, limit, log[..n], WindowOf(log[n].now, cfg.windowLength), id, k, e);
    }
  }

  /** Once anything has been admitted by `e`, it left room for what survives of the whole
      previous window at `e`, rejected requests included. */
  lemma {:induction false} RoomLeft(cfg: Config, limit: nat, log: seq<Hit>, last: int, id: Id, k: int, e: nat)
    requires cfg.Valid() && cfg.Fading() && Ordered(cfg, log, last) && e <= cfg.Millis()
    requires AdmittedUpTo(cfg, limit, log, id, k, e) > 0
    ensures AdmittedUpTo(cfg, limit, log, id, k, e) + cfg.decay(Count(cfg, log, id, k - 1), e) <= limit
  {
    var n := |log| - 1;
    var h := log[n];
    var w := WindowOf(h.now, cfg.windowLength);
    if InWindow(cfg, h, id, k) && Millis(cfg, h.now) <= e && Admitted(cfg, limit, log, n) {
      WindowCap(cfg, limit, log[..n], id, k, e);
    } else {
      if w < k { NoneBefore(cfg, limit, log[..n], w, id, k, e); }
      RoomLeft(cfg, limit, log[..n], w, id, k, e);
    }
  }

  // ----- within any interval of one window length

  lemma IntervalSpansTwoWindows(cfg: Config, h: int, t: int)
    requires cfg.Valid() && t - cfg.windowLength < h <= t
    ensures (WindowOf(h, cfg.windowLength) == WindowOf(t, cfg.windowLength) && Millis(cfg, h) <= Millis(cfg, t))
         || WindowOf(h, cfg.windowLength) == WindowOf(t, cfg.windowLength) - 1
    ensures t % cfg.windowLength == cfg.windowLength - 1 ==> WindowOf(h, cfg.windowLength) == WindowOf(t, cfg.windowLength)
    ensures Millis(cfg, h) <= cfg.Millis() && Millis(cfg, t) <= cfg.Millis()
  {
    var length := cfg.windowLength;
    var wh, wt := WindowOf(h, length), WindowOf(t, length);
    TruncateIsWindowStart(h, length);
    TruncateIsWindowStart(t, length);
    ElapsedWithinWindow(h, length);
    ElapsedWithinWindow(t, length);
    assert (wt - 1) * length == wt * length - length;
    if wh > wt { WindowsAreApart(wt, wh, length); }
    if wh < wt - 1 { WindowsAreApart(wh, wt - 1, length); }
    if wh < wt { WindowsAreApart(wh, wt, length); }
  }

  lemma {:induction false} SplitAtBoundary(cfg: Config, limit: nat, log: seq<Hit>, id: Id, t: int)
    requires cfg.Valid()
    ensures AdmittedDuring(cfg, limit, log, id, t - cfg.windowLength, t)
         <= AdmittedUpTo(cfg, limit, log, id, WindowOf(t, cfg.windowLength), Millis(cfg, t))
          + AdmittedUpTo(cfg, limit, log, id, WindowOf(t, cfg.windowLength) - 1, cfg.Millis())
    ensures t % cfg.windowLength == cfg.windowLength - 1 ==> (
              AdmittedDuring(cfg, limit, log, id, t - cfg.windowLength, t)
              <= AdmittedUpTo(cfg, limit, log, id, WindowOf(t, cfg.windowLength), Millis(cfg, t)))
  {
    if log != [] {
      var n := |log| - 1;
      SplitAtBoundary(cfg, limit, log[..n], id, t);
      if t - cfg.windowLength < log[n].now <= t {
        IntervalSpansTwoWindows(cfg, log[n].now, t);
      }
    }
  }

  lemma CeilOfRest(m: nat, e: nat, w: int)
    requires 0 < w && e <= w
    ensures m - m * (w - e) / w == CeilDiv(m * e, w)
  {
    var q := CeilDiv(m * e, w);
    assert m * (w - e) == m * w - m * e;
    assert q * w >= m * e > q * w - w;
    assert (m - q) * w == m * w - q * w;
    QuotientIs(m * (w - e), w, m - q);
  }

  lemma QuotientIs(x: int, d: int, q: int)
    requires d > 0 && q * d <= x < q * d + d
    ensures x / d == q
  {
    var r := x - q * d;
    assert (x / d - q) * d == r - x % d;
    if x / d > q { WindowsAreApart(q, x / d, d); }
    if x / d < q { WindowsAreApart(x / d, q, d); }
  }

  lemma DivMonotone(x: int, y: int, d: int)
    requires d > 0 && x <= y
    ensures x / d <= y / d
  {
    if x / d > y / d { WindowsAreApart(y / d, x / d, d); }
  }

  lemma MulMonotone(a: nat, b: nat, c: nat)
    requires a <= b
    ensures a * c <= b * c
  {
    assert (b - a) * c >= 0;
    assert b * c == a * c + (b - a) * c;
  }

  /** `admitted` now and `before` in the previous window, out of `arrived` there. */
  lemma BurstArithmetic(limit: nat, w: int, e: nat, slack: nat, arrived: nat, before: nat, admitted: nat, decayed: nat)
    requires 0 < w && e <= w && before <= arrived && before <= limit
    requires arrived * (w - e) / w <= decayed + slack
    requires admitted > 0 ==> admitted + decayed <= limit
    ensures admitted + before <= limit + CeilDiv(limit * e, w) + slack
  {
    if admitted > 0 {
      MulMonotone(before, arrived, w - e);
      DivMonotone(before * (w - e), arrived * (w - e), w);
      CeilOfRest(before, e, w);
      MulMonotone(before, limit, e);
      DivMonotone(before * e + w - 1, limit * e + w - 1, w);
    }
  }

  /** The burst bound: whatever was sent, in the window length that ends at `t`, `e`
      milliseconds into a fixed window of `W` milliseconds, at most
      limit + ceil(limit * e / W) requests of one id were admitted (plus the slack of the
      decay arithmetic). */
  lemma BurstBound(cfg: Config, slack: nat, limit: nat, log: seq<Hit>, last: int, id: Id, t: int)
    requires cfg.Valid() && cfg.Fading() && cfg.Near(slack) && Ordered(cfg, log, last)
    ensures AdmittedDuring(cfg, limit, log, id, t - cfg.windowLength, t)
         <= limit + CeilDiv(limit * Millis(cfg, t), cfg.Millis()) + slack
    ensures AdmittedDuring(cfg, limit, log, id, t - cfg.windowLength, t) <= 2 * limit
  {
    var k, e, w := WindowOf(t, cfg.windowLength), Millis(cfg, t), cfg.Millis();
    var arrived := Count(cfg, log, id, k - 1);
    var before := AdmittedUpTo(cfg, limit, log, id, k - 1, w);
    var admitted := AdmittedUpTo(cfg, limit, log, id, k, e);
    ElapsedWithinWindow(t, cfg.windowLength);
    SplitAtBoundary(cfg, limit, log, id, t);
    WindowCap(cfg, limit, log, id, k - 1, w);
    WindowCap(cfg, limit, log, id, k, e);
    if admitted > 0 { RoomLeft(cfg, limit, log, last, id, k, e); }
    BurstArithmetic(limit, w, e, slack, arrived, before, admitted, cfg.decay(arrived, e));
  }

  // ----- exact arithmetic

  /** Exact arithmetic, truncated. */
  ghost predicate Exact(cfg: Config) {
    && cfg.windowLength >= MILLISECOND
    && forall pv: nat, e: nat :: e <= cfg.Millis() ==> cfg.decay(pv, e) == pv * (cfg.Millis() - e) / cfg.Millis()
  }

  function ExactConfig(windowLength: int): Config
    requires windowLength >= MILLISECOND
  {
    var w := windowLength / MILLISECOND;
    Config(windowLength, (pv: nat, e: nat) => if e <= w then ExactShare(pv, e, w) else 0)
  }

  function ExactShare(pv: nat, e: nat, w: nat): nat
    requires e <= w && w > 0
  {
    QuotientIsNat(pv, w - e, w);
    pv * (w - e) / w
  }

  lemma QuotientIsNat(a: nat, b: nat, d: int)
    requires d > 0
    ensures a * b / d >= 0
  {
    MulMonotone(0, a, b);
    DivMonotone(0, a * b, d);
    QuotientIs(0, d, 0);
  }

  lemma ExactConfigIsExact(windowLength: int)
    requires windowLength >= MILLISECOND
    ensures Exact(ExactConfig(windowLength))
  {
  }

  lemma QuotientsStayClose(a: nat, b: nat, r: nat, w: nat)
    requires a <= b && r <= w && w > 0
    ensures a * r / w <= b * r / w <= a * r / w + (b - a)
  {
    MulMonotone(a, b, r);
    DivMonotone(a * r, b * r, w);
    MulMonotone(r, w, b - a);
    assert b * r == a * r + (b - a) * r;
    DivMonotone(b * r, a * r + (b - a) * w, w);
    assert (a * r / w + (b - a)) * w == a * r / w * w + (b - a) * w;
    QuotientIs(a * r + (b - a) * w, w, a * r / w + (b - a));
  }

  lemma ExactIsSound(cfg: Config)
    requires Exact(cfg)
    ensures cfg.Valid() && cfg.Fading() && cfg.Steady() && cfg.Near(0)
  {
    var w := cfg.Millis();
    forall pv: nat, e: nat | e <= w
      ensures cfg.decay(pv, e) <= pv
    {
      CeilOfRest(pv, e, w);
    }
    forall pv: nat, e: nat, e': nat | e <= e' <= w
      ensures cfg.decay(pv, e') <= cfg.decay(pv, e)
    {
      MulMonotone(w - e', w - e, pv);
      DivMonotone(pv * (w - e'), pv * (w - e), w);
    }
    forall a: nat, b: nat, e: nat | a <= b && e <= w
      ensures cfg.decay(a, e) <= cfg.decay(b, e) && cfg.decay(b, e) - cfg.decay(a, e) <= b - a
    {
      QuotientsStayClose(a, b, w - e, w);
    }
  }

  // ----- the exact bound, for any arithmetic

  /** The last nanosecond of a window. */
  predicate LastInstant(cfg: Config, t: int)
    requires cfg.windowLength > 0
  {
    t % cfg.windowLength == cfg.windowLength - 1
  }

  /** What the limit becomes over the window length that ends at `t`: twice the limit, less
      what survives at `t` of a full window. */
  ghost function Ceiling(cfg: Config, limit: nat, t: int): int
    requires cfg.Millis() > 0
  {
    2 * limit - cfg.decay(limit, Millis(cfg, t))
  }

  /** Whatever was sent, with any steady arithmetic, no more than that is admitted. */
  lemma SharpBurstBound(cfg: Config, limit: nat, log: seq<Hit>, last: int, id: Id, t: int)
    requires cfg.Valid() && cfg.Fading() && cfg.Steady() && Ordered(cfg, log, last)
    ensures AdmittedDuring(cfg, limit, log, id, t - cfg.windowLength, t) <= Ceiling(cfg, limit, t)
  {
    var k, e, w := WindowOf(t, cfg.windowLength), Millis(cfg, t), cfg.Millis();
    var arrived := Count(cfg, log, id, k - 1);
    var before := AdmittedUpTo(cfg, limit, log, id, k - 1, w);
    var admitted := AdmittedUpTo(cfg, limit, log, id, k, e);
    ElapsedWithinWindow(t, cfg.windowLength);
    SplitAtBoundary(cfg, limit, log, id, t);
    WindowCap(cfg, limit, log, id, k - 1, w);
    if admitted > 0 { RoomLeft(cfg, limit, log, last, id, k, e); }
    assert cfg.decay(before, e) <= cfg.decay(arrived, e);
    assert cfg.decay(limit, e) - cfg.decay(before, e) <= limit - before;
  }

  /** `n` more requests of one kind. */
  ghost function Volley(log: seq<Hit>, h: Hit, n: nat): seq<Hit> {
    if n == 0 then log else Volley(log, h, n - 1) + [h]
  }

  lemma OneMoreAdmitted(cfg: Config, limit: nat, log: seq<Hit>, h: Hit, from: int, to: int)
    requires cfg.Valid() && from < h.now <= to
    requires Ordered(cfg, log, WindowOf(h.now, cfg.windowLength))
    requires Count(cfg, log, h.id, WindowOf(h.now, cfg.windowLength)) + 1
           + cfg.decay(Count(cfg, log, h.id, WindowOf(h.now, cfg.windowLength) - 1), Millis(cfg, h.now)) <= limit
    ensures Ordered(cfg, log + [h], WindowOf(h.now, cfg.windowLength))
    ensures AdmittedDuring(cfg, limit, log + [h], h.id, from, to)
         == AdmittedDuring(cfg, limit, log, h.id, from, to) + 1
  {
    OrderedAppend(cfg, log, h, WindowOf(h.now, cfg.windowLength));
    assert (log + [h])[..|log|] == log;
  }

  lemma {:induction false} VolleyCounts(cfg: Config, log: seq<Hit>, h: Hit, n: nat, k: int)
    requires cfg.windowLength > 0
    ensures Count(cfg, Volley(log, h, n), h.id, k)
         == Count(cfg, log, h.id, k) + if WindowOf(h.now, cfg.windowLength) == k then n else 0
  {
    hide WindowOf;
    if n > 0 {
      VolleyCounts(cfg, log, h, n - 1, k);
      CountAppend(cfg, Volley(log, h, n - 1), h, h.id, k);
    }
  }

  /** `n` requests at one instant, the first in their window: all of them get through as
      long as they leave room for what survives of the window before. */
  lemma {:induction false} VolleyAdmitted(
    cfg: Config, limit: nat, log: seq<Hit>, h: Hit, n: nat, from: int, to: int)
    requires cfg.Valid() && from < h.now <= to
    requires Ordered(cfg, log, WindowOf(h.now, cfg.windowLength))
    requires Count(cfg, log, h.id, WindowOf(h.now, cfg.windowLength)) == 0
    requires n + cfg.decay(Count(cfg, log, h.id, WindowOf(h.now, cfg.windowLength) - 1), Millis(cfg, h.now)) <= limit
    ensures Ordered(cfg, Volley(log, h, n), WindowOf(h.now, cfg.windowLength))
    ensures AdmittedDuring(cfg, limit, Volley(log, h, n), h.id, from, to)
         == AdmittedDuring(cfg, limit, log, h.id, from, to) + n
  {
    hide WindowOf, Millis, Ordered, Count, AdmittedDuring;
    if n > 0 {
      var k := WindowOf(h.now, cfg.windowLength);
      VolleyAdmitted(cfg, limit, log, h, n - 1, from, to);
      VolleyCounts(cfg, log, h, n - 1, k);
      VolleyCounts(cfg, log, h, n - 1, k - 1);
      OneMoreAdmitted(cfg, limit, Volley(log, h, n - 1), h, from, to);
    }
  }

  /** Late in the previous window the full limit, then at `t` as many as still fit. */
  ghost function Burst(cfg: Config, limit: nat, id: Id, t: int): seq<Hit>
    requires cfg.Valid()
  {
    ElapsedWithinWindow(t, cfg.windowLength);
    Volley(Volley([], Hit(id, t - cfg.windowLength + 1), limit),
           Hit(id, t), limit - cfg.decay(limit, Millis(cfg, t)))
  }

  /** One nanosecond after the start of the interval is still in the previous window, unless
      the interval is a whole window. */
  lemma EarlyHit(t: int, length: int)
    requires length >= MILLISECOND && t % length != length - 1
    ensures WindowOf(t - length + 1, length) == WindowOf(t, length) - 1
  {
    var k := WindowOf(t, length);
    TruncateIsWindowStart(t, length);
    assert (k - 1) * length == k * length - length;
    QuotientIs(t - length + 1, length, k - 1);
  }

  /** A full limit of requests in one window, then as many in the next as still fit. */
  lemma TwoVolleys(cfg: Config, limit: nat, early: Hit, late: Hit, m: nat, from: int)
    requires cfg.Valid() && early.id == late.id && from < early.now <= late.now
    requires WindowOf(early.now, cfg.windowLength) == WindowOf(late.now, cfg.windowLength) - 1
    requires m + cfg.decay(limit, Millis(cfg, late.now)) <= limit
    ensures Ordered(cfg, Volley(Volley([], early, limit), late, m), WindowOf(late.now, cfg.windowLength))
    ensures AdmittedDuring(cfg, limit, Volley(Volley([], early, limit), late, m), late.id, from, late.now) == limit + m
  {
    ElapsedWithinWindow(early.now, cfg.windowLength);
    assert cfg.decay(0, Millis(cfg, early.now)) == 0;
    hide WindowOf, Millis, Volley;
    var k := WindowOf(late.now, cfg.windowLength);
    VolleyAdmitted(cfg, limit, [], early, limit, from, late.now);
    VolleyCounts(cfg, [], early, limit, k);
    VolleyCounts(cfg, [], early, limit, k - 1);
    OrderedWeaken(cfg, Volley([], early, limit), k - 1, k);
    VolleyAdmitted(cfg, limit, Volley([], early, limit), late, m, from, late.now);
  }

  lemma EarlyWindow(cfg: Config, t: int)
    requires cfg.Valid() && !LastInstant(cfg, t)
    ensures WindowOf(t - cfg.windowLength + 1, cfg.windowLength) == WindowOf(t, cfg.windowLength) - 1
    ensures Millis(cfg, t) <= cfg.Millis()
  {
    ElapsedWithinWindow(t, cfg.windowLength);
    EarlyHit(t, cfg.windowLength);
  }

  /** The bound is exact, with any arithmetic: at every offset but the last nanosecond of a
      window some run attains it. */
  lemma BurstBoundIsTight(cfg: Config, limit: nat, id: Id, t: int)
    requires cfg.Valid() && !LastInstant(cfg, t)
    ensures Ordered(cfg, Burst(cfg, limit, id, t), WindowOf(t, cfg.windowLength))
    ensures AdmittedDuring(cfg, limit, Burst(cfg, limit, id, t), id, t - cfg.windowLength, t) == Ceiling(cfg, limit, t)
  {
    hide LastInstant, WindowOf, Elapsed, Volley, Ordered, AdmittedDuring, Millis;
    EarlyWindow(cfg, t);
    TwoVolleys(cfg, limit, Hit(id, t - cfg.windowLength + 1), Hit(id, t),
               limit - cfg.decay(limit, Millis(cfg, t)), t - cfg.windowLength);
  }

  /** With exact arithmetic the bound is limit + ceil(limit * e / W). */
  lemma ExactCeiling(cfg: Config, limit: nat, t: int)
    requires Exact(cfg)
    ensures Ceiling(cfg, limit, t) == limit + CeilDiv(limit * Millis(cfg, t), cfg.Millis())
  {
    ElapsedWithinWindow(t, cfg.windowLength);
    CeilOfRest(limit, Millis(cfg, t), cfg.Millis());
  }

  /** Whatever is sent, the window length ending at `t` lets at most `limit` through. */
  ghost predicate EveryRunKeepsLimit(cfg: Config, limit: nat, id: Id, t: int)
    requires cfg.windowLength > 0
  {
    forall log: seq<Hit>, last: int | Ordered(cfg, log, last) ::
      AdmittedDuring(cfg, limit, log, id, t - cfg.windowLength, t) <= limit
  }

  lemma LastInstantKeepsLimit(cfg: Config, limit: nat, log: seq<Hit>, id: Id, t: int)
    requires cfg.Valid() && LastInstant(cfg, t)
    ensures AdmittedDuring(cfg, limit, log, id, t - cfg.windowLength, t) <= limit
  {
    SplitAtBoundary(cfg, limit, log, id, t);
    WindowCap(cfg, limit, log, id, WindowOf(t, cfg.windowLength), Millis(cfg, t));
  }

  /** Read as "no more than the limit in any window length", the limit is kept by every run
      exactly at a window's last nanosecond and at the instants at which the arithmetic has
      not yet let go of anything of a full window. */
  lemma LimitKeptExactlyWhen(cfg: Config, limit: nat, id: Id, t: int)
    requires cfg.Valid() && cfg.Fading() && cfg.Steady()
    ensures EveryRunKeepsLimit(cfg, limit, id, t) <==>
              LastInstant(cfg, t) || cfg.decay(limit, Millis(cfg, t)) == limit
  {
    hide Ordered, AdmittedDuring, Burst;
    if LastInstant(cfg, t) {
      forall log: seq<Hit>, last: int | Ordered(cfg, log, last)
        ensures AdmittedDuring(cfg, limit, log, id, t - cfg.windowLength, t) <= limit
      {
        LastInstantKeepsLimit(cfg, limit, log, id, t);
      }
    } else {
      ElapsedWithinWindow(t, cfg.windowLength);
      BurstBoundIsTight(cfg, limit, id, t);
      forall log: seq<Hit>, last: int | Ordered(cfg, log, last)
        ensures AdmittedDuring(cfg, limit, log, id, t - cfg.windowLength, t) <= Ceiling(cfg, limit, t)
      {
        SharpBurstBound(cfg, limit, log, last, id, t);
      }
    }
  }

  lemma PositiveCeil(x: int, d: int)
    requires x > 0 && d > 0
    ensures CeilDiv(x, d) >= 1
  {
    DivMonotone(d, x + d - 1, d);
    QuotientIs(d, d, 1);
  }

  /** With exact arithmetic those are the instants less than a millisecond into a window. */
  lemma ExactLimitKeptExactlyWhen(cfg: Config, limit: nat, id: Id, t: int)
    requires Exact(cfg) && limit > 0
    ensures EveryRunKeepsLimit(cfg, limit, id, t) <==>
              LastInstant(cfg, t) || Millis(cfg, t) == 0
  {
    var e, w := Millis(cfg, t), cfg.Millis();
    ExactIsSound(cfg);
    LimitKeptExactlyWhen(cfg, limit, id, t);
    ElapsedWithinWindow(t, cfg.windowLength);
    ExactCeiling(cfg, limit, t);
    if e == 0 {
      QuotientIs(w - 1, w, 0);
    } else {
      MulMonotone(1, limit, e);
      PositiveCeil(limit * e, w);
    }
  }

  // ----- fairness

  lemma {:induction false} PrefixCountsLess(cfg: Config, log: seq<Hit>, i: nat, id: Id, k: int)
    requires cfg.windowLength > 0 && i <= |log|
    ensures Count(cfg, log[..i], id, k) <= Count(cfg, log, id, k)
    ensures i < |log| && InWindow(cfg, log[i], id, k) ==> Count(cfg, log[..i], id, k) < Count(cfg, log, id, k)
    decreases |log|
  {
    if i == |log| {
      assert log[..i] == log;
    } else {
      var n := |log| - 1;
      PrefixCountsLess(cfg, log[..n], i, id, k);
      assert log[..n][..i] == log[..i];
    }
  }

  /** An id that never makes more than half the limit of requests in a fixed window is never
      rejected, over any run. */
  lemma ModerateIdsAreNeverRejected(cfg: Config, limit: nat, log: seq<Hit>, i: nat)
    requires cfg.Valid() && i < |log|
    requires forall k :: Count(cfg, log, log[i].id, k) <= limit / 2
    ensures Admitted(cfg, limit, log, i)
  {
    var id := log[i].id;
    var k := WindowOf(log[i].now, cfg.windowLength);
    ElapsedWithinWindow(log[i].now, cfg.windowLength);
    PrefixCountsLess(cfg, log, i, id, k);
    PrefixCountsLess(cfg, log, i, id, k - 1);
  }

  /** Two windows of silence and the next request is answered 1: all is forgiven. */
  lemma ReturningIdsStartAfresh(cfg: Config, log: seq<Hit>, id: Id, now: int)
    requires cfg.Valid()
    requires Count(cfg, log, id, WindowOf(now, cfg.windowLength)) == 0
    requires Count(cfg, log, id, WindowOf(now, cfg.windowLength) - 1) == 0
    ensures LogIncrement(cfg, log, id, now) == 1
  {
    ElapsedWithinWindow(now, cfg.windowLength);
  }

  // ----- the estimate and the exact log

  /** Increments of `id` later than `from`. */
  ghost function CountSince(log: seq<Hit>, id: Id, from: int): nat {
    if log == [] then 0
    else
      var n := |log| - 1;
      CountSince(log[..n], id, from) + if log[n].id == id && log[n].now > from then 1 else 0
  }

  lemma {:induction false} SinceCoversTwoWindows(cfg: Config, log: seq<Hit>, last: int, id: Id, now: int)
    requires cfg.Valid() && Ordered(cfg, log, last) && last <= WindowOf(now, cfg.windowLength)
    ensures Count(cfg, log, id, WindowOf(now, cfg.windowLength))
         <= CountSince(log, id, now - cfg.windowLength)
         <= Count(cfg, log, id, WindowOf(now, cfg.windowLength)) + Count(cfg, log, id, WindowOf(now, cfg.windowLength) - 1)
  {
    if log != [] {
      var n := |log| - 1;
      var length := cfg.windowLength;
      var k, w := WindowOf(now, length), WindowOf(log[n].now, length);
      OrderedWeaken(cfg, log[..n], w, last);
      SinceCoversTwoWindows(cfg, log[..n], last, id, now);
      TruncateIsWindowStart(now, length);
      TruncateIsWindowStart(log[n].now, length);
      assert (k - 1) * length == k * length - length;
      if w < k - 1 { WindowsAreApart(w, k - 1, length); }
    }
  }

  /** The rate an increment returns and the true number of increments in the window length
      before it lie in the same span, so the estimate is off by at most the previous
      window's count. */
  lemma EstimateNearTruth(cfg: Config, log: seq<Hit>, last: int, id: Id, now: int)
    requires cfg.Valid() && Ordered(cfg, log, last) && last <= WindowOf(now, cfg.windowLength)
    ensures var k := WindowOf(now, cfg.windowLength);
            var current, previous := Count(cfg, log, id, k) + 1, Count(cfg, log, id, k - 1);
            && current <= LogIncrement(cfg, log, id, now) <= current + previous
            && current <= CountSince(log + [Hit(id, now)], id, now - cfg.windowLength) <= current + previous
  {
    ElapsedWithinWindow(now, cfg.windowLength);
    hide WindowOf, Truncate;
    SinceCoversTwoWindows(cfg, log, last, id, now);
    assert (log + [Hit(id, now)])[..|log|] == log;
  }

  // ----- Get and Increment agree with each other

  lemma SilenceFades(cfg: Config, log: seq<Hit>, last: int, id: Id, now: int, later: int)
    requires cfg.Valid() && cfg.Fading() && Ordered(cfg, log, last)
    requires last <= WindowOf(now, cfg.windowLength) && now <= later
    ensures LogGet(cfg, log, id, later) <= LogGet(cfg, log, id, now)
  {
    var length := cfg.windowLength;
    var k, k' := WindowOf(now, length), WindowOf(later, length);
    ElapsedWithinWindow(now, length);
    ElapsedWithinWindow(later, length);
    TruncateIsWindowStart(now, length);
    TruncateIsWindowStart(later, length);
    DivMonotone(now, later, length);
    if k' == k {
      DivMonotone(Elapsed(cfg, now), Elapsed(cfg, later), MILLISECOND);
    } else {
      NothingLater(cfg, log, last, id, k');
      if k' > k + 1 { NothingLater(cfg, log, last, id, k' - 1); }
    }
  }

  /** Later Gets never return more, whatever other ids did in between: `more` is the log at
      the later Get, and `id` itself has no increment in it that `log` has not. */
  lemma GetsFade(cfg: Config, log: seq<Hit>, more: seq<Hit>, last: int, id: Id, now: int, later: int)
    requires cfg.Valid() && cfg.Fading() && Ordered(cfg, log, last)
    requires last <= WindowOf(now, cfg.windowLength) && now <= later
    requires OwnHits(more, id) == OwnHits(log, id)
    ensures LogGet(cfg, more, id, later) <= LogGet(cfg, log, id, now)
  {
    OwnAnswerAgrees(cfg, log, Get(id, later));
    OwnAnswerAgrees(cfg, more, Get(id, later));
    SilenceFades(cfg, log, last, id, now, later);
  }

  /** Looking and then counting: an increment adds at most one to what Get shows, exactly
      one when the id already counts in this window, and Get then shows the same. */
  lemma GetIncrementCoherence(cfg: Config, log: seq<Hit>, id: Id, now: int)
    requires cfg.Valid()
    ensures LogIncrement(cfg, log, id, now) <= LogGet(cfg, log, id, now) + 1
    ensures Count(cfg, log, id, WindowOf(now, cfg.windowLength)) > 0 ==>
              LogIncrement(cfg, log, id, now) == LogGet(cfg, log, id, now) + 1
    ensures LogGet(cfg, log + [Hit(id, now)], id, now) == LogIncrement(cfg, log, id, now)
  {
    var k := WindowOf(now, cfg.windowLength);
    ElapsedWithinWindow(now, cfg.windowLength);
    CountAppend(cfg, log, Hit(id, now), id, k);
    CountAppend(cfg, log, Hit(id, now), id, k - 1);
  }
}
