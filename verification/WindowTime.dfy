/** Instants, fixed windows and the millisecond stamps that name them.

    An instant is a number of nanoseconds since Go's zero time, so that `Truncate` is
    "round down to a multiple of the duration" and the Unix epoch is a constant offset. */
module WindowTime {
  const MILLISECOND := 1_000_000
  const SECOND := 1_000 * MILLISECOND
  const MINUTE := 60 * SECOND

  /** Milliseconds between Go's zero time and 1 January 1970. */
  const UNIX_EPOCH := 62_135_596_800_000

  function UnixMilli(t: int): int {
    t / MILLISECOND - UNIX_EPOCH
  }

  function Truncate(t: int, length: int): int
    requires length > 0
  {
    t - t % length
  }

  /** The number of the fixed window that contains `t`. */
  function WindowOf(t: int, length: int): int
    requires length > 0
  {
    t / length
  }

  /** The stamp a counter of window `k` carries. */
  function Stamp(k: int, length: int): int {
    UnixMilli(k * length)
  }

  lemma TruncateIsWindowStart(t: int, length: int)
    requires length > 0
    ensures Truncate(t, length) == WindowOf(t, length) * length
    ensures Truncate(t, length) <= t < Truncate(t, length) + length
  {
  }

  lemma WindowsAreApart(k1: int, k2: int, length: int)
    requires length > 0 && k1 < k2
    ensures k1 * length + length <= k2 * length
  {
    var gap := k2 - k1 - 1;
    ProductNonNegative(gap, length);
    assert k2 == gap + k1 + 1;
    assert (gap + k1 + 1) * length == gap * length + k1 * length + length;
  }

  lemma ProductNonNegative(a: nat, b: nat)
    ensures a * b >= 0
  {
  }

  /** Rounding down to milliseconds never merges or reorders windows of at least 1ms. */
  lemma StampOrder(k1: int, k2: int, length: int)
    requires length >= MILLISECOND
    ensures Stamp(k1, length) < Stamp(k2, length) <==> k1 < k2
    ensures Stamp(k1, length) == Stamp(k2, length) <==> k1 == k2
  {
    if k1 < k2 {
      WindowsAreApart(k1, k2, length);
    } else if k2 < k1 {
      WindowsAreApart(k2, k1, length);
    }
  }

  /** The two stamp comparisons of the tracker decide "same window" and "window before",
      for every window length of at least 1ms, a whole number of milliseconds or not. */
  lemma StampsIdentifyWindows(t: int, k: int, length: int)
    requires length >= MILLISECOND
    ensures UnixMilli(Truncate(t, length)) == Stamp(k, length) <==> WindowOf(t, length) == k
    ensures UnixMilli(Truncate(t, length) - length) == Stamp(k, length) <==> WindowOf(t, length) - 1 == k
  {
    var w := WindowOf(t, length);
    TruncateIsWindowStart(t, length);
    assert (w - 1) * length == w * length - length;
    StampOrder(w, k, length);
    StampOrder(w - 1, k, length);
  }

  /** The purge cut-off spares the current and the previous window, and takes everything
      three or more windows back. */
  lemma CutoffIsStale(t: int, k: int, length: int)
    requires length >= MILLISECOND
    ensures Stamp(k, length) <= UnixMilli(t - 3 * length) ==> k < WindowOf(t, length) - 1
    ensures k <= WindowOf(t, length) - 3 ==> Stamp(k, length) <= UnixMilli(t - 3 * length)
  {
    var w := WindowOf(t, length);
    TruncateIsWindowStart(t, length);
    if k >= w - 1 {
      assert (w - 1) * length == w * length - length;
      if k > w - 1 { WindowsAreApart(w - 1, k, length); }
      assert k * length >= t - 3 * length + length;
    }
    if k <= w - 3 {
      assert (w - 3) * length == w * length - 3 * length;
      if k < w - 3 { WindowsAreApart(k, w - 3, length); }
    }
  }

  /** For windows of whole milliseconds it takes those and no others. */
  lemma CutoffIsExact(t: int, k: int, length: int)
    requires length >= MILLISECOND && length % MILLISECOND == 0
    ensures Stamp(k, length) <= UnixMilli(t - 3 * length) <==> k <= WindowOf(t, length) - 3
  {
    var w := WindowOf(t, length);
    CutoffIsStale(t, k, length);
    if k == w - 2 {
      var m := length / MILLISECOND;
      TruncateIsWindowStart(t, length);
      assert (w - 2) * length == w * length - 2 * length;
      assert k * length == (k * m) * MILLISECOND;
      assert t - 3 * length < k * length;
    }
  }

  /** The elapsed milliseconds never exceed the window's milliseconds, so the decay factor
      (W - e) / W stays within [0, 1]. */
  lemma ElapsedWithinWindow(t: int, length: int)
    requires length >= MILLISECOND
    ensures 0 <= (t - Truncate(t, length)) / MILLISECOND <= length / MILLISECOND
    ensures length / MILLISECOND >= 1
  {
    TruncateIsWindowStart(t, length);
  }
}
