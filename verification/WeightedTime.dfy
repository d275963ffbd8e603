/**
  Weighted time, the quantity that tools/report_build_time_ninja.py reports.

  Every build step runs over an interval of time.  Each slice of elapsed time is
  divided equally among the steps running in it, and a step's weighted duration is
  the sum of its shares.  This module defines that sum directly on the intervals,
  with no events and no running set, and proves what it promises.  NinjaReport
  proves that the source's single pass over sorted events computes it.
 */
module WeightedTime {

  datatype Span = Span(start: real, end: real)

  // ----- What a weighted duration is, without events -----

  /** The tasks that run during the whole slice of time from a to b. */
  ghost function Cover(w: seq<Span>, a: real, b: real): set<nat> {
    set i: nat | i < |w| && w[i].start <= a && b <= w[i].end
  }

  /** n times x.  Repeated addition keeps the proofs below free of products. */
  ghost function Times(n: nat, x: real): real {
    if n == 0 then 0.0 else Times(n - 1, x) + x
  }

  /** One of n equal parts of d; nothing when there is no one to divide among. */
  ghost function Part(d: real, n: nat): (q: real)
    ensures n > 0 ==> Times(n, q) == d
    ensures (d == 0.0 ==> q == 0.0) && (d >= 0.0 ==> q >= 0.0)
  {
    if n == 0 then 0.0 else
    TimesProduct(n, d / n as real);
    var q :| Times(n, q) == d;
    TimesSign(n, q);
    q
  }

  lemma TimesSign(n: nat, x: real)
    requires n > 0
    ensures Times(n, x) == 0.0 ==> x == 0.0
    ensures Times(n, x) >= 0.0 ==> x >= 0.0
  {
    TimesProduct(n, x);
  }

  /** What each running task is charged for the slice. */
  ghost function Share(w: seq<Span>, a: real, b: real): real {
    Part(b - a, |Cover(w, a, b)|)
  }

  ghost function Charge(w: seq<Span>, i: nat): (real, real) -> real {
    (a, b) => if i in Cover(w, a, b) then Share(w, a, b) else 0.0
  }

  ghost function Elapsed(w: seq<Span>, i: nat): (real, real) -> real {
    (a, b) => if i in Cover(w, a, b) then b - a else 0.0
  }

  ghost function BusySlice(w: seq<Span>): (real, real) -> real {
    (a, b) => if Cover(w, a, b) != {} then b - a else 0.0
  }

  ghost function ShareSlice(w: seq<Span>): (real, real) -> real {
    (a, b) => Share(w, a, b)
  }

  /** The sum of g over the slices between the first m points of a grid of times. */
  ghost function Total(g: (real, real) -> real, ts: seq<real>, m: nat): real
    requires m <= |ts|
  {
    if m < 2 then 0.0 else Total(g, ts, m - 1) + g(ts[m - 2], ts[m - 1])
  }

  /** The weighted duration of task i: its shares, summed over the grid. */
  ghost function Weighted(w: seq<Span>, ts: seq<real>, i: nat): real {
    Total(Charge(w, i), ts, |ts|)
  }

  /** The length of the union of the intervals: time with some task running. */
  ghost function Busy(w: seq<Span>, ts: seq<real>): real {
    Total(BusySlice(w), ts, |ts|)
  }

  ghost predicate Ordered(ts: seq<real>) {
    forall j, k :: 0 <= j <= k < |ts| ==> ts[j] <= ts[k]
  }

  /** A grid fine enough for the tasks: every start and every end is on it. */
  ghost predicate Grid(w: seq<Span>, ts: seq<real>) {
    && Ordered(ts)
    && forall i :: 0 <= i < |w| ==> w[i].start in ts && w[i].end in ts
  }

  /** At no time do more than n tasks run at once. */
  ghost predicate PeakAtMost(w: seq<Span>, ts: seq<real>, n: nat) {
    forall j, k :: 0 <= j && j + 1 == k < |ts| && ts[j] != ts[k] ==> |Cover(w, ts[j], ts[k])| <= n
  }

  /** lo is the earliest start and hi the latest end. */
  ghost predicate Extent(w: seq<Span>, lo: real, hi: real) {
    && (exists i :: 0 <= i < |w| && w[i].start == lo)
    && (exists i :: 0 <= i < |w| && w[i].end == hi)
    && (forall i :: 0 <= i < |w| ==> lo <= w[i].start && w[i].end <= hi)
  }

  /** At every time from lo up to hi some task is running. */
  ghost predicate NoIdle(w: seq<Span>, lo: real, hi: real) {
    forall t :: lo <= t < hi ==> SomeRunning(w, t)
  }

  ghost predicate SomeRunning(w: seq<Span>, t: real) {
    exists i :: 0 <= i < |w| && w[i].start <= t < w[i].end
  }

  ghost predicate Forward(w: seq<Span>) {
    forall i :: 0 <= i < |w| ==> w[i].start <= w[i].end
  }

  function Sum(xs: seq<real>): real {
    if xs == [] then 0.0 else Sum(xs[..|xs| - 1]) + xs[|xs| - 1]
  }

  ghost function AllWeighted(w: seq<Span>, ts: seq<real>): seq<real> {
    seq(|w|, i requires 0 <= i < |w| => Weighted(w, ts, i))
  }

  lemma {:induction false} SumUpdate(xs: seq<real>, i: nat, v: real)
    requires i < |xs|
    ensures Sum(xs[i := v]) == Sum(xs) - xs[i] + v
  {
    var n := |xs| - 1;
    if i == n {
      assert xs[i := v][..n] == xs[..n];
    } else {
      assert xs[i := v][..n] == xs[..n][i := v];
      SumUpdate(xs[..n], i, v);
    }
  }

  lemma {:induction false} SumZero(xs: seq<real>)
    requires forall i :: 0 <= i < |xs| ==> xs[i] == 0.0
    ensures Sum(xs) == 0.0
  {
    if xs != [] { SumZero(xs[..|xs| - 1]); }
  }

  // ----- Conservation: shares add up to busy time -----

  ghost function Charges(w: seq<Span>, ts: seq<real>, m: nat, n: nat): seq<real>
    requires m <= |ts|
  {
    seq(n, i requires 0 <= i < n => Total(Charge(w, i), ts, m))
  }

  lemma {:induction false} TimesProduct(n: nat, x: real)
    ensures Times(n, x) == n as real * x
  {
    if n > 0 { TimesProduct(n - 1, x); }
  }

  lemma TimesInjective(n: nat, x: real, y: real)
    requires n > 0 && Times(n, x) == Times(n, y)
    ensures x == y
  {
    TimesProduct(n, x);
    TimesProduct(n, y);
  }

  lemma SharesFillSlice(w: seq<Span>, a: real, b: real)
    ensures Times(|Cover(w, a, b)|, Share(w, a, b)) == BusySlice(w)(a, b)
  {
  }

  method Divide(d: real, n: nat) returns (q: real)
    requires n > 0
    ensures q == Part(d, n)
  {
    q := d / n as real;
    TimesProduct(n, q);
    TimesInjective(n, q, Part(d, n));
  }

  /** Raising the entries at the positions in c by x raises the sum by |c| times x. */
  lemma {:induction false} SumRaised(xs: seq<real>, ys: seq<real>, c: set<nat>, x: real)
    requires |xs| == |ys|
    requires forall i :: 0 <= i < |xs| ==> xs[i] == ys[i] + (if i in c then x else 0.0)
    requires forall i :: i in c ==> i < |xs|
    ensures Sum(xs) == Sum(ys) + Times(|c|, x)
  {
    if xs == [] {
      assert c == {};
    } else {
      var n := |xs| - 1;
      SumRaised(xs[..n], ys[..n], c - {n}, x);
      if n in c {
        assert c == (c - {n}) + {n};
      } else {
        assert c == c - {n};
      }
    }
  }

  lemma {:induction false} ChargesConserved(w: seq<Span>, ts: seq<real>, m: nat)
    requires m <= |ts|
    ensures Sum(Charges(w, ts, m, |w|)) == Total(BusySlice(w), ts, m)
  {
    if m < 2 {
      SumZero(Charges(w, ts, m, |w|));
    } else {
      ChargesConserved(w, ts, m - 1);
      var a, b := ts[m - 2], ts[m - 1];
      SharesFillSlice(w, a, b);
      SumRaised(Charges(w, ts, m, |w|), Charges(w, ts, m - 1, |w|), Cover(w, a, b), Share(w, a, b));
    }
  }

  /** The weighted durations of all tasks add up to the length of the union of their
      intervals, for every set of tasks and every grid. */
  lemma WeightedSumIsBusy(w: seq<Span>, ts: seq<real>)
    ensures Sum(AllWeighted(w, ts)) == Busy(w, ts)
  {
    ChargesConserved(w, ts, |ts|);
    assert AllWeighted(w, ts) == Charges(w, ts, |ts|, |w|);
  }

  function Clamp(lo: real, hi: real, t: real): real {
    if t < lo then lo else if t > hi then hi else t
  }

  lemma BusyInside(w: seq<Span>, ts: seq<real>, k: nat, lo: real, hi: real)
    requires Grid(w, ts) && k + 1 < |ts| && Extent(w, lo, hi) && NoIdle(w, lo, hi) && lo <= hi
    ensures
      var a, b := ts[k], ts[k + 1];
      BusySlice(w)(a, b) == Clamp(lo, hi, b) - Clamp(lo, hi, a)
  {
    var a, b := ts[k], ts[k + 1];
    if a < b {
      OnGrid(w, ts, k, lo, hi);
      if lo <= a < hi {
        assert SomeRunning(w, a);
        var i :| 0 <= i < |w| && w[i].start <= a < w[i].end;
        var q :| 0 <= q < |ts| && ts[q] == w[i].end;
        assert k + 1 <= q;
        assert i in Cover(w, a, b);
      } else {
        assert Cover(w, a, b) == {};
      }
    }
  }

  lemma OnGrid(w: seq<Span>, ts: seq<real>, k: nat, lo: real, hi: real)
    requires Grid(w, ts) && k + 1 < |ts| && Extent(w, lo, hi)
    ensures lo <= ts[k] || ts[k + 1] <= lo
    ensures hi <= ts[k] || ts[k + 1] <= hi
  {
    var p :| 0 <= p < |ts| && ts[p] == lo;
    var q :| 0 <= q < |ts| && ts[q] == hi;
    assert p <= k || k + 1 <= p;
    assert q <= k || k + 1 <= q;
  }

  lemma {:induction false} NoIdleTotal(w: seq<Span>, ts: seq<real>, m: nat, lo: real, hi: real)
    requires Grid(w, ts) && 1 <= m <= |ts| && Extent(w, lo, hi) && NoIdle(w, lo, hi) && lo <= hi
    ensures Total(BusySlice(w), ts, m) == Clamp(lo, hi, ts[m - 1]) - Clamp(lo, hi, ts[0])
  {
    hide Grid, Extent, NoIdle, BusySlice, Clamp;
    if m > 1 {
      NoIdleTotal(w, ts, m - 1, lo, hi);
      BusyInside(w, ts, m - 2, lo, hi);
    }
  }

  /** Without idle time the length of the union is the length of the whole build. */
  lemma NoIdleBusy(w: seq<Span>, ts: seq<real>, lo: real, hi: real)
    requires Grid(w, ts) && Extent(w, lo, hi) && NoIdle(w, lo, hi) && lo <= hi
    ensures Busy(w, ts) == hi - lo
  {
    var p :| 0 <= p < |ts| && ts[p] == lo;
    var q :| 0 <= q < |ts| && ts[q] == hi;
    NoIdleTotal(w, ts, |ts|, lo, hi);
  }

  // ----- A task is charged exactly inside its own run -----

  /** Summing g only over the slices that task i covers gives the part of the sum of g
      between a task's start and its end, wherever those sit on the grid. */
  lemma {:induction false} Window(w: seq<Span>, ts: seq<real>, i: nat, p: nat, q: nat, m: nat,
                                  g: (real, real) -> real, own: (real, real) -> real)
    requires i < |w| && p <= q < |ts| && m <= |ts| && Ordered(ts)
    requires ts[p] == w[i].start && ts[q] == w[i].end
    requires forall a :: g(a, a) == 0.0
    requires forall a, b :: own(a, b) == if i in Cover(w, a, b) then g(a, b) else 0.0
    ensures Total(own, ts, m) ==
            (if m <= p then 0.0
             else if m <= q + 1 then Total(g, ts, m) - Total(g, ts, p + 1)
             else Total(g, ts, q + 1) - Total(g, ts, p + 1))
  {
    if m >= 2 {
      Window(w, ts, i, p, q, m - 1, g, own);
      var a, b := ts[m - 2], ts[m - 1];
      if p + 1 < m <= q + 1 {
        assert i in Cover(w, a, b);
      } else if i in Cover(w, a, b) {
        assert a == b;
      }
    }
  }

  lemma {:induction false} Telescope(ts: seq<real>, m: nat, len: (real, real) -> real)
    requires 1 <= m <= |ts|
    requires forall a, b :: len(a, b) == b - a
    ensures Total(len, ts, m) == ts[m - 1] - ts[0]
  {
    if m > 1 { Telescope(ts, m - 1, len); }
  }

  lemma {:induction false} Dominated(g: (real, real) -> real, h: (real, real) -> real,
                                     n: nat, ts: seq<real>, m: nat)
    requires m <= |ts|
    requires forall j, k :: 0 <= j && j + 1 == k < |ts| ==> g(ts[j], ts[k]) <= Times(n, h(ts[j], ts[k]))
    ensures Total(g, ts, m) <= Times(n, Total(h, ts, m))
  {
    if m < 2 {
      TimesProduct(n, 0.0);
    } else {
      Dominated(g, h, n, ts, m - 1);
      TimesAdds(n, Total(h, ts, m - 1), h(ts[m - 2], ts[m - 1]));
    }
  }

  lemma ElapsedIsDuration(w: seq<Span>, ts: seq<real>, i: nat)
    requires Grid(w, ts) && i < |w| && w[i].start <= w[i].end
    ensures Total(Elapsed(w, i), ts, |ts|) == w[i].end - w[i].start
  {
    var p :| 0 <= p < |ts| && ts[p] == w[i].start;
    var q :| 0 <= q < |ts| && ts[q] == w[i].end;
    var len := (a: real, b: real) => b - a;
    var lo, hi := if p <= q then p else q, if p <= q then q else p;
    assert ts[lo] == w[i].start && ts[hi] == w[i].end;
    Window(w, ts, i, lo, hi, |ts|, len, Elapsed(w, i));
    Telescope(ts, lo + 1, len);
    Telescope(ts, hi + 1, len);
  }

  /** A task's weighted duration is at most its duration, and at least its duration
      divided by the peak number of tasks running at once. */
  lemma WeightedBounds(w: seq<Span>, ts: seq<real>, i: nat, peak: nat)
    requires Grid(w, ts) && i < |w| && w[i].start <= w[i].end && PeakAtMost(w, ts, peak)
    ensures w[i].end - w[i].start <= Times(peak, Weighted(w, ts, i))
    ensures Weighted(w, ts, i) <= w[i].end - w[i].start
  {
    ElapsedIsDuration(w, ts, i);
    ChargedAtMost(w, ts, i);
    ChargedAtLeast(w, ts, i, peak);
  }

  lemma ChargedAtMost(w: seq<Span>, ts: seq<real>, i: nat)
    requires Ordered(ts)
    ensures Weighted(w, ts, i) <= Total(Elapsed(w, i), ts, |ts|)
  {
    var g, h := Charge(w, i), Elapsed(w, i);
    forall j, k | 0 <= j && j + 1 == k < |ts| ensures g(ts[j], ts[k]) <= Times(1, h(ts[j], ts[k])) {
      ChargeBounds(w, ts[j], ts[k], i, |Cover(w, ts[j], ts[k])|);
    }
    Dominated(g, h, 1, ts, |ts|);
  }

  lemma ChargedAtLeast(w: seq<Span>, ts: seq<real>, i: nat, peak: nat)
    requires Ordered(ts) && PeakAtMost(w, ts, peak)
    ensures Total(Elapsed(w, i), ts, |ts|) <= Times(peak, Weighted(w, ts, i))
  {
    var g, h := Elapsed(w, i), Charge(w, i);
    forall j, k | 0 <= j && j + 1 == k < |ts| ensures g(ts[j], ts[k]) <= Times(peak, h(ts[j], ts[k])) {
      ChargeBounds(w, ts[j], ts[k], i, peak);
    }
    Dominated(g, h, peak, ts, |ts|);
  }

  lemma ChargeBounds(w: seq<Span>, a: real, b: real, i: nat, peak: nat)
    requires a <= b
    requires a != b ==> |Cover(w, a, b)| <= peak
    ensures Charge(w, i)(a, b) <= Times(1, Elapsed(w, i)(a, b))
    ensures Elapsed(w, i)(a, b) <= Times(peak, Charge(w, i)(a, b))
  {
    var n, x := |Cover(w, a, b)|, Share(w, a, b);
    SharesFillSlice(w, a, b);
    if i in Cover(w, a, b) && a != b {
      TimesGrows(1, n, x);
      TimesGrows(n, peak, x);
    } else {
      TimesProduct(peak, 0.0);
    }
  }

  lemma {:induction false} TimesGrows(m: nat, n: nat, x: real)
    requires m <= n && 0.0 <= x
    ensures Times(m, x) <= Times(n, x)
  {
    if m < n { TimesGrows(m, n - 1, x); }
  }

  lemma {:induction false} TimesAdds(n: nat, x: real, y: real)
    ensures Times(n, x) + Times(n, y) == Times(n, x + y)
  {
    if n > 0 { TimesAdds(n - 1, x, y); }
  }

  /** The grid is only a way of writing the sum: an extra point changes nothing. */
  lemma {:induction false} GridRefines(w: seq<Span>, ts: seq<real>, k: nat, x: real, i: nat)
    requires Grid(w, ts) && k + 1 < |ts| && ts[k] <= x <= ts[k + 1]
    ensures
      var us := ts[..k + 1] + [x] + ts[k + 1..];
      Grid(w, us) && Weighted(w, us, i) == Weighted(w, ts, i) && Busy(w, us) == Busy(w, ts)
  {
    hide Grid, Charge, BusySlice, Total;
    var us := ts[..k + 1] + [x] + ts[k + 1..];
    GridInserted(w, ts, k, x);
    ChargeSplits(w, ts, k, x, i);
    Inserted(Charge(w, i), ts, us, k, x, |ts|);
    Inserted(BusySlice(w), ts, us, k, x, |ts|);
  }

  lemma GridInserted(w: seq<Span>, ts: seq<real>, k: nat, x: real)
    requires Grid(w, ts) && k + 1 < |ts| && ts[k] <= x <= ts[k + 1]
    ensures Grid(w, ts[..k + 1] + [x] + ts[k + 1..])
  {
    var us := ts[..k + 1] + [x] + ts[k + 1..];
    forall t | t in ts ensures t in us {
      var p :| 0 <= p < |ts| && ts[p] == t;
      assert us[if p <= k then p else p + 1] == t;
    }
  }

  /** No task starts or ends strictly inside a slice of a grid. */
  lemma OpenSlice(w: seq<Span>, ts: seq<real>, k: nat, x: real)
    requires Grid(w, ts) && k + 1 < |ts| && ts[k] < x < ts[k + 1]
    ensures Cover(w, ts[k], x) == Cover(w, ts[k], ts[k + 1]) == Cover(w, x, ts[k + 1])
  {
    forall i: nat | i < |w|
      ensures (w[i].start <= x ==> w[i].start <= ts[k]) && (x <= w[i].end ==> ts[k + 1] <= w[i].end)
    {
      var p :| 0 <= p < |ts| && ts[p] == w[i].start;
      var q :| 0 <= q < |ts| && ts[q] == w[i].end;
      assert p <= k || ts[k + 1] <= ts[p];
      assert q <= k || ts[k + 1] <= ts[q];
    }
  }

  lemma ChargeSplits(w: seq<Span>, ts: seq<real>, k: nat, x: real, i: nat)
    requires Grid(w, ts) && k + 1 < |ts| && ts[k] <= x <= ts[k + 1]
    ensures
      var a, b := ts[k], ts[k + 1];
      && Charge(w, i)(a, b) == Charge(w, i)(a, x) + Charge(w, i)(x, b)
      && BusySlice(w)(a, b) == BusySlice(w)(a, x) + BusySlice(w)(x, b)
  {
    var a, b := ts[k], ts[k + 1];
    if a < x < b {
      OpenSlice(w, ts, k, x);
      if Cover(w, a, b) != {} { Quotients(x - a, b - x, |Cover(w, a, b)|); }
    }
  }

  lemma Quotients(x: real, y: real, n: nat)
    requires n > 0
    ensures Part(x, n) + Part(y, n) == Part(x + y, n)
  {
    TimesAdds(n, Part(x, n), Part(y, n));
    TimesInjective(n, Part(x, n) + Part(y, n), Part(x + y, n));
  }

  lemma {:induction false} Inserted(g: (real, real) -> real, ts: seq<real>, us: seq<real>,
                                    k: nat, x: real, m: nat)
    requires k + 1 < |ts| && m <= |ts| && us == ts[..k + 1] + [x] + ts[k + 1..]
    requires g(ts[k], ts[k + 1]) == g(ts[k], x) + g(x, ts[k + 1])
    ensures m <= k + 1 ==> Total(g, us, m) == Total(g, ts, m)
    ensures m > k + 1 ==> Total(g, us, m + 1) == Total(g, ts, m)
  {
    if m >= 2 {
      Inserted(g, ts, us, k, x, m - 1);
      if m == k + 2 {
        assert us[k] == ts[k] && us[k + 1] == x && us[k + 2] == ts[k + 1];
        assert Total(g, us, m + 1) == Total(g, us, k + 1) + g(us[k], us[k + 1]) + g(us[k + 1], us[k + 2]);
      }
    }
  }

  lemma {:induction false} Prepended(g: (real, real) -> real, x: real, ts: seq<real>, m: nat)
    requires 1 <= m <= |ts| && g(x, ts[0]) == 0.0
    ensures Total(g, [x] + ts, m + 1) == Total(g, ts, m)
  {
    if m == 1 {
      assert ([x] + ts)[1] == ts[0];
    } else {
      Prepended(g, x, ts, m - 1);
    }
  }

  lemma {:induction false} Prefix(g: (real, real) -> real, ts: seq<real>, x: real, m: nat)
    requires m <= |ts|
    ensures Total(g, ts + [x], m) == Total(g, ts, m)
  {
    if m >= 2 { Prefix(g, ts, x, m - 1); }
  }

  /** Nothing runs before the first point of a grid or after its last one. */
  lemma IdleOutside(w: seq<Span>, ts: seq<real>, x: real, i: nat)
    requires Grid(w, ts) && ts != []
    ensures x <= ts[0] ==> Charge(w, i)(x, ts[0]) == BusySlice(w)(x, ts[0]) == 0.0
    ensures var z := ts[|ts| - 1]; z <= x ==> Charge(w, i)(z, x) == BusySlice(w)(z, x) == 0.0
  {
    var a, z := ts[0], ts[|ts| - 1];
    forall t | t in ts ensures a <= t <= z {
      var p :| 0 <= p < |ts| && ts[p] == t;
    }
    assert x < a ==> Cover(w, x, a) == {};
    assert z < x ==> Cover(w, z, x) == {};
  }

  lemma PointAppended(w: seq<Span>, ts: seq<real>, x: real, i: nat)
    requires Grid(w, ts) && (ts != [] ==> ts[|ts| - 1] <= x)
    ensures Grid(w, ts + [x])
    ensures Weighted(w, ts + [x], i) == Weighted(w, ts, i) && Busy(w, ts + [x]) == Busy(w, ts)
  {
    Prefix(Charge(w, i), ts, x, |ts|);
    Prefix(BusySlice(w), ts, x, |ts|);
    if ts != [] { IdleOutside(w, ts, x, i); }
  }

  lemma PointPrepended(w: seq<Span>, ts: seq<real>, x: real, i: nat)
    requires Grid(w, ts) && ts != [] && x <= ts[0]
    ensures Grid(w, [x] + ts)
    ensures Weighted(w, [x] + ts, i) == Weighted(w, ts, i) && Busy(w, [x] + ts) == Busy(w, ts)
  {
    IdleOutside(w, ts, x, i);
    Prepended(Charge(w, i), x, ts, |ts|);
    Prepended(BusySlice(w), x, ts, |ts|);
    forall t | t in ts ensures t in [x] + ts {
      var p :| 0 <= p < |ts| && ts[p] == t;
      assert ([x] + ts)[p + 1] == t;
    }
  }

  /** Any further point can be added to a grid. */
  lemma AddPoint(w: seq<Span>, ts: seq<real>, x: real, i: nat) returns (us: seq<real>)
    requires Grid(w, ts)
    ensures Grid(w, us) && multiset(us) == multiset(ts) + multiset{x}
    ensures Weighted(w, us, i) == Weighted(w, ts, i) && Busy(w, us) == Busy(w, ts)
  {
    hide Grid, Weighted, Busy;
    if ts == [] || ts[|ts| - 1] <= x {
      us := ts + [x];
      PointAppended(w, ts, x, i);
    } else if x <= ts[0] {
      us := [x] + ts;
      PointPrepended(w, ts, x, i);
    } else {
      var k := 0;
      while ts[k + 1] < x
        invariant 0 <= k < |ts| - 1 && ts[k] <= x
        decreases |ts| - k
      {
        k := k + 1;
      }
      us := ts[..k + 1] + [x] + ts[k + 1..];
      GridRefines(w, ts, k, x, i);
      assert ts == ts[..k + 1] + ts[k + 1..];
    }
  }

  lemma AddPoints(w: seq<Span>, ts: seq<real>, xs: seq<real>, i: nat) returns (us: seq<real>)
    requires Grid(w, ts)
    ensures Grid(w, us) && multiset(us) == multiset(ts) + multiset(xs)
    ensures Weighted(w, us, i) == Weighted(w, ts, i) && Busy(w, us) == Busy(w, ts)
  {
    us := ts;
    for n := 0 to |xs|
      invariant Grid(w, us) && multiset(us) == multiset(ts) + multiset(xs[..n])
      invariant Weighted(w, us, i) == Weighted(w, ts, i) && Busy(w, us) == Busy(w, ts)
    {
      assert xs[..n + 1] == xs[..n] + [xs[n]];
      us := AddPoint(w, us, xs[n], i);
    }
    assert xs[..|xs|] == xs;
  }

  lemma LastIsLargest(ts: seq<real>, us: seq<real>)
    requires Ordered(ts) && us != [] && multiset(us) == multiset(ts)
    ensures ts != [] && us[|us| - 1] <= ts[|ts| - 1]
  {
    var y := us[|us| - 1];
    assert y in multiset(us);
    assert y in ts;
  }

  lemma WithoutLast(ts: seq<real>)
    requires ts != []
    ensures multiset(ts[..|ts| - 1]) == multiset(ts) - multiset{ts[|ts| - 1]}
  {
    assert ts == ts[..|ts| - 1] + [ts[|ts| - 1]];
  }

  lemma {:induction false} OrderedUnique(ts: seq<real>, us: seq<real>)
    requires Ordered(ts) && Ordered(us) && multiset(ts) == multiset(us)
    ensures ts == us
    decreases |ts|
  {
    if ts == [] {
      if us != [] { LastIsLargest(ts, us); }
    } else {
      LastIsLargest(us, ts);
      LastIsLargest(ts, us);
      var t, u := ts[..|ts| - 1], us[..|us| - 1];
      WithoutLast(ts);
      WithoutLast(us);
      OrderedUnique(t, u);
      assert ts == t + [ts[|ts| - 1]];
    }
  }

  /** Weighted duration and busy time belong to the tasks alone: every grid gives the
      same values. */
  lemma GridIndependent(w: seq<Span>, ts: seq<real>, us: seq<real>, i: nat)
    requires Grid(w, ts) && Grid(w, us)
    ensures Weighted(w, ts, i) == Weighted(w, us, i) && Busy(w, ts) == Busy(w, us)
  {
    var a := AddPoints(w, ts, us, i);
    var b := AddPoints(w, us, ts, i);
    OrderedUnique(a, b);
  }
}
