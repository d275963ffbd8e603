/**
  tools/report_build_time_ninja.py: reading the log and sweeping over its events.
 */
module NinjaReport {
  import opened WeightedTime

  /** One build step of the log. */
  class Target {
    const start: real
    const end: real
    var names: seq<string>
    var weightedDuration: real

    constructor (start: real, end: real)
      ensures this.start == start && this.end == end
      ensures names == [] && weightedDuration == 0.0
    {
      this.start, this.end, names, weightedDuration := start, end, [], 0.0;
    }
  }

  function Spans(entries: seq<Target>): (w: seq<Span>)
    ensures |w| == |entries|
    ensures forall i :: 0 <= i < |w| ==> w[i] == Span(entries[i].start, entries[i].end)
  {
    seq(|entries|, i requires 0 <= i < |entries| => Span(entries[i].start, entries[i].end))
  }

  // ----- Events -----

  /** A start or stop record; task is the position of its target in the entries. */
  datatype Event = Event(time: real, stop: bool, task: nat)

  /** The sort key: time, and at one time "start" before "stop". */
  predicate Before(a: Event, b: Event) {
    a.time < b.time || (a.time == b.time && (!a.stop || b.stop))
  }

  ghost predicate Sorted(ev: seq<Event>) {
    forall j, k :: 0 <= j < k < |ev| ==> Before(ev[j], ev[k])
  }

  function Insert(ev: seq<Event>, e: Event): (r: seq<Event>)
    requires Sorted(ev)
    ensures Sorted(r) && multiset(r) == multiset(ev) + multiset{e}
  {
    if ev == [] || Before(ev[|ev| - 1], e) then
      ev + [e]
    else
      var z := ev[|ev| - 1];
      var r := Insert(ev[..|ev| - 1], e);
      assert ev == ev[..|ev| - 1] + [z];
      assert forall k :: 0 <= k < |r| ==> Before(r[k], z) by { Bounded(ev[..|ev| - 1], e, r, z); }
      r + [z]
  }

  lemma Bounded(ev: seq<Event>, e: Event, r: seq<Event>, z: Event)
    requires multiset(r) == multiset(ev) + multiset{e}
    requires Before(e, z) && forall k :: 0 <= k < |ev| ==> Before(ev[k], z)
    ensures forall k :: 0 <= k < |r| ==> Before(r[k], z)
  {
    forall k | 0 <= k < |r| ensures Before(r[k], z) {
      assert r[k] in multiset(r);
      assert r[k] in ev || r[k] == e;
    }
  }

  /** Python's list.sort on the key: any stable sort, here by insertion. */
  function SortEvents(ev: seq<Event>): (r: seq<Event>)
    ensures Sorted(r) && multiset(r) == multiset(ev)
  {
    if ev == [] then []
    else
      assert ev == ev[..|ev| - 1] + [ev[|ev| - 1]];
      Insert(SortEvents(ev[..|ev| - 1]), ev[|ev| - 1])
  }

  /** The start and stop records of the first n tasks, in the order they are appended. */
  function RawEvents(w: seq<Span>, n: nat): seq<Event>
    requires n <= |w|
  {
    if n == 0 then []
    else RawEvents(w, n - 1) + [Event(w[n - 1].start, false, n - 1), Event(w[n - 1].end, true, n - 1)]
  }

  function StartOf(w: seq<Span>, i: nat): Event requires i < |w| { Event(w[i].start, false, i) }

  function StopOf(w: seq<Span>, i: nat): Event requires i < |w| { Event(w[i].end, true, i) }

  /** Sorted, with the start of each task i once, at sp[i], and its stop once, at tp[i]. */
  ghost predicate Schedule(w: seq<Span>, ev: seq<Event>, sp: seq<nat>, tp: seq<nat>) {
    Sorted(ev) && Placed(w, ev, sp, tp)
  }

  ghost predicate Placed(w: seq<Span>, ev: seq<Event>, sp: seq<nat>, tp: seq<nat>) {
    && |sp| == |tp| == |w|
    && (forall i :: 0 <= i < |w| ==> sp[i] < |ev| && ev[sp[i]] == StartOf(w, i))
    && (forall i :: 0 <= i < |w| ==> tp[i] < |ev| && ev[tp[i]] == StopOf(w, i))
    && (forall k :: 0 <= k < |ev| ==>
                      ev[k].task < |w| && k == if ev[k].stop then tp[ev[k].task] else sp[ev[k].task])
  }

  lemma {:induction false} RawContents(w: seq<Span>, n: nat, e: Event)
    requires n <= |w|
    ensures multiset(RawEvents(w, n))[e] ==
            if e.task < n && (e == StartOf(w, e.task) || e == StopOf(w, e.task)) then 1 else 0
  {
    if n > 0 { RawContents(w, n - 1, e); }
  }

  lemma Repeated(ev: seq<Event>, j: nat, k: nat)
    requires j < k < |ev| && ev[j] == ev[k]
    ensures multiset(ev)[ev[j]] >= 2
  {
    assert ev == ev[..j] + [ev[j]] + ev[j + 1..k] + [ev[k]] + ev[k + 1..];
  }

  lemma Occurs(w: seq<Span>, ev: seq<Event>, e: Event)
    requires multiset(ev) == multiset(RawEvents(w, |w|))
    ensures e in ev <==> e.task < |w| && (e == StartOf(w, e.task) || e == StopOf(w, e.task))
    ensures forall j, k :: 0 <= j < |ev| && 0 <= k < |ev| && ev[j] == ev[k] == e ==> j == k
  {
    RawContents(w, |w|, e);
    assert e in ev <==> e in multiset(ev);
    forall j, k | 0 <= j < |ev| && 0 <= k < |ev| && ev[j] == ev[k] == e ensures j == k {
      if j < k { Repeated(ev, j, k); }
      if k < j { Repeated(ev, k, j); }
    }
  }

  ghost function At(ev: seq<Event>, e: Event): (k: nat)
    requires e in ev
    ensures k < |ev| && ev[k] == e
  {
    var k :| 0 <= k < |ev| && ev[k] == e; k
  }

  lemma SortedEventsSchedule(w: seq<Span>, ev: seq<Event>) returns (sp: seq<nat>, tp: seq<nat>)
    requires Sorted(ev) && multiset(ev) == multiset(RawEvents(w, |w|))
    ensures Schedule(w, ev, sp, tp) && (w != [] ==> ev != [])
  {
    forall i | 0 <= i < |w| ensures StartOf(w, i) in ev && StopOf(w, i) in ev {
      Occurs(w, ev, StartOf(w, i));
      Occurs(w, ev, StopOf(w, i));
    }
    sp := seq(|w|, i requires 0 <= i < |w| => At(ev, StartOf(w, i)));
    tp := seq(|w|, i requires 0 <= i < |w| => At(ev, StopOf(w, i)));
    forall k | 0 <= k < |ev|
      ensures ev[k].task < |w| && k == if ev[k].stop then tp[ev[k].task] else sp[ev[k].task]
    {
      Occurs(w, ev, ev[k]);
    }
  }

  function Times(ev: seq<Event>): (ts: seq<real>)
    ensures |ts| == |ev| && forall k :: 0 <= k < |ts| ==> ts[k] == ev[k].time
  {
    seq(|ev|, k requires 0 <= k < |ev| => ev[k].time)
  }

  /** The tasks started and not stopped by the first m events. */
  ghost function Running(sp: seq<nat>, tp: seq<nat>, m: nat): set<nat>
    requires |sp| == |tp|
  {
    set i: nat | i < |sp| && sp[i] < m <= tp[i]
  }

  /** Every stop among the first m events came after its start. */
  ghost predicate Matched(sp: seq<nat>, tp: seq<nat>, m: nat)
    requires |sp| == |tp|
  {
    forall i :: 0 <= i < |sp| && tp[i] < m ==> sp[i] < tp[i]
  }

  lemma ScheduleGrid(w: seq<Span>, ev: seq<Event>, sp: seq<nat>, tp: seq<nat>)
    requires Schedule(w, ev, sp, tp)
    ensures Grid(w, Times(ev))
  {
    var ts := Times(ev);
    forall i | 0 <= i < |w| ensures w[i].start in ts && w[i].end in ts {
      assert ts[sp[i]] == w[i].start;
      assert ts[tp[i]] == w[i].end;
    }
    TimesOrdered(ev);
  }

  lemma TimesOrdered(ev: seq<Event>)
    requires Sorted(ev)
    ensures Ordered(Times(ev))
  {
    forall j, k | 0 <= j <= k < |ev| ensures Times(ev)[j] <= Times(ev)[k] {
      assert j < k ==> Before(ev[j], ev[k]);
    }
  }

  /** A task's start record precedes its stop record exactly when it does not end before it starts. */
  ghost predicate StartsFirst(w: seq<Span>, sp: seq<nat>, tp: seq<nat>)
    requires |sp| == |tp| == |w|
  {
    forall i :: 0 <= i < |w| ==> (sp[i] < tp[i] <==> w[i].start <= w[i].end)
  }

  lemma ScheduleStartsFirst(w: seq<Span>, ev: seq<Event>, sp: seq<nat>, tp: seq<nat>)
    requires Schedule(w, ev, sp, tp)
    ensures StartsFirst(w, sp, tp)
  {
    forall i | 0 <= i < |w| ensures sp[i] < tp[i] <==> w[i].start <= w[i].end {
      assert ev[sp[i]] != ev[tp[i]];
      assert sp[i] < tp[i] ==> Before(ev[sp[i]], ev[tp[i]]);
      assert tp[i] < sp[i] ==> Before(ev[tp[i]], ev[sp[i]]);
    }
  }

  /** Between two different times the running set is the set of tasks that cover the slice. */
  lemma RunningCovers(w: seq<Span>, ev: seq<Event>, sp: seq<nat>, tp: seq<nat>, m: nat)
    requires Schedule(w, ev, sp, tp) && 0 < m < |ev| && ev[m - 1].time != ev[m].time
    requires Matched(sp, tp, m)
    ensures Running(sp, tp, m) == Cover(w, ev[m - 1].time, ev[m].time)
  {
    var a, b := ev[m - 1].time, ev[m].time;
    assert Before(ev[m - 1], ev[m]);
    forall i: nat | i < |w| ensures sp[i] < m <= tp[i] <==> w[i].start <= a && b <= w[i].end {
      var p, q := sp[i], tp[i];
      assert p < m - 1 ==> Before(ev[p], ev[m - 1]);
      assert m < p ==> Before(ev[m], ev[p]);
      assert q < m - 1 ==> Before(ev[q], ev[m - 1]);
      assert m < q ==> Before(ev[m], ev[q]);
    }
  }

  // ----- The sweep -----

  /** What the clock reads after the first m events. */
  ghost function Clock(w: seq<Span>, ev: seq<Event>, m: nat): real
    requires m <= |ev|
  {
    Total(ShareSlice(w), Times(ev), m)
  }

  /** The clock advances by the share that the running tasks have in the next slice. */
  lemma ClockTick(w: seq<Span>, ev: seq<Event>, sp: seq<nat>, tp: seq<nat>, m: nat)
    requires Schedule(w, ev, sp, tp) && 0 < m < |ev| && Matched(sp, tp, m)
    ensures Clock(w, ev, m + 1) == Clock(w, ev, m) + Part(ev[m].time - ev[m - 1].time, |Running(sp, tp, m)|)
  {
    var a, b := ev[m - 1].time, ev[m].time;
    assert Times(ev)[m] == b && Times(ev)[m - 1] == a;
    assert Clock(w, ev, m + 1) == Clock(w, ev, m) + Share(w, a, b);
    if a != b { RunningCovers(w, ev, sp, tp, m); }
  }

  /** The clock after each number of events. */
  ghost function Readings(w: seq<Span>, ev: seq<Event>): (cl: seq<real>)
    ensures |cl| == |ev| + 1
  {
    seq(|ev| + 1, m requires 0 <= m <= |ev| => Clock(w, ev, m))
  }

  /** The slice before event m, divided among the tasks running in it. */
  ghost function Advance(ev: seq<Event>, sp: seq<nat>, tp: seq<nat>, m: nat): real
    requires m < |ev| && |sp| == |tp|
  {
    if m == 0 then 0.0 else Part(ev[m].time - ev[m - 1].time, |Running(sp, tp, m)|)
  }

  /** The readings cl of a clock that starts at zero and advances by the running tasks' share. */
  ghost predicate Ticks(ev: seq<Event>, sp: seq<nat>, tp: seq<nat>, cl: seq<real>)
    requires |sp| == |tp|
  {
    && |cl| == |ev| + 1 && cl[0] == 0.0
    && forall m {:trigger Advance(ev, sp, tp, m)} ::
         0 <= m < |ev| && Matched(sp, tp, m) ==> cl[m + 1] == cl[m] + Advance(ev, sp, tp, m)
  }

  lemma ReadingsTick(w: seq<Span>, ev: seq<Event>, sp: seq<nat>, tp: seq<nat>)
    requires Schedule(w, ev, sp, tp)
    ensures Ticks(ev, sp, tp, Readings(w, ev))
  {
    forall m | 0 <= m < |ev| && Matched(sp, tp, m)
      ensures Readings(w, ev)[m + 1] == Readings(w, ev)[m] + Advance(ev, sp, tp, m)
    {
      if m > 0 { ClockTick(w, ev, sp, tp, m); }
    }
  }

  /** The difference of two clock readings is a task's weighted duration. */
  lemma PaidIsWeighted(w: seq<Span>, ev: seq<Event>, i: nat, p: nat, q: nat)
    requires i < |w| && p < q < |ev| && Ordered(Times(ev))
    requires ev[p] == StartOf(w, i) && ev[q] == StopOf(w, i)
    ensures Readings(w, ev)[q + 1] - Readings(w, ev)[p + 1] == Weighted(w, Times(ev), i)
  {
    Window(w, Times(ev), i, p, q, |ev|, ShareSlice(w), Charge(w, i));
  }

  /** The readings of the clock, and what the tasks are paid from them. */
  lemma ClockReadings(w: seq<Span>, ev: seq<Event>, sp: seq<nat>, tp: seq<nat>)
    returns (cl: seq<real>, wt: seq<real>)
    requires Schedule(w, ev, sp, tp)
    ensures Ticks(ev, sp, tp, cl)
    ensures wt == AllWeighted(w, Times(ev))
    ensures forall i :: 0 <= i < |w| && sp[i] < tp[i] ==> wt[i] == cl[tp[i] + 1] - cl[sp[i] + 1]
  {
    hide Readings, Weighted;
    ReadingsTick(w, ev, sp, tp);
    TimesOrdered(ev);
    cl, wt := Readings(w, ev), AllWeighted(w, Times(ev));
    forall i | 0 <= i < |w| && sp[i] < tp[i] ensures wt[i] == cl[tp[i] + 1] - cl[sp[i] + 1] {
      PaidIsWeighted(w, ev, i, sp[i], tp[i]);
    }
  }

  /** What holds of the sweep's variables after the first m events, where cl holds the
      clock readings and paid the weighted durations handed out so far. */
  ghost predicate Swept(w: seq<Span>, ev: seq<Event>, sp: seq<nat>, tp: seq<nat>, cl: seq<real>, m: nat,
                        running: map<nat, real>, paid: seq<real>)
  {
    && Placed(w, ev, sp, tp) && m <= |ev| && |paid| == |w| && |cl| == |ev| + 1
    && running.Keys == Running(sp, tp, m)
    && (forall i :: i in running ==> running[i] == cl[sp[i] + 1])
    && Matched(sp, tp, m)
    && (forall i :: 0 <= i < |w| ==> paid[i] == if tp[i] < m then cl[tp[i] + 1] - cl[sp[i] + 1] else 0.0)
  }

  lemma SweptNothing(w: seq<Span>, ev: seq<Event>, sp: seq<nat>, tp: seq<nat>, cl: seq<real>)
    requires Placed(w, ev, sp, tp) && Ticks(ev, sp, tp, cl)
    ensures |sp| == |tp| == |w|
    ensures
      var none := seq(|w|, _ => 0.0);
      |cl| == |ev| + 1 && cl[0] == 0.0 && Swept(w, ev, sp, tp, cl, 0, map[], none) && Sum(none) == 0.0
  {
    SumZero(seq(|w|, _ => 0.0));
  }

  lemma NextReading(w: seq<Span>, ev: seq<Event>, sp: seq<nat>, tp: seq<nat>, cl: seq<real>, m: nat,
                    running: map<nat, real>, paid: seq<real>, lastTime: real)
    requires m < |ev| && Swept(w, ev, sp, tp, cl, m, running, paid) && Ticks(ev, sp, tp, cl)
    requires m > 0 ==> lastTime == ev[m - 1].time
    ensures cl[m + 1] == if |running| == 0 then cl[m] else cl[m] + Part(ev[m].time - lastTime, |running|)
  {
    assert cl[m + 1] == cl[m] + Advance(ev, sp, tp, m);
    assert |running.Keys| == |running|;
    if m == 0 { assert Running(sp, tp, 0) == {}; }
  }

  lemma SweptStart(w: seq<Span>, ev: seq<Event>, sp: seq<nat>, tp: seq<nat>, cl: seq<real>, m: nat,
                   running: map<nat, real>, paid: seq<real>)
    requires m < |ev| && Swept(w, ev, sp, tp, cl, m, running, paid) && !ev[m].stop
    ensures Swept(w, ev, sp, tp, cl, m + 1, running[ev[m].task := cl[m + 1]], paid)
    ensures forall i :: 0 <= i < |w| ==> tp[i] != m
  {
    var i := ev[m].task;
    assert sp[i] == m;
    assert forall j :: 0 <= j < |w| && tp[j] == m ==> ev[m].stop;
    assert forall j :: 0 <= j < |w| && sp[j] == m ==> ev[m].task == j;
  }

  lemma SweptStop(w: seq<Span>, ev: seq<Event>, sp: seq<nat>, tp: seq<nat>, cl: seq<real>, m: nat,
                  running: map<nat, real>, paid: seq<real>)
    requires m < |ev| && Swept(w, ev, sp, tp, cl, m, running, paid) && ev[m].stop && ev[m].task in running
    ensures Swept(w, ev, sp, tp, cl, m + 1, running - {ev[m].task},
                  paid[ev[m].task := cl[m + 1] - running[ev[m].task]])
    ensures ev[m].task < |w| && paid[ev[m].task] == 0.0
    ensures forall i :: 0 <= i < |w| && tp[i] == m ==> i == ev[m].task
  {
    var i := ev[m].task;
    assert tp[i] == m;
    assert forall j :: 0 <= j < |w| && sp[j] == m ==> !ev[m].stop;
    assert forall j :: 0 <= j < |w| && tp[j] == m ==> ev[m].task == j;
  }

  /** A stop without a start mark belongs to a task that ends before it starts. */
  lemma Unmarked(w: seq<Span>, ev: seq<Event>, sp: seq<nat>, tp: seq<nat>, cl: seq<real>, m: nat,
                 running: map<nat, real>, paid: seq<real>)
    requires m < |ev| && Swept(w, ev, sp, tp, cl, m, running, paid) && ev[m].stop && ev[m].task !in running
    requires StartsFirst(w, sp, tp)
    ensures !Forward(w)
  {
    var i := ev[m].task;
    assert w[i].start > w[i].end;
  }

  lemma SweptEverything(w: seq<Span>, ev: seq<Event>, sp: seq<nat>, tp: seq<nat>, cl: seq<real>,
                        running: map<nat, real>, paid: seq<real>)
    requires Swept(w, ev, sp, tp, cl, |ev|, running, paid)
    ensures running == map[] && forall i :: 0 <= i < |w| ==> tp[i] < |ev|
  {
    assert running.Keys == {};
  }

  datatype Outcome = Started | Stopped(weighted: real) | NoStartMark

  /** One event: advance the clock, then mark the start or settle the stop. */
  method HandleEvent(ev: seq<Event>, m: nat, running: map<nat, real>, lastTime: real, lastWeighted: real,
                     ghost w: seq<Span>, ghost sp: seq<nat>, ghost tp: seq<nat>, ghost cl: seq<real>,
                     ghost paid: seq<real>)
    returns (outcome: Outcome, running': map<nat, real>, lastWeighted': real)
    requires m < |ev| && Swept(w, ev, sp, tp, cl, m, running, paid)
    requires StartsFirst(w, sp, tp) && Ticks(ev, sp, tp, cl)
    requires lastWeighted == cl[m] && (m > 0 ==> lastTime == ev[m - 1].time)
    ensures outcome.NoStartMark? ==> !Forward(w)
    ensures !outcome.NoStartMark? ==> lastWeighted' == cl[m + 1]
    ensures outcome.Started? ==> Swept(w, ev, sp, tp, cl, m + 1, running', paid)
    ensures outcome.Started? ==> forall i :: 0 <= i < |w| ==> tp[i] != m
    ensures outcome.Stopped? ==>
              && ev[m].task < |w| && paid[ev[m].task] == 0.0
              && Swept(w, ev, sp, tp, cl, m + 1, running', paid[ev[m].task := outcome.weighted])
              && forall i :: 0 <= i < |w| && tp[i] == m ==> i == ev[m].task
  {
    hide *;
    NextReading(w, ev, sp, tp, cl, m, running, paid, lastTime);
    var e := ev[m];
    running', lastWeighted' := running, lastWeighted;
    var numRunning := |running|;
    if numRunning > 0 {
      var share := Divide(e.time - lastTime, numRunning);
      lastWeighted' := lastWeighted + share;
    }
    if !e.stop {
      SweptStart(w, ev, sp, tp, cl, m, running, paid);
      running' := running[e.task := lastWeighted'];
      outcome := Started;
    } else if e.task !in running {
      Unmarked(w, ev, sp, tp, cl, m, running, paid);
      outcome := NoStartMark;
    } else {
      SweptStop(w, ev, sp, tp, cl, m, running, paid);
      running' := running - {e.task};
      outcome := Stopped(lastWeighted' - running[e.task]);
    }
  }

  /** One pass over the events: the loop of SummarizeEntries.  ok is false where the
      source stops with a KeyError, at the stop of a task that has no start mark.
      Every stop pays the difference of two readings of the clock. */
  method Sweep(entries: seq<Target>, ev: seq<Event>,
               ghost w: seq<Span>, ghost sp: seq<nat>, ghost tp: seq<nat>, ghost cl: seq<real>)
    returns (ok: bool, weightedTotal: real, ghost paid: seq<real>)
    requires |w| == |entries| && Placed(w, ev, sp, tp) && StartsFirst(w, sp, tp)
    requires ev != [] && Ticks(ev, sp, tp, cl)
    requires forall j, k :: 0 <= j < k < |entries| ==> entries[j] != entries[k]
    modifies entries`weightedDuration
    ensures !ok ==> !Forward(w)
    ensures ok ==> Swept(w, ev, sp, tp, cl, |ev|, map[], paid)
    ensures ok ==> weightedTotal == Sum(paid)
    ensures ok ==> forall i :: 0 <= i < |entries| ==> entries[i].weightedDuration == paid[i]
  {
    hide *;
    SweptNothing(w, ev, sp, tp, cl);
    var running: map<nat, real> := map[];
    var lastTime, lastWeighted := ev[0].time, 0.0;
    ok, weightedTotal, paid := true, 0.0, seq(|w|, _ => 0.0);
    for m := 0 to |ev|
      invariant m > 0 ==> lastTime == ev[m - 1].time
      invariant lastWeighted == cl[m]
      invariant Swept(w, ev, sp, tp, cl, m, running, paid)
      invariant |paid| == |w| && weightedTotal == Sum(paid)
      invariant forall i {:trigger entries[i]} :: 0 <= i < |w| && tp[i] < m ==> entries[i].weightedDuration == paid[i]
    {
      var outcome;
      outcome, running, lastWeighted := HandleEvent(ev, m, running, lastTime, lastWeighted, w, sp, tp, cl, paid);
      match outcome {
        case NoStartMark => return false, weightedTotal, paid;
        case Started =>
        case Stopped(weighted) =>
          var t := ev[m].task;
          entries[t].weightedDuration := weighted;
          weightedTotal := weightedTotal + weighted;
          SumUpdate(paid, t, weighted);
          paid := paid[t := weighted];
      }
      lastTime := ev[m].time;
    }
    SweptEverything(w, ev, sp, tp, cl, running, paid);
  }

  function Durations(w: seq<Span>, n: nat): (r: seq<real>)
    requires n <= |w|
    ensures |r| == n && forall i :: 0 <= i < n ==> r[i] == w[i].end - w[i].start
  {
    seq(n, i requires 0 <= i < n => w[i].end - w[i].start)
  }

  /** The first loop of SummarizeEntries. */
  method CollectEvents(entries: seq<Target>)
    returns (raw: seq<Event>, earliest: real, latest: real, totalCpuTime: real)
    requires entries != []
    ensures raw == RawEvents(Spans(entries), |entries|)
    ensures totalCpuTime == Sum(Durations(Spans(entries), |entries|))
    ensures (forall i :: 0 <= i < |entries| ==> 0.0 <= entries[i].start <= entries[i].end) ==>
              Extent(Spans(entries), earliest, latest)
  {
    ghost var w := Spans(entries);
    raw, earliest, latest, totalCpuTime := [], -1.0, 0.0, 0.0;
    for n := 0 to |entries|
      invariant raw == RawEvents(w, n) && totalCpuTime == Sum(Durations(w, n))
      invariant n == 0 ==> earliest == -1.0
      invariant n > 0 ==> earliest < 0.0 || exists i :: 0 <= i < n && w[i].start == earliest
      invariant latest == 0.0 || exists i :: 0 <= i < n && w[i].end == latest
      invariant 0.0 <= latest && forall i :: 0 <= i < n ==> w[i].end <= latest
      invariant (forall i :: 0 <= i < n ==> 0.0 <= w[i].start) && n > 0 ==>
                  0.0 <= earliest && forall i :: 0 <= i < n ==> earliest <= w[i].start
    {
      var t := entries[n];
      assert w[n] == Span(t.start, t.end);
      if earliest < 0.0 || t.start < earliest { earliest := t.start; }
      if t.end > latest { latest := t.end; }
      assert Durations(w, n + 1)[..n] == Durations(w, n);
      totalCpuTime := totalCpuTime + (t.end - t.start);
      raw := raw + [Event(t.start, false, n), Event(t.end, true, n)];
    }
    if forall i :: 0 <= i < |w| ==> 0.0 <= w[i].start <= w[i].end {
      if latest == 0.0 { assert w[0].end == latest; }
    }
  }

  lemma PaidEverywhere(w: seq<Span>, ev: seq<Event>, sp: seq<nat>, tp: seq<nat>, cl: seq<real>,
                       wt: seq<real>, paid: seq<real>)
    requires Swept(w, ev, sp, tp, cl, |ev|, map[], paid) && StartsFirst(w, sp, tp) && |wt| == |w|
    requires forall i :: 0 <= i < |w| && sp[i] < tp[i] ==> wt[i] == cl[tp[i] + 1] - cl[sp[i] + 1]
    ensures paid == wt && Forward(w)
  {
  }

  lemma AnyGrid(w: seq<Span>, ev: seq<Event>, sp: seq<nat>, tp: seq<nat>, wt: seq<real>)
    requires Schedule(w, ev, sp, tp) && wt == AllWeighted(w, Times(ev))
    ensures |wt| == |w|
    ensures forall ts, i :: Grid(w, ts) && 0 <= i < |w| ==> wt[i] == Weighted(w, ts, i)
    ensures forall ts :: Grid(w, ts) ==> Sum(wt) == Busy(w, ts)
  {
    ScheduleGrid(w, ev, sp, tp);
    WeightedSumIsBusy(w, Times(ev));
    hide Grid, Weighted, Busy, Schedule;
    forall ts, i: nat | Grid(w, ts)
      ensures Weighted(w, ts, i) == Weighted(w, Times(ev), i) && Busy(w, ts) == Busy(w, Times(ev))
    {
      GridIndependent(w, ts, Times(ev), i);
    }
    forall ts | Grid(w, ts) ensures Sum(wt) == Busy(w, ts) {
      GridIndependent(w, ts, Times(ev), 0);
    }
  }

  /** The length of the build against its weighted total. */
  lemma LengthCovered(w: seq<Span>, ev: seq<Event>, sp: seq<nat>, tp: seq<nat>, lo: real, hi: real, total: real)
    requires Schedule(w, ev, sp, tp) && Extent(w, lo, hi) && Forward(w)
    requires forall ts :: Grid(w, ts) ==> total == Busy(w, ts)
    ensures NoIdle(w, lo, hi) ==> total == hi - lo
  {
    ScheduleGrid(w, ev, sp, tp);
    if NoIdle(w, lo, hi) {
      var i :| 0 <= i < |w| && w[i].start == lo;
      assert lo <= w[i].end <= hi;
      NoIdleBusy(w, Times(ev), lo, hi);
    }
  }

  /** The computed values of SummarizeEntries.  The weighted durations and their total are
      the ones defined on the intervals, on any grid; the pass fails exactly when some step
      ends before it starts. */
  method SummarizeEntries(entries: seq<Target>)
    returns (ok: bool, length: real, totalCpuTime: real, weightedTotal: real)
    requires entries != []
    requires forall j, k :: 0 <= j < k < |entries| ==> entries[j] != entries[k]
    modifies entries`weightedDuration
    ensures ok <==> Forward(Spans(entries))
    ensures ok ==> forall ts, i :: Grid(Spans(entries), ts) && 0 <= i < |entries| ==>
                                     entries[i].weightedDuration == Weighted(Spans(entries), ts, i)
    ensures ok ==> forall ts :: Grid(Spans(entries), ts) ==> weightedTotal == Busy(Spans(entries), ts)
    ensures totalCpuTime == Sum(Durations(Spans(entries), |entries|))
    ensures ok && (forall i :: 0 <= i < |entries| ==> 0.0 <= entries[i].start) ==>
              exists lo, hi :: Extent(Spans(entries), lo, hi) && length == hi - lo &&
                               (NoIdle(Spans(entries), lo, hi) ==> weightedTotal == length)
  {
    hide *;
    ghost var w := Spans(entries);
    var raw, earliest, latest, cpu := CollectEvents(entries);
    length, totalCpuTime := latest - earliest, cpu;
    var ev := SortEvents(raw);
    ghost var sp, tp := SortedEventsSchedule(w, ev);
    ScheduleStartsFirst(w, ev, sp, tp);
    ghost var cl, wt := ClockReadings(w, ev, sp, tp);
    AnyGrid(w, ev, sp, tp, wt);
    ghost var paid;
    ok, weightedTotal, paid := Sweep(entries, ev, w, sp, tp, cl);
    if ok {
      PaidEverywhere(w, ev, sp, tp, cl, wt, paid);
      if forall i :: 0 <= i < |entries| ==> 0.0 <= entries[i].start {
        LengthCovered(w, ev, sp, tp, earliest, latest, weightedTotal);
      }
    }
  }
}
