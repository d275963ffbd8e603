/** The vacating of a super-block: how far it has come and what it leaves behind. */
module VacateSteps {
  import opened Recency
  import opened PoolState
  import opened PoolSteps
  import opened PoolQueries
  import opened PoolFacts
  import opened VacatePlan

  ghost function StepsOf(l: seq<Entry>, pp: seq<nat>): (ws: seq<nat>)
    ensures |ws| == |pp|
  {
    seq(|pp|, j requires 0 <= j < |pp| => if StepOf(l, pp[j]) >= 0 then StepOf(l, pp[j]) else 0)
  }

  /** Between two points of a vacating only hashes, recency and free pages' bytes change. */
  ghost predicate Vacating(c: Config, p0: Pool, p: Pool, killed: set<nat>, moved: map<nat, nat>) {
    && Inv(c, p0, {}) && Inv(c, p, {})
    && p == p0.(hashOf := p.hashOf, cache := p.cache, lru := p.lru, mem := p.mem)
    && Progress(p0.lru, p0.hashOf, p.lru, p.hashOf, killed, moved)
    && SameLiveBytes(p0, p.mem)
  }

  /** What vacating a super-block leaves behind: none of its pages is cached, the surviving
      prefixes keep their hashes, order and steps, and no live page is written. */
  ghost predicate Vacated(c: Config, p: Pool, q: Pool, s: nat, killed: set<nat>, moved: map<nat, nat>)
    requires c.F > 0
  {
    && q == p.(hashOf := q.hashOf, cache := q.cache, lru := q.lru, mem := q.mem)
    && (forall x: nat :: x < c.pages && Sb(c, x) == s ==> x !in q.hashOf)
    && Progress(p.lru, p.hashOf, q.lru, q.hashOf, killed, moved)
    && SameLiveBytes(p, q.mem)
  }

  /** A cached page that vacating super-block s may kill. */
  ghost predicate AtRisk(c: Config, p: Pool, s: nat, e: Entry)
    requires c.F > 0
  {
    e in p.lru && (Sb(c, e.key) == s || !Pinned(p.layers, Sb(c, e.key)))
  }

  /** Of all pages at risk the coldest die, and only as many as found no free hole. */
  ghost predicate ColdestKilled(c: Config, p: Pool, s: nat, killed: set<nat>)
    requires c.F > 0
  {
    var n := |Cached(c, p, s)|;
    && (forall u, v :: AtRisk(c, p, s, u) && AtRisk(c, p, s, v) && u.key in killed && v.key !in killed ==>
         u.step <= v.step)
    && |killed| == n - Min(n, |Holes(c, p, s)|)
  }

  /** Warmest first, and pages of the same step in page order. */
  ghost predicate Served(l: seq<Entry>, pp: seq<nat>) {
    forall j, k :: 0 <= j < k < |pp| ==>
      StepOf(l, pp[j]) > StepOf(l, pp[k]) || (StepOf(l, pp[j]) == StepOf(l, pp[k]) && pp[j] < pp[k])
  }

  /** Who goes where: the cached pages of s are served in turn, with the holes outside s in the
      order of the queue and then the displaceable pages, coldest first. */
  ghost predicate Rehomed(c: Config, p: Pool, s: nat, pp: seq<nat>, m: nat, killed: set<nat>, moved: map<nat, nat>)
    requires c.F > 0
  {
    && Served(p.lru, pp) && (forall x :: x in pp <==> x in Cached(c, p, s))
    && Exchanged(pp, StepsOf(p.lru, pp), Holes(c, p, s), Displaceables(c, p, s), m, killed, moved)
  }

  ghost predicate Relocated(c: Config, p: Pool, s: nat, killed: set<nat>, moved: map<nat, nat>)
    requires c.F > 0
  {
    exists pp, m :: Rehomed(c, p, s, pp, m, killed, moved)
  }

  /** The cached pages of a super-block. */
  ghost function Cached(c: Config, p: Pool, s: nat): set<nat>
    requires c.F > 0
  {
    set x | x in p.hashOf && x < c.pages && Sb(c, x) == s
  }

  /** The pages to vacate with their steps, the holes and the displaceable pages, as collected. */
  ghost predicate Staged(c: Config, p: Pool, s: nat, pp: seq<nat>, ws: seq<nat>, holes: seq<nat>, cold: seq<Entry>)
  {
    && c.F > 0 && Layout(pp, holes, cold, p.hashOf) && |ws| == |pp| && |holes| <= |pp|
    && (forall j :: 0 <= j < |pp| ==> pp[j] in Keys(p.lru) && Sb(c, pp[j]) == s && ws[j] == StepOf(p.lru, pp[j]))
    && (forall j :: 0 <= j < |holes| ==> holes[j] in p.queue && Sb(c, holes[j]) !in p.holder && Sb(c, holes[j]) != s)
    && (forall j :: 0 <= j < |cold| ==> cold[j] in p.lru && Sb(c, cold[j].key) != s)
  }

  lemma EmptyStage(c: Config, p: Pool, s: nat)
    requires Inv(c, p, {})
    ensures Staged(c, p, s, [], [], [], [])
  {
  }

  lemma StepOfPresent(l: seq<Entry>, x: nat)
    requires x in Keys(l)
    ensures StepOf(l, x) >= 0
  {
    FindPresent(l, x);
  }

  lemma StagedFrom(c: Config, p: Pool, s: nat, pp: seq<nat>, ws: seq<nat>, holes: seq<nat>, cold: seq<Entry>)
    requires Inv(c, p, {}) && ws == StepsOf(p.lru, pp)
    requires forall x: nat :: x in pp <==> x < c.pages && Sb(c, x) == s && x in p.hashOf
    requires forall j, k :: 0 <= j < k < |pp| ==> pp[j] != pp[k]
    requires forall x: nat :: x < c.pages && Sb(c, x) == s ==> x in p.queue
    requires holes == Holes(c, p, s)[..Min(|pp|, |Holes(c, p, s)|)]
    requires cold == Displaceables(c, p, s)[..Min(|pp|, |Displaceables(c, p, s)|)]
    ensures Staged(c, p, s, pp, ws, holes, cold) && Layout(pp, holes, Displaceables(c, p, s), p.hashOf)
  {
    hide Inv, Sb, Keys, StepOf, Pinned, Filter;
    Positive(c, p, {});
    var all := Displaceables(c, p, s);
    HolesFacts(c, p, s, {});
    DisplaceablesFacts(c, p, s, {});
    forall j | 0 <= j < |pp|
      ensures pp[j] in Keys(p.lru) && Sb(c, pp[j]) == s && ws[j] == StepOf(p.lru, pp[j]) && pp[j] in p.hashOf
    {
      assert pp[j] in pp;
      QueuedHashed(c, p, pp[j]);
      StepOfPresent(p.lru, pp[j]);
    }
    forall j | 0 <= j < |all| ensures all[j].key in p.hashOf && all[j] in p.lru && Sb(c, all[j].key) != s {
      InKeys(p.lru, all[j]);
      LruPages(c, p, all[j].key, {});
    }
    hide Holes, Displaceables;
  }

  /** After the last page nothing of the super-block is cached. */
  lemma VacatedFrom(c: Config, p0: Pool, p: Pool, s: nat, pp: seq<nat>, ws: seq<nat>, holes: seq<nat>, cold: seq<Entry>,
                    t: nat, stopped: bool, killed: set<nat>, moved: map<nat, nat>)
    requires Vacating(c, p0, p, killed, moved) && Staged(c, p0, s, pp, ws, holes, cold)
    requires Plan(pp, ws, holes, cold, |pp|, t, stopped, killed, moved)
    requires forall x: nat :: x in pp <==> x < c.pages && Sb(c, x) == s && x in p0.hashOf
    ensures Vacated(c, p0, p, s, killed, moved)
  {
    hide Inv, Sb, Keys, StepOf, SameLiveBytes, Distinct, Survive;
    forall x: nat | x < c.pages && x in p.hashOf ensures Sb(c, x) != s {
      if x in moved.Values {
        var y :| y in moved && moved[y] == x;
      }
    }
  }

  lemma EvictedFrom(c: Config, p0: Pool, p: Pool, s: nat, pages: seq<nat>, killed: set<nat>)
    requires Vacating(c, p0, p, killed, map[]) && c.F > 0
    requires forall x: nat :: x in pages <==> x < c.pages && Sb(c, x) == s && x in p0.hashOf
    requires forall x :: x in killed <==> x in pages
    ensures Vacated(c, p0, p, s, killed, map[])
  {
    hide Inv, Sb, Keys, SameLiveBytes, Survive;
  }

  lemma ColdestFrom(c: Config, p: Pool, s: nat, pp: seq<nat>, ws: seq<nat>, holes: seq<nat>, cold: seq<Entry>,
                    t: nat, stopped: bool, killed: set<nat>, moved: map<nat, nat>)
    requires Inv(c, p, {}) && Staged(c, p, s, pp, ws, holes, cold) && WarmestFirst(p.lru, pp)
    requires Plan(pp, ws, holes, cold, |pp|, t, stopped, killed, moved)
    requires forall x: nat :: x in pp <==> x < c.pages && Sb(c, x) == s && x in p.hashOf
    requires holes == Holes(c, p, s)[..Min(|pp|, |Holes(c, p, s)|)]
    requires cold == Displaceables(c, p, s)[..Min(|pp|, |Displaceables(c, p, s)|)]
    requires Layout(pp, holes, Displaceables(c, p, s), p.hashOf)
    ensures ColdestKilled(c, p, s, killed)
  {
    hide Inv, Sb, Keys, StepOf, Pinned, Filter, Holes, Displaceables, Plan, Distinct;
    var all := Displaceables(c, p, s);
    DisplaceablesFacts(c, p, s, {});
    assert forall x, y :: 0 <= x < y < |ws| ==> ws[x] >= ws[y];
    forall u, v | AtRisk(c, p, s, u) && AtRisk(c, p, s, v) && u.key in killed && v.key !in killed
        ensures u.step <= v.step {
      RiskIsStake(c, p, s, pp, ws, u);
      RiskIsStake(c, p, s, pp, ws, v);
      KilledAreColdest(pp, ws, holes, cold, all, p.hashOf, t, stopped, killed, moved, u, v);
    }
    KilledCount(pp, ws, holes, cold, p.hashOf, t, stopped, killed, moved);
    AmongSize(pp, 0, |pp|);
    assert Cached(c, p, s) == Among(pp, 0, |pp|);
  }

  lemma RehomedFrom(c: Config, p: Pool, s: nat, pp: seq<nat>, holes: seq<nat>, cold: seq<Entry>,
                    t: nat, stopped: bool, killed: set<nat>, moved: map<nat, nat>)
    requires c.F > 0 && Served(p.lru, pp)
    requires Plan(pp, StepsOf(p.lru, pp), holes, cold, |pp|, t, stopped, killed, moved)
    requires forall x: nat :: x in pp <==> x < c.pages && Sb(c, x) == s && x in p.hashOf
    requires holes == Holes(c, p, s)[..Min(|pp|, |Holes(c, p, s)|)]
    requires cold == Displaceables(c, p, s)[..Min(|pp|, |Displaceables(c, p, s)|)]
    ensures Relocated(c, p, s, killed, moved)
  {
    hide Sb, StepsOf, Holes, Displaceables, Served, Plan, Exchanged;
    var m := if stopped then |holes| + t else |pp|;
    PlanDone(pp, StepsOf(p.lru, pp), holes, cold, Holes(c, p, s), Displaceables(c, p, s), t, stopped, killed, moved);
    assert Rehomed(c, p, s, pp, m, killed, moved);
  }

  /** Pages of pinned super-blocks are safe: none of them dies or is written, and nothing moves
      into the super-block that is vacated. */
  lemma PinnedAreSafe(c: Config, p: Pool, s: nat, killed: set<nat>, moved: map<nat, nat>, x: nat)
    requires c.F > 0 && Relocated(c, p, s, killed, moved)
    ensures x in killed && Sb(c, x) != s ==> !Pinned(p.layers, Sb(c, x))
    ensures x in moved.Values ==> Sb(c, x) != s && !Pinned(p.layers, Sb(c, x)) && (x in p.queue || x in killed)
    ensures x in moved.Keys ==> Sb(c, x) == s && x in p.hashOf && x !in killed
  {
    hide Sb, Pinned, Filter, Served, StepsOf;
    var pp, m :| Rehomed(c, p, s, pp, m, killed, moved);
    var (holes, cold) := (Holes(c, p, s), Displaceables(c, p, s));
    FilterMembers(p.queue, HoleOutside(c, p, s));
    FilterMembers(p.lru, DisplaceableOutside(c, p, s));
    forall j | 0 <= j < |holes| ensures holes[j] in p.queue && HoleOutside(c, p, s)(holes[j]) {
      assert holes[j] in holes;
    }
    forall j | 0 <= j < |cold| ensures DisplaceableOutside(c, p, s)(cold[j]) {
      assert cold[j] in cold;
    }
    forall j | 0 <= j < |pp| ensures pp[j] in Cached(c, p, s) {
      assert pp[j] in pp;
    }
    ServedOnce(p.lru, pp);
  }

  lemma ServedOnce(l: seq<Entry>, pp: seq<nat>)
    requires Served(l, pp)
    ensures forall j, k :: 0 <= j < k < |pp| ==> pp[j] != pp[k]
  {
    hide StepOf;
  }

  lemma {:induction false} SortIsServed(l: seq<Entry>, pages: seq<nat>)
    requires forall j, k :: 0 <= j < k < |pages| ==> pages[j] < pages[k]
    ensures Served(l, SortWarm(l, pages))
  {
    hide StepOf, InsertWarm;
    if pages != [] {
      var n := |pages| - 1;
      SortIsServed(l, pages[..n]);
      SamePages(pages[..n], SortWarm(l, pages[..n]));
      forall k | 0 <= k < n ensures SortWarm(l, pages[..n])[k] < pages[n] {
        assert SortWarm(l, pages[..n])[k] in pages[..n];
      }
      InsertIsServed(l, SortWarm(l, pages[..n]), pages[n]);
    }
  }

  lemma {:induction false} InsertIsServed(l: seq<Entry>, pp: seq<nat>, x: nat)
    requires WarmestFirst(l, pp) && Served(l, pp) && forall k :: 0 <= k < |pp| ==> pp[k] < x
    ensures Served(l, InsertWarm(l, pp, x))
  {
    hide StepOf;
    if pp != [] && StepOf(l, pp[|pp| - 1]) < StepOf(l, x) {
      var (front, z) := (pp[..|pp| - 1], pp[|pp| - 1]);
      InsertIsServed(l, front, x);
      var r := InsertWarm(l, front, x);
      forall k | 0 <= k < |r| ensures StepOf(l, r[k]) > StepOf(l, z) || (StepOf(l, r[k]) == StepOf(l, z) && r[k] < z) {
        assert r[k] in multiset(r);
        assert r[k] in multiset(front) || r[k] == x;
      }
    }
  }

  lemma RiskIsStake(c: Config, p: Pool, s: nat, pp: seq<nat>, ws: seq<nat>, e: Entry)
    requires Inv(c, p, {}) && AtRisk(c, p, s, e) && |ws| == |pp|
    requires forall j :: 0 <= j < |pp| ==> ws[j] == StepOf(p.lru, pp[j])
    requires forall x: nat :: x in pp <==> x < c.pages && Sb(c, x) == s && x in p.hashOf
    ensures AtStake(pp, ws, Displaceables(c, p, s), e)
  {
    hide Inv, Sb, Keys, Pinned, Filter;
    InKeys(p.lru, e);
    LruPages(c, p, e.key, {});
    if Sb(c, e.key) == s {
      var j :| 0 <= j < |pp| && pp[j] == e.key;
      var k :| 0 <= k < |p.lru| && p.lru[k] == e;
      FindUnique(p.lru, k);
      assert e == Entry(pp[j], ws[j]);
    } else {
      FilterMembers(p.lru, DisplaceableOutside(c, p, s));
    }
  }

  lemma StagedStart(c: Config, p: Pool, s: nat, pp: seq<nat>, ws: seq<nat>, holes: seq<nat>, cold: seq<Entry>)
    requires Inv(c, p, {}) && Staged(c, p, s, pp, ws, holes, cold)
    ensures Vacating(c, p, p, {}, map[]) && Plan(pp, ws, holes, cold, 0, 0, false, {}, map[])
  {
    hide Inv;
    PlanStart(pp, ws, holes, cold);
    forall e | e in p.lru ensures e.key in p.hashOf {
      LruPages(c, p, e.key, {});
    }
    ProgressStart(p.lru, p.hashOf);
  }

  lemma StandingStep(l0: seq<Entry>, h0: map<nat, nat>, lru: seq<Entry>, hashOf: map<nat, nat>,
                     killed: set<nat>, moved: map<nat, nat>, x: nat)
    requires Progress(l0, h0, lru, hashOf, killed, moved) && x in Keys(l0) && x !in killed && x !in moved
    requires Distinct(l0) && Distinct(lru)
    ensures StepOf(lru, x) == StepOf(l0, x) && x in hashOf
  {
    hide Progress, Without;
    var k := Standing(l0, h0, lru, hashOf, killed, moved, x);
    var j :| 0 <= j < |l0| && l0[j] == lru[k];
    FindUnique(l0, j);
    FindUnique(lru, k);
  }

  /** What the loop needs to know about page i, the hole at hand and the next candidate. */
  lemma StagedPage(c: Config, p0: Pool, p: Pool, s: nat, pp: seq<nat>, ws: seq<nat>, holes: seq<nat>, cold: seq<Entry>,
                   i: nat, t: nat, stopped: bool, killed: set<nat>, moved: map<nat, nat>)
    requires Vacating(c, p0, p, killed, moved) && Staged(c, p0, s, pp, ws, holes, cold) && i < |pp|
    requires Plan(pp, ws, holes, cold, i, t, stopped, killed, moved)
    ensures pp[i] in Keys(p0.lru) && pp[i] !in killed && pp[i] !in moved && StepOf(p.lru, pp[i]) == ws[i]
    ensures i < |holes| ==>
              var d := holes[i];
              d in p.queue && d !in p.hashOf && d !in p0.hashOf && Sb(c, d) !in p.holder && !stopped
    ensures !stopped && t < |cold| ==>
              var v := cold[t].key;
              v in Keys(p0.lru) && v !in killed && v !in moved && v in p.queue && Sb(c, v) !in p.holder && v != pp[i]
    ensures t <= |cold|
  {
    hide Inv, Keys, Distinct, Sb, StepOf, SameLiveBytes;
    Untouched(pp, ws, holes, cold, p0.hashOf, i, t, stopped, killed, moved);
    LruPages(c, p0, pp[i], {});
    DistinctLru(c, p);
    StandingStep(p0.lru, p0.hashOf, p.lru, p.hashOf, killed, moved, pp[i]);
    if !stopped && t < |cold| {
      InKeys(p0.lru, cold[t]);
      LruPages(c, p0, cold[t].key, {});
    }
  }

  lemma MoveReady(c: Config, p0: Pool, p: Pool, killed: set<nat>, moved: map<nat, nat>, x: nat, d: nat)
    requires Vacating(c, p0, p, killed, moved)
    requires x in Keys(p0.lru) && x !in killed && x !in moved && d in p.queue
    ensures x in p.hashOf && x in p.queue && 0 < d < c.pages && 0 < x < c.pages
    ensures c.F > 0 && forall b :: 0 <= b < |p.mem| ==> |p.mem[b]| == c.pages
  {
    LruPages(c, p0, x, {});
    QueuePages(c, p, d, {});
    hide LruOk, LayersOk, HolderOk, ExpertBytes, Sb, CacheOk, Exclusive, QueueOk, Keys;
    var k := Standing(p0.lru, p0.hashOf, p.lru, p.hashOf, killed, moved, x);
  }

  lemma Moved(c: Config, p0: Pool, p: Pool, q: Pool, killed: set<nat>, moved: map<nat, nat>, x: nat, d: nat)
    requires Vacating(c, p0, p, killed, moved) && Inv(c, q, {})
    requires x in Keys(p0.lru) && x !in killed && x !in moved && x in p.hashOf
    requires d in p.queue && d !in p.hashOf && (d in p0.hashOf ==> d in killed)
    requires forall b :: 0 <= b < |p.mem| ==> x < |p.mem[b]| && d < |p.mem[b]|
    requires q == Relocate(p, x, d)
    ensures Vacating(c, p0, q, killed, moved[x := d])
  {
    hide Inv, Distinct, Keys, CacheInsert, CacheRemove, Rename, Progress, SameLiveBytes, CopyPage;
    LruPages(c, p0, x, {});
    DistinctLru(c, p);
    ProgressMove(p0.lru, p0.hashOf, p.lru, p.hashOf, killed, moved, x, d, p.step);
    CopyLive(p0, p.mem, x, d);
  }

  lemma CopyLive(p0: Pool, mem: seq<seq<Bytes>>, x: nat, d: nat)
    requires SameLiveBytes(p0, mem) && d in p0.queue
    requires forall b :: 0 <= b < |mem| ==> x < |mem[b]| && d < |mem[b]|
    ensures SameLiveBytes(p0, CopyPage(mem, x, d))
  {
  }

  lemma Killed(c: Config, p0: Pool, p: Pool, q: Pool, killed: set<nat>, moved: map<nat, nat>, x: nat)
    requires Vacating(c, p0, p, killed, moved) && Inv(c, q, {})
    requires x in Keys(p0.lru) && x !in killed && x !in moved
    requires q == EvictHash(p, x)
    ensures Vacating(c, p0, q, killed + {x}, moved) && x !in q.hashOf
  {
    hide Inv, Distinct, Keys, CacheRemove, Remove, Progress, SameLiveBytes;
    LruPages(c, p0, x, {});
    DistinctLru(c, p);
    var k := Standing(p0.lru, p0.hashOf, p.lru, p.hashOf, killed, moved, x);
    ProgressEvict(p0.lru, p0.hashOf, p.lru, p.hashOf, killed, moved, x);
  }
}
