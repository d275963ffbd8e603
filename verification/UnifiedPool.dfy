/**
  The unified pool of fused_moe/unified_pool.py: per-layer expert maps, the manager
  that shares every buffer between experts and KV pages, and the parts of BlockPool
  (v1/core/block_pool.py) that call into it.
 */
module UnifiedPool {
  import opened Recency
  import opened PoolState
  import opened PoolSteps
  import opened PoolQueries
  import opened PoolFacts
  import opened VacatePlan
  import opened VacateSteps
  import opened ExpertRoom
  import opened ExpertLoad
  import opened LoadTrace
  import opened PoolFrames
  import opened KvVictim
  import opened BlockOps
  import opened Freeing
  import opened PoolOps

  /** One layer's expert maps, recency list, device table and pins. */
  class LayerPool {
    var expertAt: map<nat, nat>
    var sbAt: map<nat, nat>
    var table: seq<int>
    var lru: seq<Entry>
    var pinned: set<nat>

    ghost function View(): Layer
      reads this
    {
      Layer(expertAt, sbAt, table, lru, pinned)
    }

    constructor (experts: nat)
      ensures View() == EmptyLayer(experts)
    {
      expertAt, sbAt, table, lru, pinned := map[], map[], seq(experts, _ => UNLOADED), [], {};
    }

    method Assign(s: nat, e: nat, step: nat)
      requires s !in expertAt && e !in sbAt && e < |table|
      modifies this
      ensures View() == AssignExpert(old(View()), s, e, step)
    {
      expertAt, sbAt := expertAt[s := e], sbAt[e := s];
      lru := Touch(lru, e, step);
      table := table[e := s];
    }

    method Drop(s: nat)
      requires s in expertAt ==> expertAt[s] < |table|
      modifies this
      ensures View() == DropExpert(old(View()), s)
    {
      if s in expertAt {
        var e := expertAt[s];
        expertAt, sbAt := expertAt - {s}, sbAt - {e};
        lru := Remove(lru, e);
        table := table[e := UNLOADED];
      }
    }

    method Bump(e: nat, step: nat)
      modifies this
      ensures View() == BumpExpert(old(View()), e, step)
    {
      if e in Keys(lru) {
        lru := Touch(lru, e, step);
      }
    }
  }

  ghost function Views(layers: seq<LayerPool>): (v: seq<Layer>)
    reads layers
    ensures |v| == |layers|
    ensures forall i :: 0 <= i < |v| ==> v[i] == layers[i].View()
  {
    seq(|layers|, i requires 0 <= i < |layers| reads layers => layers[i].View())
  }

  class Manager {
    const cfg: Config
    const layers: seq<LayerPool>
    const relocationEnabled: bool
    const scoreByWarmest: bool
    var refs: seq<int>
    var hashOf: map<nat, nat>
    var queue: seq<nat>
    var cache: map<nat, set<nat>>
    var holder: map<nat, set<nat>>
    var lru: seq<Entry>
    var step: nat
    var mem: seq<seq<Bytes>>
    var relocations: nat

    ghost function S(): Pool
      reads this, layers
    {
      Pool(refs, hashOf, queue, cache, Views(layers), holder, lru, step, mem)
    }

    ghost function Settings(): Knobs { Knobs(scoreByWarmest, relocationEnabled) }

    ghost predicate Apart() {
      forall j, k :: 0 <= j < k < |layers| ==> layers[j] != layers[k]
    }

    /** The invariant, while a victim selection holds the pages in taken. */
    ghost predicate Valid(taken: set<nat>)
      reads this, layers
    {
      Apart() && Inv(cfg, S(), taken)
    }

    /** An empty pool: every page but the null one is free and nothing is cached or loaded. */
    constructor (c: Config, buffers: seq<seq<Bytes>>, relocate: bool, warmest: bool)
      requires ConfigOk(c, |buffers|) && forall b :: 0 <= b < |buffers| ==> |buffers[b]| == c.pages
      ensures cfg == c && mem == buffers && Valid({}) && Sound(cfg, S()) && fresh(layers)
      ensures relocationEnabled == relocate && scoreByWarmest == warmest
      ensures refs == seq(c.pages, _ => 0) && |layers| == |c.weights| && hashOf == map[] && holder == map[] && step == 0
      ensures |queue| == c.pages - 1 && forall k :: 0 <= k < |queue| ==> queue[k] == k + 1
      ensures forall i :: 0 <= i < |layers| ==> layers[i].View() == EmptyLayer(|c.weights[i]|)
    {
      var ls: seq<LayerPool> := [];
      for i := 0 to |c.weights|
        invariant |ls| == i && fresh(ls) && forall j, k :: 0 <= j < k < i ==> ls[j] != ls[k]
        invariant forall k :: 0 <= k < i ==> ls[k].View() == EmptyLayer(|c.weights[k]|)
      {
        var l := new LayerPool(|c.weights[i]|);
        ls := ls + [l];
      }
      cfg, layers, mem, relocationEnabled, scoreByWarmest := c, ls, buffers, relocate, warmest;
      refs := seq(c.pages, _ => 0);
      queue := seq(c.pages - 1, k requires 0 <= k < c.pages - 1 => k + 1);
      hashOf, cache, holder, lru, step, relocations := map[], map[], map[], [], 0, 0;
      new;
      hide Inv, Sound;
      EmptyPool(c, S());
    }

    // ----- Small steps -----

    /** One layer's mapping for the super-block goes; the other layers keep theirs. */
    method DropLayerMapping(i: nat, s: nat)
      requires Apart() && i < |layers| && (s in layers[i].expertAt ==> layers[i].expertAt[s] < |layers[i].table|)
      modifies this`holder, layers[i]
      ensures S() == DropMapping(old(S()), i, s)
    {
      hide DropExpert, RemoveHolder;
      if s in layers[i].expertAt {
        layers[i].Drop(s);
        holder := RemoveHolder(holder, i, s);
        assert Views(layers) == old(Views(layers))[i := layers[i].View()];
      }
    }

    /** KV is reclaiming a page of the super-block: every holder gives up its expert. */
    method BroadcastDropAllLayers(s: nat, ghost taken: set<nat>)
      requires Valid(taken) && !Pinned(S().layers, s)
      modifies this`holder, layers
      ensures Valid(taken) && S() == DropAll(old(S()), s) && OthersKept(old(S()).layers, S().layers, {s})
    {
      hide Inv, DropExpert, DropAll, OthersKept;
      ghost var before := S();
      DropAllKeeps(cfg, before, s, taken);
      DropAllIsExact(cfg, before, s, taken);
      if s !in holder {
        NothingHeld(before, s);
        return;
      }
      HoldersAreLayers(cfg, before, s, taken);
      var rest, holders := holder[s], holder[s];
      holder := holder - {s};
      while rest != {}
        invariant rest <= holders && Apart()
        invariant holder == before.holder - {s}
        invariant forall i {:trigger layers[i]} :: 0 <= i < |layers| ==>
                    layers[i].View() == if i in holders - rest then DropExpert(before.layers[i], s)
                        else before.layers[i]
        decreases rest
      {
        var i :| i in rest;
        assert s !in layers[i].pinned;
        layers[i].Drop(s);
        rest := rest - {i};
      }
      DropAllIs(before, s, Views(layers));
      assert S() == before.(holder := before.holder - {s}, layers := Views(layers));
    }

    /** A page's prefix hash is cleared everywhere; the page stays in the free queue. */
    method EvictPrefixGlobally(x: nat, ghost taken: set<nat>)
      requires Valid(taken)
      modifies this`hashOf, this`cache, this`lru
      ensures Valid(taken) && S() == EvictHash(old(S()), x)
    {
      hide Inv, CacheRemove, Remove;
      EvictHashKeeps(cfg, S(), x, taken);
      if x !in hashOf {
        return;
      }
      cache := CacheRemove(cache, hashOf[x], x);
      hashOf := hashOf - {x};
      lru := Remove(lru, x);
    }

    /** The bytes, hash and recency of a cached page move into a hole. */
    method RelocateKvPage(src: nat, dst: nat, ghost taken: set<nat>)
      requires Valid(taken)
      requires src in hashOf && src in queue && dst in queue && dst !in hashOf
      requires dst < cfg.pages && Sb(cfg, dst) !in holder
      modifies this`mem, this`hashOf, this`cache, this`lru, this`relocations
      ensures Valid(taken)
      ensures src < cfg.pages && forall b :: 0 <= b < |old(mem)| ==> |old(mem)[b]| == cfg.pages
      ensures S() == Relocate(old(S()), src, dst)
    {
      hide Inv, Rename, CacheInsert, CacheRemove, CopyPage, Sb;
      RelocateKeeps(cfg, S(), src, dst, taken);
      mem := CopyPage(mem, src, dst);
      var h := hashOf[src];
      cache := CacheInsert(CacheRemove(cache, h, src), h, dst);
      hashOf := (hashOf - {src})[dst := h];
      lru := Rename(lru, src, dst, step);
      relocations := relocations + 1;
    }

    method AnyLayerPins(s: nat) returns (r: bool)
      ensures r == Pinned(S().layers, s)
    {
      for i := 0 to |layers|
        invariant forall k :: 0 <= k < i ==> s !in S().layers[k].pinned
      {
        if s in layers[i].pinned {
          assert s in S().layers[i].pinned;
          return true;
        }
      }
      return false;
    }

    // ----- Making room: where pages can move to, and which can be displaced -----

    /** Up to limit free pages that a cached page can move into, in free-queue order. */
    method CollectFreePages(s: nat, limit: nat) returns (out: seq<nat>)
      requires cfg.F > 0
      ensures out == Holes(cfg, S(), s)[..Min(limit, |Holes(cfg, S(), s)|)]
    {
      hide Sb, Pinned;
      out := [];
      if limit == 0 {
        return;
      }
      ghost var f := HoleOutside(cfg, S(), s);
      for n := 0 to |queue|
        invariant out == Filter(queue[..n], f) && |out| < limit
      {
        var x := queue[n];
        var t := Sb(cfg, x);
        var pins := AnyLayerPins(t);
        FilterNext(queue, f, n);
        if x !in hashOf && t != s && t !in holder && !pins {
          out := out + [x];
          if |out| >= limit {
            FilterPrefix(queue, f, n + 1);
            return;
          }
        }
      }
      assert queue[..|queue|] == queue;
    }

    /** The limit coldest cached pages that could be evicted to make a hole, coldest first. */
    method DisplaceablePagesColdestFirst(s: nat, limit: nat) returns (out: seq<Entry>)
      requires cfg.F > 0
      ensures out == Displaceables(cfg, S(), s)[..Min(limit, |Displaceables(cfg, S(), s)|)]
    {
      hide Sb, Pinned;
      out := [];
      if limit == 0 {
        return;
      }
      ghost var f := DisplaceableOutside(cfg, S(), s);
      for n := 0 to |lru|
        invariant out == Filter(lru[..n], f) && |out| < limit
      {
        var t := Sb(cfg, lru[n].key);
        var pins := AnyLayerPins(t);
        FilterNext(lru, f, n);
        if t != s && !pins {
          out := out + [lru[n]];
          if |out| >= limit {
            FilterPrefix(lru, f, n + 1);
            return;
          }
        }
      }
      assert lru[..|lru|] == lru;
    }

    /** The pages of a super-block that carry a hash. */
    method CachedPagesOf(s: nat) returns (r: seq<nat>)
      requires cfg.F > 0 && s < SuperBlocks(cfg)
      ensures forall x: nat :: x in r <==> x < cfg.pages && Sb(cfg, x) == s && x in hashOf
      ensures forall j, k :: 0 <= j < k < |r| ==> r[j] < r[k]
    {
      WholeSuperBlock(cfg, s);
      forall x: nat ensures Sb(cfg, x) == s <==> s * cfg.F <= x < s * cfg.F + cfg.F { PagesOf(cfg, s, x); }
      hide Sb, SuperBlocks;
      r := [];
      var base := s * cfg.F;
      for x := base to base + cfg.F
        invariant forall y :: y in r <==> base <= y < x && y in hashOf
        invariant forall j, k :: 0 <= j < k < |r| ==> r[j] < r[k]
      {
        assert forall j :: 0 <= j < |r| ==> r[j] in r;
        if x in hashOf {
          r := r + [x];
        }
      }
    }

    /** Moves one cached page, seen as progress of the vacating that started at l0 and h0. */
    method MoveInto(x: nat, d: nat, ghost p0: Pool, ghost killed: set<nat>, ghost moved: map<nat, nat>)
      requires Valid({}) && Vacating(cfg, p0, S(), killed, moved)
      requires x in Keys(p0.lru) && x !in killed && x !in moved
      requires d in queue && d !in hashOf && (d in p0.hashOf ==> d in killed) && Sb(cfg, d) !in holder
      modifies this`hashOf, this`cache, this`lru, this`mem, this`relocations
      ensures Valid({}) && Vacating(cfg, p0, S(), killed, moved[x := d])
    {
      hide Inv, Vacating, Sb, Keys, Views, Relocate;
      MoveReady(cfg, p0, S(), killed, moved, x, d);
      ghost var before := S();
      RelocateKvPage(x, d, {});
      Moved(cfg, p0, before, S(), killed, moved, x, d);
    }

    /** Evicts one cached page, seen as progress of the same vacating. */
    method Kill(x: nat, ghost p0: Pool, ghost killed: set<nat>, ghost moved: map<nat, nat>)
      requires Valid({}) && Vacating(cfg, p0, S(), killed, moved)
      requires x in Keys(p0.lru) && x !in killed && x !in moved
      modifies this`hashOf, this`cache, this`lru
      ensures Valid({}) && Vacating(cfg, p0, S(), killed + {x}, moved) && x !in hashOf
    {
      hide Inv, Vacating, Keys, Views, EvictHash;
      ghost var before := S();
      EvictPrefixGlobally(x, {});
      Killed(cfg, p0, before, S(), killed, moved, x);
    }

    /** The loop of the vacating: each page takes a free hole, or displaces a colder page,
        or is evicted in place. */
    method RelocatePages(pp: seq<nat>, holes: seq<nat>, cold: seq<Entry>, ghost s: nat, ghost ws: seq<nat>)
      returns (ghost killed: set<nat>, ghost moved: map<nat, nat>, ghost t: nat, ghost stopped: bool)
      requires Valid({}) && Staged(cfg, S(), s, pp, ws, holes, cold)
      modifies this`hashOf, this`cache, this`lru, this`mem, this`relocations
      ensures Valid({}) && Vacating(cfg, old(S()), S(), killed, moved)
      ensures Plan(pp, ws, holes, cold, |pp|, t, stopped, killed, moved)
    {
      hide Inv, Vacating, Staged, Plan, Views, Sb, Keys, StepOf;
      ghost var p0 := S();
      StagedStart(cfg, p0, s, pp, ws, holes, cold);
      var holeI, candI := 0, 0;
      killed, moved, t, stopped := {}, map[], 0, false;
      for i := 0 to |pp|
        invariant Valid({}) && Vacating(cfg, p0, S(), killed, moved)
        invariant Plan(pp, ws, holes, cold, i, t, stopped, killed, moved)
        invariant holeI == Min(i, |holes|) && candI == if stopped then |cold| else t
      {
        var x := pp[i];
        var warmth := StepOf(lru, x);
        StagedPage(cfg, p0, S(), s, pp, ws, holes, cold, i, t, stopped, killed, moved);
        if holeI < |holes| {
          var d := holes[holeI];
          holeI := holeI + 1;
          MoveInto(x, d, p0, killed, moved);
          PlanHole(pp, ws, holes, cold, i, t, killed, moved);
          moved := moved[x := d];
        } else if candI < |cold| && cold[candI].step < warmth {
          var victim := cold[candI].key;
          candI := candI + 1;
          Kill(victim, p0, killed, moved);
          MoveInto(x, victim, p0, killed + {victim}, moved);
          PlanDisplace(pp, ws, holes, cold, i, t, killed, moved);
          killed, moved, t := killed + {victim}, moved[x := victim], t + 1;
        } else {
          candI := |cold|;
          Kill(x, p0, killed, moved);
          PlanEvict(pp, ws, holes, cold, i, t, stopped, killed, moved);
          killed, stopped := killed + {x}, true;
        }
      }
    }

    /** Clears every cached prefix out of a super-block, so that an expert can be written
        over it.  Warm pages move into holes; where holes run out they displace colder
        pages elsewhere, and the pages killed are the coldest of all that were at risk. */
    method VacateKvSuperBlock(s: nat) returns (ghost killed: set<nat>, ghost moved: map<nat, nat>)
      requires Valid({}) && s < SuperBlocks(cfg)
      requires forall x: nat :: x < cfg.pages && Sb(cfg, x) == s ==> x in queue
      modifies this`hashOf, this`cache, this`lru, this`mem, this`relocations
      ensures Valid({}) && Vacated(cfg, old(S()), S(), s, killed, moved)
      ensures if relocationEnabled then
                ColdestKilled(cfg, old(S()), s, killed) && Relocated(cfg, old(S()), s, killed, moved)
              else killed == Cached(cfg, old(S()), s) && moved == map[]
    {
      hide Inv, Views, Sb, Keys, SuperBlocks, Vacating, Staged, Plan, Vacated, ColdestKilled, Holes, Displaceables,
           StepOf, StepsOf, Relocated, Served;
      ghost var p0 := S();
      Positive(cfg, p0, {});
      var pages := CachedPagesOf(s);
      if !relocationEnabled {
        killed, moved := EvictInPlace(pages, s);
        return;
      }
      var pp := SortWarm(lru, pages);
      SamePages(pages, pp);
      var holes := CollectFreePages(s, |pp|);
      var cold := DisplaceablePagesColdestFirst(s, |pp|);
      ghost var ws := StepsOf(lru, pp);
      StagedFrom(cfg, p0, s, pp, ws, holes, cold);
      ghost var t, stopped;
      killed, moved, t, stopped := RelocatePages(pp, holes, cold, s, ws);
      VacatedFrom(cfg, p0, S(), s, pp, ws, holes, cold, t, stopped, killed, moved);
      ColdestFrom(cfg, p0, s, pp, ws, holes, cold, t, stopped, killed, moved);
      SortIsServed(p0.lru, pages);
      RehomedFrom(cfg, p0, s, pp, holes, cold, t, stopped, killed, moved);
    }

    /** With relocation switched off the cached pages are simply evicted. */
    method EvictInPlace(pages: seq<nat>, ghost s: nat) returns (ghost killed: set<nat>, ghost moved: map<nat, nat>)
      requires Valid({})
      requires forall x: nat :: x in pages <==> x < cfg.pages && Sb(cfg, x) == s && x in hashOf
      requires forall j, k :: 0 <= j < k < |pages| ==> pages[j] != pages[k]
      requires forall x: nat :: x < cfg.pages && Sb(cfg, x) == s ==> x in queue
      modifies this`hashOf, this`cache, this`lru
      ensures Valid({}) && Vacated(cfg, old(S()), S(), s, killed, moved)
      ensures killed == Cached(cfg, old(S()), s) && moved == map[]
    {
      hide Inv, Views, Sb, Keys, Vacating, Staged, Plan, Vacated;
      ghost var p0 := S();
      forall x | x in pages ensures x in Keys(p0.lru) {
        QueuedHashed(cfg, p0, x);
      }
      StagedStart(cfg, p0, s, [], [], [], []) by { EmptyStage(cfg, p0, s); }
      killed, moved := {}, map[];
      for i := 0 to |pages|
        invariant Valid({}) && Vacating(cfg, p0, S(), killed, moved)
        invariant moved == map[] && forall x :: x in killed <==> x in pages[..i]
      {
        Kill(pages[i], p0, killed, moved);
        killed := killed + {pages[i]};
      }
      Positive(cfg, p0, {});
      EvictedFrom(cfg, p0, S(), s, pages, killed);
    }

    // ----- Choosing a super-block for an expert -----

    /** What the vacating test says of a super-block; the source raises an IndexError when
        it runs past the last page. */
    method Inspect(s: nat) returns (v: Verdict)
      requires cfg.F > 0 && |refs| == cfg.pages && s * cfg.F < cfg.pages
      ensures v.Pass? <==> Barred(cfg, S(), s)
      ensures v.Accept? ==> s * cfg.F + cfg.F <= cfg.pages
      ensures v.OutOfRange? ==> s * cfg.F + cfg.F > cfg.pages
    {
      forall x: nat ensures Sb(cfg, x) == s <==> s * cfg.F <= x < s * cfg.F + cfg.F { PagesOf(cfg, s, x); }
      hide Sb, Pinned;
      if s == 0 || s in holder {
        return Pass;
      }
      var pins := AnyLayerPins(s);
      if pins {
        return Pass;
      }
      var x := s * cfg.F;
      while x < s * cfg.F + cfg.F
        invariant s * cfg.F <= x <= s * cfg.F + cfg.F && x <= cfg.pages
        invariant forall y :: s * cfg.F <= y < x ==> refs[y] <= 0
      {
        if x == cfg.pages {
          return OutOfRange;
        }
        if refs[x] > 0 {
          return Pass;
        }
        x := x + 1;
      }
      return Accept;
    }

    /** The best-ranked super-block among the tallied ones that is not passed over; order is
        the order in which they were first sighted. */
    method PickBest(order: seq<nat>, count: map<nat, nat>, oldest: map<nat, nat>, ghost n: nat)
      returns (found: bool, best: nat, v: Verdict)
      requires cfg.F > 0 && |refs| == cfg.pages && n <= |lru|
      requires Tallied(cfg, lru, n, count, oldest) && InSightOrder(cfg, lru, n, order)
      requires forall s :: s in count ==> s * cfg.F < cfg.pages
      ensures !found ==> forall s :: s in count ==> Barred(cfg, S(), s)
      ensures found ==> Cheapest(cfg, S(), n, best) && !v.Pass? && best in count
      ensures found ==> (v.Accept? <==> Whole(cfg, best))
    {
      hide Sb, Barred, FirstIn, ColdCount, Views, Cheapest;
      found, best, v := false, 0, Pass;
      ghost var at := 0;
      for k := 0 to |order|
        invariant found ==> at < k && order[at] == best && best in count && !Barred(cfg, S(), best) && !v.Pass?
        invariant found ==> (v.Accept? <==> Whole(cfg, best))
        invariant forall j {:trigger order[j]} :: 0 <= j < k && order[j] in count && !Barred(cfg, S(), order[j]) ==>
                    found && Ahead(count, oldest, order, at, j)
      {
        var s := order[k];
        assert s in order;
        var w := Inspect(s);
        if !w.Pass? && (!found || count[s] > count[best] || (count[s] == count[best] && oldest[s] < oldest[best])) {
          found, best, v, at := true, s, w, k;
        }
      }
      if found {
        FirstIsCheapest(cfg, S(), n, order, count, oldest, at);
      }
    }

    /** The warmest cached page of a super-block, or -1. */
    method WarmestPrefixStep(s: nat) returns (warmest: int)
      requires Valid({})
      ensures if exists e :: e in lru && Sb(cfg, e.key) == s then ScoreOk(cfg, lru, s, warmest, true) else warmest == -1
    {
      hide Inv, Sb, StepOf, Views;
      Positive(cfg, S(), {});
      var base := s * cfg.F;
      forall x: nat ensures Sb(cfg, x) == s <==> base <= x < base + cfg.F { PagesOf(cfg, s, x); }
      LookUps(cfg, S());
      warmest := -1;
      for x := base to base + cfg.F
        invariant warmest == -1 || exists e :: e in lru && Sb(cfg, e.key) == s && e.step == warmest
        invariant forall e :: e in lru && base <= e.key < x ==> e.step <= warmest
      {
        var step := StepOf(lru, x);
        if step > warmest {
          warmest := step;
        }
      }
    }

    /** The cheapest super-block to vacate, and its score: the one with most of the coldest
        pages, found in the smallest horizon that holds any candidate at all.  The source
        raises an IndexError exactly when that one runs past the last page. */
    method CheapestKvSuperBlock() returns (r: Choice)
      requires Valid({})
      ensures cfg.F > 0 && |refs| == cfg.pages && (r.NoChoice? <==> AllBarred(cfg, S(), |lru|))
      ensures r.Chosen? ==> Top(cfg, S(), r.s) && Whole(cfg, r.s) && ScoreOk(cfg, lru, r.s, r.score, scoreByWarmest)
      ensures r.Chosen? ==> 0 < r.s < SuperBlocks(cfg)
      ensures r.IndexError? <==> Ragged(cfg, S())
    {
      hide Inv, Sb, Barred, FirstIn, ColdCount, SuperBlocks, Tallied, Views, Cheapest, ScoreOk, AllBarred,
           InSightOrder, Top, Ragged;
      WalkReady(cfg, S());
      var order: seq<nat>, count: map<nat, nat>, oldest: map<nat, nat> := [], map[], map[];
      var seen := 0;
      while true
        invariant seen <= |lru| && AllBarred(cfg, S(), seen) && seen % cfg.F == 0
        invariant Tallied(cfg, lru, seen, count, oldest) && InSightOrder(cfg, lru, seen, order)
        decreases |lru| - seen
      {
        ghost var m := seen;
        var exhausted;
        order, count, oldest, seen, exhausted := Tally(order, count, oldest, seen);
        CandidatesInRange(cfg, S(), seen, count, oldest);
        var found, best, v := PickBest(order, count, oldest, seen);
        if found {
          FoundTop(cfg, S(), m, seen, best);
          TopIs(cfg, S(), best);
          PartialSuperBlock(cfg, best);
          if v.OutOfRange? {
            return IndexError;
          }
          TallyScore(cfg, S(), seen, count, oldest, best);
          if !scoreByWarmest {
            return Chosen(best, oldest[best]);
          }
          var score := WarmestPrefixStep(best);
          return Chosen(best, score);
        }
        NothingFound(cfg, S(), seen, count, oldest);
        if exhausted {
          NoTop(cfg, S());
          NotRagged(cfg, S());
          return NoChoice;
        }
      }
    }

    /** Tallies the next F pages from the cold end. */
    method Tally(order: seq<nat>, count: map<nat, nat>, oldest: map<nat, nat>, seen: nat)
      returns (order': seq<nat>, count': map<nat, nat>, oldest': map<nat, nat>, seen': nat, exhausted: bool)
      requires cfg.F > 0 && seen <= |lru| && seen % cfg.F == 0
      requires Tallied(cfg, lru, seen, count, oldest) && InSightOrder(cfg, lru, seen, order)
      ensures seen <= seen' <= |lru| && seen' <= seen + cfg.F
      ensures Tallied(cfg, lru, seen', count', oldest') && InSightOrder(cfg, lru, seen', order')
      ensures if exhausted then seen' == |lru| else seen' == seen + cfg.F && seen' % cfg.F == 0
    {
      hide Sb, Tallied, FirstIn, ColdCount, InSightOrder;
      order', count', oldest', seen', exhausted := order, count, oldest, seen, true;
      while seen' < |lru|
        invariant seen <= seen' <= |lru| && seen' < seen + cfg.F
        invariant Tallied(cfg, lru, seen', count', oldest') && InSightOrder(cfg, lru, seen', order')
      {
        var s := Sb(cfg, lru[seen'].key);
        TallyNext(cfg, lru, seen', count', oldest');
        SightNext(cfg, lru, seen', order');
        count' := count'[s := (if s in count' then count'[s] else 0) + 1];
        oldest' := if s in oldest' then oldest' else oldest'[s := lru[seen'].step];
        order' := if s in order' then order' else order' + [s];
        seen' := seen' + 1;
        if seen' >= seen + cfg.F {
          NextMultiple(seen, cfg.F);
          return order', count', oldest', seen', false;
        }
      }
    }

    /** This layer's coldest expert that is neither needed now nor pinned. */
    method ColdestOwnExpert(i: nat, needed: set<nat>) returns (found: bool, e: nat, step: nat)
      requires i < |layers| && Keys(layers[i].lru) <= layers[i].sbAt.Keys && Sorted(layers[i].lru)
      ensures found ==> Entry(e, step) in layers[i].lru && Evictable(layers[i].View(), needed, e)
      ensures found ==> forall f :: f in layers[i].lru && Evictable(layers[i].View(), needed, f.key) ==> step <= f.step
      ensures !found ==> forall f :: f in layers[i].lru ==> !Evictable(layers[i].View(), needed, f.key)
    {
      var l := layers[i].lru;
      for k := 0 to |l|
        invariant forall j :: 0 <= j < k ==> !Evictable(layers[i].View(), needed, l[j].key)
      {
        var x := l[k].key;
        assert l[k] in l && x in Keys(l);
        if x !in needed && layers[i].sbAt[x] !in layers[i].pinned {
          return true, x, l[k].step;
        }
      }
      return false, 0, 0;
    }

    /** Tier 2: give up this layer's coldest spare expert or the cheapest KV super-block,
        whichever is colder, and KV on ties. */
    method EvictForExpert(i: nat, needed: set<nat>) returns (r: Room, ghost d: Decision)
      requires Valid({}) && i < |layers|
      modifies this`hashOf, this`cache, this`lru, this`mem, this`relocations, this`holder, layers[i]
      ensures Valid({}) && KeptFor(old(S()), S(), i, needed)
      ensures r.Room? ==> Vacant(cfg, S(), i, r.s) && ColderTaken(cfg, old(S()), i, needed, d, scoreByWarmest)
      ensures r.Exhausted? ==> S() == old(S()) && NoSpare(S().layers[i], needed) && AllBarred(cfg, S(), |lru|)
      ensures r.Room? ==> Evicted(cfg, old(S()), S(), i, r.s, d, relocationEnabled)
      ensures r.BadIndex? ==> S() == old(S())
      ensures cfg.F > 0 && old(|refs|) == cfg.pages && (r.BadIndex? <==> Ragged(cfg, old(S())))
    {
      hide Inv, Ragged, LayerOk, Sb, SuperBlocks, Vacant, KeptFor, ColderTaken, NoSpare, AllBarred, Barred, Top,
           ScoreOk, Evictable, Keys, Sorted, Vacated, ColdestKilled, Relocated, Cached, DropMapping;
      ghost var p0 := S();
      LayerLru(cfg, p0, i);
      KeptSame(cfg, p0, i, needed);
      var own, e, step := ColdestOwnExpert(i, needed);
      var kv := CheapestKvSuperBlock();
      if kv.IndexError? {
        return BadIndex, TookNothing;
      }
      if kv.Chosen? && (!own || kv.score <= step) {
        d := TookKv(kv.s, kv.score);
        DecidedKv(cfg, p0, i, needed, kv.s, kv.score, own, step, scoreByWarmest);
        TopIs(cfg, p0, kv.s);
        VacateReady(cfg, p0, kv.s);
        ghost var killed, moved := VacateKvSuperBlock(kv.s);
        VacatedVacant(cfg, p0, S(), i, kv.s, needed, killed, moved);
        return Room(kv.s), d;
      }
      if own {
        d := TookExpert(e, step);
        DecidedExpert(cfg, p0, i, needed, e, step, kv, scoreByWarmest);
        var s := layers[i].sbAt[e];
        LayerFacts(cfg, p0, i, {});
        DroppedVacant(cfg, p0, i, needed, e);
        DropLayerMapping(i, s);
        return Room(s), d;
      }
      NoneSpare(cfg, p0, i, needed);
      return Exhausted, TookNothing;
    }

    /** The lowest super-block that other layers' experts occupy and this layer's do not. */
    method SharedSuperBlock(i: nat) returns (found: bool, best: nat)
      requires i < |layers|
      ensures found <==> exists s :: Shareable(S(), i, s)
      ensures found ==> Shareable(S(), i, best) && forall s :: Shareable(S(), i, s) ==> best <= s
    {
      found, best := false, 0;
      var rest := holder.Keys;
      while rest != {}
        invariant rest <= holder.Keys
        invariant found ==> Shareable(S(), i, best)
        invariant forall s :: Shareable(S(), i, s) && s !in rest ==> found && best <= s
        decreases rest
      {
        var s :| s in rest;
        rest := rest - {s};
        if s > 0 && s !in layers[i].pinned && s !in layers[i].expertAt && (!found || s < best) {
          found, best := true, s;
        }
      }
    }

    /** The first super-block whose pages are all free and unhashed. */
    method FreeSuperBlock(i: nat) returns (found: bool, s: nat)
      requires Valid({}) && i < |layers|
      ensures cfg.F > 0 && |refs| == cfg.pages && (found <==> exists t :: Unused(cfg, S(), i, t))
      ensures found ==> Unused(cfg, S(), i, s) && forall t :: Unused(cfg, S(), i, t) ==> s <= t
    {
      hide Inv, SuperBlocks, Views;
      Sized(cfg, S());
      if SuperBlocks(cfg) == 0 {
        return false, 0;
      }
      for t := 1 to SuperBlocks(cfg)
        invariant forall u :: 0 < u < t ==> !Unused(cfg, S(), i, u)
      {
        if t !in layers[i].pinned && t !in layers[i].expertAt && t !in holder {
          var pure := AllPagesPure(t);
          if pure {
            assert Unused(cfg, S(), i, t);
            return true, t;
          }
        }
      }
      return false, 0;
    }

    method AllPagesPure(s: nat) returns (r: bool)
      requires cfg.F > 0 && |refs| == cfg.pages && 0 < s < SuperBlocks(cfg)
      ensures r <==> Pure(cfg, S(), s)
    {
      WholeSuperBlock(cfg, s);
      forall x: nat ensures Sb(cfg, x) == s <==> s * cfg.F <= x < s * cfg.F + cfg.F { PagesOf(cfg, s, x); }
      hide Sb, SuperBlocks;
      for x := s * cfg.F to s * cfg.F + cfg.F
        invariant forall y :: s * cfg.F <= y < x ==> refs[y] <= 0 && y !in hashOf
      {
        if refs[x] > 0 || x in hashOf {
          return false;
        }
      }
      return true;
    }

    /** Chooses a super-block for an expert of layer i and makes it vacant: one that other
        layers share, else a free one, else the colder of a spare expert and cached KV.
        It fails exactly when every super-block holds a live page or one of this layer's
        needed or pinned experts. */
    method SelectSuperBlockForExpert(i: nat, needed: set<nat>) returns (r: Room, ghost d: Decision)
      requires Valid({}) && i < |layers|
      modifies this`hashOf, this`cache, this`lru, this`mem, this`relocations, this`holder, layers[i]
      ensures Valid({}) && KeptFor(old(S()), S(), i, needed)
      ensures r.Room? ==> Vacant(cfg, S(), i, r.s) && !Crowded(cfg, old(S()), i, needed)
      ensures r.Room? ==> TierOk(cfg, old(S()), S(), i, needed, r.s, d, Settings())
      ensures r.Exhausted? ==> S() == old(S()) && Crowded(cfg, S(), i, needed)
      ensures r.BadIndex? ==> S() == old(S())
      ensures cfg.F > 0 && old(|refs|) == cfg.pages && (r.BadIndex? <==> Stuck(cfg, old(S()), i))
    {
      hide Inv, Sb, SuperBlocks, Vacant, KeptFor, ColderTaken, NoSpare, AllBarred, Crowded, Pure, Views, Shareable,
           Unused, Ragged, Evicted;
      ghost var p0 := S();
      d := TookNothing;
      Sized(cfg, p0);
      KeptSame(cfg, p0, i, needed);
      var shared, s := SharedSuperBlock(i);
      if shared {
        SharedVacant(cfg, p0, i, s);
        NotCrowded(cfg, p0, S(), i, needed, s);
        return Room(s), d;
      }
      var freeUnhashed := |queue| - |lru|;
      if freeUnhashed >= cfg.F {
        var found, t := FreeSuperBlock(i);
        if found {
          PureVacant(cfg, p0, i, t);
          NotCrowded(cfg, p0, S(), i, needed, t);
          return Room(t), d;
        }
      } else {
        GuardSound(cfg, p0);
        NothingUnused(cfg, p0, i);
      }
      r, d := EvictForExpert(i, needed);
      if r.Room? {
        NotCrowded(cfg, p0, S(), i, needed, r.s);
      } else if r.Exhausted? {
        IsCrowded(cfg, p0, i, needed);
      }
    }

    // ----- Loading the experts of a forward pass -----

    method PinHit(i: nat, e: nat)
      requires Apart() && i < |layers| && e in layers[i].sbAt
      modifies layers[i]
      ensures S() == Pin(Bump(old(S()), i, e), i, old(layers[i].sbAt)[e])
    {
      hide BumpExpert;
      layers[i].pinned := layers[i].pinned + {layers[i].sbAt[e]};
      layers[i].Bump(e, step);
      BumpedPin(old(layers[i].View()), e, step, old(layers[i].sbAt)[e]);
      assert Views(layers) == old(Views(layers))[i := layers[i].View()];
    }

    /** Claims a vacant super-block for an expert and copies the weights in. */
    method LoadMiss(i: nat, s: nat, e: nat)
      requires Apart() && i < |layers| && cfg.F > 0 && i < |mem| && i < |cfg.weights| && e < |cfg.weights[i]|
      requires |cfg.weights[i][e]| == cfg.F && |layers[i].table| == |cfg.weights[i]|
      requires s !in layers[i].expertAt && e !in layers[i].sbAt
      modifies this`holder, this`mem, layers[i]
      ensures S() == LoadExpert(cfg, old(S()), i, s, e)
    {
      hide AddHolder, Dma, AssignExpert;
      layers[i].Assign(s, e, step);
      holder := AddHolder(holder, i, s);
      layers[i].pinned := layers[i].pinned + {s};
      mem := mem[i := Dma(cfg, mem[i], s, cfg.weights[i][e])];
      assert Views(layers) == old(Views(layers))[i := layers[i].View()];
    }

    /** Gives up the experts loaded so far and every pin of the layer. */
    method AbandonLoads(i: nat, misses: seq<nat>, claimed: seq<nat>, ghost p0: Pool)
      requires Apart() && i < |layers|
      requires forall j, k :: 0 <= j < k < |misses| ==> misses[j] != misses[k]
      requires Claims(S(), i, misses, claimed) && Undoing(cfg, p0, S(), i)
      modifies this`holder, layers[i]
      ensures Valid({}) && Staying(p0, S(), i) && layers[i].pinned == {}
      ensures layers[i].sbAt == old(layers[i].sbAt) - Members(misses[..|claimed|])
      ensures S() == Unpin(UndoAll(old(S()), i, claimed), i)
    {
      hide Inv, Staying, Undoing, DropMapping, Views, Members, UndoAll;
      ghost var p := S();
      UndoNone(p, i, claimed);
      for n := 0 to |claimed|
        invariant Apart() && S() == UndoAll(p, i, claimed[..n])
      {
        UndoNext(p, i, claimed, n);
        UndoneSoFar(cfg, p0, p, i, misses, claimed, n);
        DropLayerMapping(i, claimed[n]);
      }
      UndoneSoFar(cfg, p0, p, i, misses, claimed, |claimed|);
      assert claimed[..|claimed|] == claimed;
      UndoEnd(cfg, p0, S(), i);
      ReleasePinned(i);
    }

    method ReleasePinned(i: nat)
      requires Apart() && i < |layers|
      modifies layers[i]
      ensures S() == Unpin(old(S()), i)
    {
      layers[i].pinned := {};
      assert Views(layers) == old(Views(layers))[i := layers[i].View()];
    }

    /** Makes every needed expert resident and pinned in layer i.  When the pages divide
        evenly into super-blocks, it succeeds exactly when there are at least as many
        super-blocks without live KV as experts that must be in the layer: those needed and
        those pinned before.  On failure every load is undone, but what was evicted to make
        room stays evicted: on exhaustion exactly the experts that must be kept are left. */
    method EnsureLoaded(i: nat, needed: seq<nat>) returns (r: LoadResult, ghost ps: seq<Pool>, ghost ss: seq<nat>)
      requires Valid({}) && i < |layers|
      requires forall k :: 0 <= k < |needed| ==> needed[k] < |layers[i].table|
      requires forall j, k :: 0 <= j < k < |needed| ==> needed[j] != needed[k]
      modifies this`hashOf, this`cache, this`lru, this`mem, this`relocations, this`holder, layers[i]
      ensures Valid({}) && Staying(old(S()), S(), i)
      ensures r.AllLoaded? ==> forall e :: e in needed ==> Ready(cfg, S(), i, e)
      ensures r.AllLoaded? ==> LoadDone(old(layers[i].View()), layers[i].View(), Members(needed))
      ensures !r.AllLoaded? ==> LoadFailed(old(layers[i].View()), layers[i].View(), Members(needed))
      ensures r.LoadExhausted? ==> forall e :: e in layers[i].sbAt ==> KeptBy(old(layers[i].View()), Members(needed), e)
      ensures cfg.F > 0 && |refs| == cfg.pages && (r.LoadIndexError? ==> cfg.pages % cfg.F != 0)
      ensures r.LoadExhausted? ==> |LiveFree(cfg, refs)| < |KeepSet(old(layers[i].View()), Members(needed))|
      ensures r.AllLoaded? ==> |KeepSet(old(layers[i].View()), Members(needed))| <= |LiveFree(cfg, refs)|
      ensures cfg.pages % cfg.F == 0 ==>
                (r.AllLoaded? <==> |KeepSet(old(layers[i].View()), Members(needed))| <= |LiveFree(cfg, refs)|)
      ensures LoadedBy(cfg, old(S()), S(), i, needed, r, ps, ss, Settings())
    {
      hide Inv, Staying, Ready, Loading, LiveFree, Views, LayerOk, Split, Members, LoadDone, LoadFailed, KeptBy,
           KeepSet, Loads, EndsIn, HitAll, Residents, Missing;
      LoadingStart(cfg, S(), i, Members(needed));
      LayerFacts(cfg, S(), i, {});
      NeededIds(needed, |cfg.weights[i]|);
      var hits, misses := Partition(i, needed);
      PinHits(i, hits, Members(needed));
      r, ps, ss := LoadMisses(i, Members(needed), hits, misses, old(S()));
    }

    method PinHits(i: nat, hits: seq<nat>, ghost needed: set<nat>)
      requires Apart() && i < |layers| && Loading(cfg, S(), S(), i, needed, {})
      requires exists misses :: Split(layers[i].sbAt, needed, hits, misses)
      modifies layers[i]
      ensures Apart() && Loading(cfg, old(S()), S(), i, needed, Members(hits)) && S() == HitAll(old(S()), i, hits)
    {
      hide Loading, Views, HitAll;
      ghost var p0 := S();
      HitNone(p0, i, hits);
      for n := 0 to |hits|
        invariant Apart() && Loading(cfg, p0, S(), i, needed, Members(hits[..n]))
        invariant layers[i].sbAt == p0.layers[i].sbAt && S() == HitAll(p0, i, hits[..n])
      {
        HitNext(p0, i, hits, n);
        HitStep(cfg, p0, S(), i, needed, Members(hits[..n]), hits[n]);
        PinHit(i, hits[n]);
        NextMembers(hits, n);
      }
      assert hits[..|hits|] == hits;
    }

    /** Finds room for the next miss and loads it. */
    method LoadOne(i: nat, needed: set<nat>, misses: seq<nat>, claimed: seq<nat>, ghost p0: Pool, ghost done: set<nat>)
      returns (room: Room)
      requires Apart() && i < |layers| == |p0.layers| && Loading(cfg, p0, S(), i, needed, done) && done <= needed
      requires Claims(S(), i, misses, claimed) && |claimed| < |misses| && forall e :: e in misses ==> e in needed
      requires misses[|claimed|] !in layers[i].sbAt && misses[|claimed|] !in done &&
               misses[|claimed|] !in p0.layers[i].sbAt
      requires i < |cfg.weights| && misses[|claimed|] < |cfg.weights[i]|
      modifies this`hashOf, this`cache, this`lru, this`mem, this`relocations, this`holder, layers[i]
      ensures !room.Room? ==> S() == old(S()) && cfg.F > 0 && |refs| == cfg.pages && Staying(p0, S(), i)
      ensures room.Room? ==> Loading(cfg, p0, S(), i, needed, done + {misses[|claimed|]})
      ensures room.Room? ==> Claims(S(), i, misses, claimed + [room.s])
      ensures room.Room? ==> LoadStep(cfg, old(S()), S(), i, needed, misses[|claimed|], room.s, Settings())
      ensures room.Exhausted? ==> Crowded(cfg, S(), i, needed) && !Stuck(cfg, S(), i)
      ensures room.BadIndex? ==> Stuck(cfg, S(), i)
      ensures room.Exhausted? ==> |LiveFree(cfg, refs)| < |KeepSet(p0.layers[i], needed)|
      ensures room.Exhausted? ==> forall e :: e in layers[i].sbAt ==> KeptBy(p0.layers[i], needed, e)
      ensures room.BadIndex? ==> cfg.pages % cfg.F != 0
    {
      hide Inv, Staying, Loading, LiveFree, KeepSet, KeptBy, Sb, SuperBlocks, Vacant, KeptFor, Crowded, Views, Claims,
           LoadExpert, TierOk, Stuck;
      ghost var before, e := S(), misses[|claimed|];
      assert e in misses;
      LoadingFacts(cfg, p0, before, i, needed, done, misses);
      ghost var d;
      room, d := SelectSuperBlockForExpert(i, needed);
      SelectStep(cfg, p0, before, S(), i, needed, done);
      if room.Room? {
        ClaimsKept(cfg, before, S(), i, needed, misses, claimed);
        StillMissing(cfg, p0, S(), i, needed, done, e);
        LayerFacts(cfg, S(), i, {});
        MissStep(cfg, p0, S(), i, needed, done, room.s, e);
        ClaimsNext(cfg, S(), i, misses, claimed, room.s);
        ghost var q := S();
        LoadMiss(i, room.s, misses[|claimed|]);
        assert LoadedInto(cfg, q, S(), i, room.s, e);
      } else if room.BadIndex? {
        StuckIsUneven(cfg, before, i);
      } else {
        TooLittleRoom(cfg, p0, S(), i, needed, done, e);
        forall f | f in layers[i].sbAt ensures KeptBy(p0.layers[i], needed, f) {
          OnlyKeptLeft(cfg, p0, S(), i, needed, done, f);
        }
      }
    }

    method LoadMisses(i: nat, needed: set<nat>, ghost hits: seq<nat>, misses: seq<nat>, ghost p0: Pool)
      returns (r: LoadResult, ghost ps: seq<Pool>, ghost ss: seq<nat>)
      requires Apart() && i < |layers| == |p0.layers| && Loading(cfg, p0, S(), i, needed, Members(hits))
      requires Split(p0.layers[i].sbAt, needed, hits, misses)
      requires i < |cfg.weights| && forall e :: e in needed ==> e < |cfg.weights[i]|
      modifies this`hashOf, this`cache, this`lru, this`mem, this`relocations, this`holder, layers[i]
      ensures Valid({}) && Staying(p0, S(), i)
      ensures r.AllLoaded? ==>
                (forall e :: e in needed ==> Ready(cfg, S(), i, e)) && LoadDone(p0.layers[i], layers[i].View(), needed)
      ensures !r.AllLoaded? ==> LoadFailed(p0.layers[i], layers[i].View(), needed)
      ensures r.LoadExhausted? ==> forall e :: e in layers[i].sbAt ==> KeptBy(p0.layers[i], needed, e)
      ensures cfg.F > 0 && |refs| == cfg.pages && (r.LoadIndexError? ==> cfg.pages % cfg.F != 0)
      ensures r.LoadExhausted? ==> |LiveFree(cfg, refs)| < |KeepSet(p0.layers[i], needed)|
      ensures r.AllLoaded? ==> |KeepSet(p0.layers[i], needed)| <= |LiveFree(cfg, refs)|
      ensures Loads(cfg, ps, ss, i, needed, misses, Settings()) && ps[0] == old(S())
      ensures EndsIn(cfg, ps, ss, i, needed, misses, r, S())
    {
      hide Inv, Staying, Ready, Loading, Undoing, LiveFree, LoadDone, LoadFailed, KeptBy, KeepSet, Views, Claims,
           Split, DoneSoFar, Members, Loads, LoadStep, Crowded, Stuck, UndoAll;
      ps, ss := [S()], [];
      LoadsStart(cfg, S(), i, needed, misses, Settings());
      ghost var done := Members(hits);
      var claimed: seq<nat> := [];
      assert DoneSoFar(done, hits, misses, 0) by { DoneStart(hits, misses); }
      LoadingFacts(cfg, p0, S(), i, needed, done, misses);
      for n := 0 to |misses|
        invariant Apart() && Loading(cfg, p0, S(), i, needed, done) && DoneSoFar(done, hits, misses, n)
        invariant |claimed| == n && Claims(S(), i, misses, claimed)
        invariant Loads(cfg, ps, ss, i, needed, misses, Settings()) && ss == claimed && |ps| == n + 1
        invariant ps[0] == old(S()) && ps[n] == S()
      {
        NotYet(cfg, p0, S(), i, needed, done, hits, misses, n);
        var room := LoadOne(i, needed, misses, claimed, p0, done);
        if !room.Room? {
          ghost var p := S();
          UndoSet(p0, i, needed, hits, misses, n, done);
          UndoStart(cfg, p0, p, i, needed, done);
          AbandonLoads(i, misses, claimed, p0);
          UndoneIsFailed(cfg, p0, p, i, needed, done, Members(misses[..n]), layers[i].View());
          r := if room.Exhausted? then LoadExhausted else LoadIndexError;
          return;
        }
        LoadsNext(cfg, ps, ss, i, needed, misses, Settings(), S(), room.s);
        ps, ss := ps + [S()], ss + [room.s];
        claimed := claimed + [room.s];
        DoneNext(done, hits, misses, n);
        done := done + {misses[n]};
      }
      LoadingFacts(cfg, p0, S(), i, needed, done, misses);
      RoomWasThere(cfg, p0, S(), i, needed, done, hits, misses);
      r := AllLoaded;
    }

    method Partition(i: nat, needed: seq<nat>) returns (hits: seq<nat>, misses: seq<nat>)
      requires i < |layers|
      requires forall j, k :: 0 <= j < k < |needed| ==> needed[j] != needed[k]
      ensures Split(layers[i].sbAt, Members(needed), hits, misses)
      ensures hits == Residents(needed, layers[i].sbAt) && misses == Missing(needed, layers[i].sbAt)
    {
      hide Residents, Missing;
      hits, misses := [], [];
      PartitionNone(needed, layers[i].sbAt);
      for n := 0 to |needed|
        invariant hits == Residents(needed[..n], layers[i].sbAt) && misses == Missing(needed[..n], layers[i].sbAt)
        invariant forall e :: e in hits <==> e in needed[..n] && e in layers[i].sbAt
        invariant forall e :: e in misses <==> e in needed[..n] && e !in layers[i].sbAt
        invariant forall j, k :: 0 <= j < k < |misses| ==> misses[j] != misses[k]
      {
        PartitionNext(needed, layers[i].sbAt, n);
        if needed[n] in layers[i].sbAt {
          hits := hits + [needed[n]];
        } else {
          misses := misses + [needed[n]];
        }
        assert needed[..n + 1] == needed[..n] + [needed[n]];
      }
      assert needed[..|needed|] == needed;
    }

    // ----- Taking pages for KV -----

    /** The coldest expert that layers hold at a super-block. */
    method ColdestHolder(s: nat, ghost taken: set<nat>) returns (any: bool, step: int)
      requires Valid(taken) && s in holder && !Pinned(S().layers, s)
      ensures any ==> exists i: nat, e :: Reclaimable(S(), i, e) && S().layers[i].sbAt[e.key] == s && e.step == step
      ensures forall i: nat, e :: Reclaimable(S(), i, e) && S().layers[i].sbAt[e.key] == s ==> any && step <= e.step
    {
      hide Inv, StepOf, Pinned, Views;
      forall i: nat, e | Reclaimable(S(), i, e) && S().layers[i].sbAt[e.key] == s
        ensures i in holder[s] && s in S().layers[i].expertAt && S().layers[i].expertAt[s] == e.key
      {
        ReclaimableHome(cfg, S(), taken, i, e);
      }
      any, step := false, 0;
      var rest := holder[s];
      while rest != {}
        invariant rest <= holder[s]
        invariant any ==> exists i: nat, e :: Reclaimable(S(), i, e) && S().layers[i].sbAt[e.key] == s && e.step == step
        invariant forall i: nat, e ::
                    Reclaimable(S(), i, e) && S().layers[i].sbAt[e.key] == s && i in holder[s] - rest ==>
                      any && step <= e.step
        decreases rest
      {
        var i :| i in rest;
        HolderReclaimable(cfg, S(), taken, i, s);
        ExpertStep(cfg, S(), taken, i, s);
        rest := rest - {i};
        var t := StepOf(layers[i].lru, layers[i].expertAt[s]);
        if !any || t < step {
          any, step := true, t;
        }
      }
    }

    /** The super-block with the globally coldest expert among those no layer pins. */
    method OldestGlobalExpert(ghost taken: set<nat>) returns (found: bool, best: nat, step: int)
      requires Valid(taken)
      ensures found ==> best in holder && !Pinned(S().layers, best) && ColdestExpert(S(), step)
      ensures found ==>
                exists i: nat, e :: Reclaimable(S(), i, e) && S().layers[i].sbAt[e.key] == best && e.step == step
      ensures !found ==> forall i: nat, e :: !Reclaimable(S(), i, e)
    {
      hide Inv, Pinned, Views;
      forall i: nat, e | Reclaimable(S(), i, e) ensures S().layers[i].sbAt[e.key] in holder {
        ReclaimableHome(cfg, S(), taken, i, e);
      }
      found, best, step := false, 0, 0;
      var rest := holder.Keys;
      while rest != {}
        invariant rest <= holder.Keys
        invariant found ==> best in holder && !Pinned(S().layers, best)
        invariant found ==>
                    exists i: nat, e :: Reclaimable(S(), i, e) && S().layers[i].sbAt[e.key] == best && e.step == step
        invariant forall i: nat, e :: Reclaimable(S(), i, e) && S().layers[i].sbAt[e.key] !in rest ==>
                    found && step <= e.step
        decreases rest
      {
        var s :| s in rest;
        rest := rest - {s};
        var pins := AnyLayerPins(s);
        if !pins {
          var any, t := ColdestHolder(s, taken);
          if any && (!found || t < step) {
            found, best, step := true, s, t;
          }
        }
      }
    }

    /** The first truly free page of the queue. */
    method FirstTrulyFree() returns (found: bool, x: nat)
      requires cfg.F > 0
      ensures found ==> FirstFree(cfg, S(), x)
      ensures !found ==> forall y :: !TrulyFree(cfg, S(), y)
    {
      hide Sb, Pinned;
      for n := 0 to |queue|
        invariant forall k :: 0 <= k < n ==> !TrulyFree(cfg, S(), queue[k])
      {
        var s := Sb(cfg, queue[n]);
        var pins := AnyLayerPins(s);
        if queue[n] !in hashOf && s !in holder && !pins {
          return true, queue[n];
        }
      }
      return false, 0;
    }

    /** The coldest cached page outside every pinned super-block. */
    method OldestSparePrefix() returns (found: bool, f: Entry)
      requires cfg.F > 0 && Sorted(lru)
      ensures found ==> Spare(cfg, S(), f) && ColdestSpare(cfg, S(), f.step)
      ensures !found ==> forall g :: !Spare(cfg, S(), g)
    {
      hide Sb, Pinned;
      for n := 0 to |lru|
        invariant forall k :: 0 <= k < n ==> !Spare(cfg, S(), lru[k])
      {
        var pins := AnyLayerPins(Sb(cfg, lru[n].key));
        if !pins {
          return true, lru[n];
        }
      }
      return false, Entry(0, 0);
    }

    /** Evicts the experts of a super-block and takes its first page. */
    method TakePageEvictingExpert(s: nat, ghost p0: Pool, ghost taken: set<nat>) returns (x: nat)
      requires Apart() && Picking(cfg, p0, S(), taken) && s in holder && !Pinned(S().layers, s)
      modifies this`queue, this`holder, layers
      ensures x == s * cfg.F && Sb(cfg, x) == s && x !in taken && Picking(cfg, p0, S(), taken + {x})
      ensures S() == TakePage(cfg, old(S()), x)
    {
      hide Inv, Sb, Picking, Pinned, Views, QueueRemove, DropAll, Take;
      FirstPage(cfg, p0, S(), taken, s);
      PickingDrop(cfg, p0, S(), taken, s);
      BroadcastDropAllLayers(s, taken);
      x := s * cfg.F;
      FirstPageAfter(cfg, p0, S(), taken, x);
      queue := QueueRemove(queue, x);
    }

    method TakePrefixPage(x: nat)
      modifies this`queue, this`lru
      ensures S() == Take(old(S()), x) && (NoRepeats(old(queue)) ==> queue == Except(old(queue), {x}))
    {
      hide QueueRemove, NoRepeats, Except;
      if NoRepeats(queue) {
        RemoveIsExcept(queue, x);
      }
      queue := QueueRemove(queue, x);
      lru := Remove(lru, x);
    }

    /** Picks one page for KV and takes it off the free queue; fails exactly when every
        free page lies in a super-block that some layer pins. */
    method PickOneKvVictim(ghost p0: Pool, ghost taken: set<nat>) returns (found: bool, x: nat)
      requires Apart() && Picking(cfg, p0, S(), taken)
      modifies this`queue, this`lru, this`holder, layers
      ensures found ==> x !in taken && Picking(cfg, p0, S(), taken + {x}) && cfg.F > 0 && Preferred(cfg, old(S()), x)
      ensures found ==> S() == TakePage(cfg, old(S()), x)
      ensures !found ==> S() == old(S()) && cfg.F > 0 && Usable(cfg, S()) == {}
    {
      hide Inv, Sb, Picking, Pinned, Views, QueueRemove, Remove, ColdestExpert, ColdestSpare, TrulyFree, Spare, Take,
           Preferred, TakePage;
      ghost var p := S();
      PickingFacts(cfg, p0, p, taken);
      var free, y := FirstTrulyFree();
      if free {
        PickFree(cfg, p0, p, taken, y);
        queue := QueueRemove(queue, y);
        return true, y;
      }
      var expert, s, expertStep := OldestGlobalExpert(taken);
      assert S() == p;
      var prefix, f := OldestSparePrefix();
      assert S() == p;
      if expert && (!prefix || expertStep <= f.step) {
        x := TakePageEvictingExpert(s, p0, taken);
        PreferExpert(cfg, p, x, s, expertStep, prefix, f);
        return true, x;
      }
      if prefix {
        PickPrefix(cfg, p0, p, taken, f, expert, expertStep);
        TakePrefixPage(f.key);
        return true, f.key;
      }
      NothingUsable(cfg, p, taken);
      return false, 0;
    }

    /** Picks n pages one after the other, stopping when none is left. */
    method SelectKvVictimBlocks(n: nat) returns (ok: bool, ids: seq<nat>)
      requires Valid({})
      modifies this`queue, this`lru, this`holder, layers
      ensures Picking(cfg, old(S()), S(), Members(ids)) && NoRepeats(ids)
      ensures cfg.F > 0 && if ok then |ids| == n else |ids| < n && Members(ids) == Usable(cfg, old(S()))
      ensures S() == TakeAll(cfg, old(S()), ids) && PreferredEach(cfg, old(S()), ids)
      ensures queue == Except(old(queue), Members(ids)) && OthersKept(old(S()).layers, S().layers, Homes(cfg, ids))
    {
      hide Inv, Picking, Views, Usable, Preferred, TakePage, PreferredEach, OthersKept, Homes, Except;
      ghost var p0 := S();
      PickingStart(cfg, p0);
      ids := [];
      PickingFacts(cfg, p0, p0, Members(ids));
      NoPreference(cfg, p0);
      NoneGone(cfg, p0, {});
      HomesNext(cfg, [], 0);
      QueueFacts(cfg, p0, 0);
      for k := 0 to n
        invariant Apart() && Picking(cfg, p0, S(), Members(ids)) && NoRepeats(ids) && |ids| == k
        invariant cfg.F > 0 && S() == TakeAll(cfg, p0, ids) && PreferredEach(cfg, p0, ids)
        invariant OthersKept(p0.layers, S().layers, Homes(cfg, ids))
      {
        ghost var p := S();
        PickingFacts(cfg, p0, p, Members(ids));
        var found, x := PickOneKvVictim(p0, Members(ids));
        if !found {
          AllTaken(cfg, p0, S(), Members(ids));
          TakeAllQueue(cfg, p0, ids);
          return false, ids;
        }
        TakenKept(cfg, p0, p, ids, x, Members(ids));
        AppendPick(ids, x);
        TakeNext(cfg, p0, ids, x);
        ids := ids + [x];
      }
      PickingFacts(cfg, p0, S(), Members(ids));
      TakeAllQueue(cfg, p0, ids);
      return true, ids;
    }

    /** The selected pages lose their hash and become live. */
    method ClaimBlocks(ids: seq<nat>, ghost p0: Pool)
      requires Apart() && Granting(cfg, p0, S(), ids, 0)
      modifies this`refs, this`hashOf, this`cache, this`lru
      ensures Granting(cfg, p0, S(), ids, |ids|)
      ensures (forall j :: 0 <= j < |ids| ==> ids[j] < old(|refs|)) && S() == AllocateAll(old(S()), ids)
    {
      hide Inv, Granting, Views, Allocate, AllocateAll, Members;
      ghost var p := S();
      GrantSizes(cfg, p0, p, ids, 0);
      AllocateNone(p, ids);
      for k := 0 to |ids|
        invariant Apart() && Granting(cfg, p0, S(), ids, k)
        invariant (forall j :: 0 <= j < |ids| ==> ids[j] < |p.refs|) && S() == AllocateAll(p, ids[..k])
      {
        var x := ids[k];
        AllocateNext(p, ids, k);
        GrantStep(cfg, p0, S(), ids, k);
        ClaimBlock(x, Members(ids[k..]));
      }
      assert ids[..|ids|] == ids;
    }

    method ClaimBlock(x: nat, ghost taken: set<nat>)
      requires Valid(taken) && x < |refs|
      modifies this`refs, this`hashOf, this`cache, this`lru
      ensures S() == Allocate(old(S()), x)
    {
      hide Inv, EvictHash, Views;
      EvictPrefixGlobally(x, taken);
      refs := refs[x := refs[x] + 1];
    }

    /** The allocation callback: nothing is left to drop around a page that has gone live. */
    method OnKvAllocation(ids: seq<nat>)
      requires Valid({}) && forall x :: x in ids ==> 0 < x < cfg.pages && x < |refs| && refs[x] > 0
      modifies this`holder, layers
      ensures Valid({}) && S() == old(S())
    {
      hide Inv, Sb, Pinned, DropAll, Views;
      Sized(cfg, S());
      var seen: set<nat> := {};
      for k := 0 to |ids|
        invariant Valid({}) && S() == old(S())
      {
        var s := Sb(cfg, ids[k]);
        if s !in seen {
          seen := seen + {s};
          assert ids[k] in ids;
          LiveNotHeld(cfg, S(), ids[k]);
          NothingHeld(S(), s);
          BroadcastDropAllLayers(s, {});
        }
      }
    }

    /** Hands out n pages as live KV blocks.  It succeeds exactly when n free pages lie
        outside the pinned super-blocks; when it runs out half way, every page it could
        use has left the free queue for good. */
    method GetNewBlocks(n: nat) returns (r: NewBlocks)
      requires Valid({})
      modifies this`refs, this`hashOf, this`cache, this`queue, this`lru, this`holder, layers
      ensures cfg.F > 0 && (r.TooFewFree? <==> n > |old(queue)|)
      ensures r.TooFewFree? ==> S() == old(S())
      ensures r.Blocks? <==> n <= |Usable(cfg, old(S()))|
      ensures r.Blocks? ==> Valid({}) && |r.ids| == n && Granted(cfg, old(S()), S(), r.ids)
      ensures r.Blocks? ==> HandedOut(cfg, old(S()), S(), r.ids) && queue == Except(old(queue), Members(r.ids))
      ensures r.Blocks? ==> OthersKept(old(S()).layers, S().layers, Homes(cfg, r.ids))
      ensures r.KvExhausted? ==> queue == Except(old(queue), Usable(cfg, old(S())))
      ensures r.KvExhausted? ==> Picking(cfg, old(S()), S(), Usable(cfg, old(S())))
      ensures r.KvExhausted? ==> (Valid({}) <==> Usable(cfg, old(S())) == {})
    {
      hide Inv, Picking, Views, Usable, Granting, Granted, NoRepeats, Members, PreferredEach, TakeAll, AllocateAll,
           OthersKept, Homes, Except;
      ghost var p0 := S();
      UsableAreQueued(cfg, p0);
      if n > |queue| {
        return TooFewFree;
      }
      var ok, ids := SelectKvVictimBlocks(n);
      MembersSize(ids);
      if !ok {
        LeakIffTaken(cfg, p0, S(), Members(ids));
        return KvExhausted;
      }
      GrantStart(cfg, p0, S(), ids);
      ghost var taken := S();
      ClaimBlocks(ids, p0);
      AllocateAllQueue(taken, ids);
      GrantEnd(cfg, p0, S(), ids);
      OnKvAllocation(ids);
      return Blocks(ids);
    }

    // ----- The block pool's operations -----

    /** Drops one reference of every block, then queues those nobody references, then
        stamps the ones that carry a hash. */
    method FreeBlocks(ids: seq<nat>)
      requires InRange(refs, ids)
      modifies this`refs, this`queue, this`lru
      ensures S() == FreePasses(old(S()), ids)
      ensures old(Valid({})) && Freeable(old(refs), ids) ==> FreedAtEnd(old(S()), S(), ids)
    {
      hide Touch, Decrement, NewlyFreed, StampAll, Inv, Freeable, FreedAtEnd;
      if Inv(cfg, S(), {}) && Freeable(refs, ids) {
        FreePassesAre(cfg, S(), ids);
      }
      PassStart(refs, hashOf, lru, step);
      for k := 0 to |ids|
        invariant |refs| == |old(refs)| && refs == Decrement(old(refs), ids[..k])
        invariant queue == old(queue) && lru == old(lru)
      {
        DecrementNext(old(refs), ids, k);
        refs := refs[ids[k] := refs[ids[k]] - 1];
      }
      assert ids[..|ids|] == ids;
      var freed := [];
      ghost var less := refs;
      for k := 0 to |ids|
        invariant refs == less && queue == old(queue) && lru == old(lru)
        invariant freed == NewlyFreed(refs, ids[..k])
      {
        FreedNext(refs, ids, k);
        if refs[ids[k]] == 0 && ids[k] != 0 {
          freed := freed + [ids[k]];
        }
      }
      queue := queue + freed;
      for k := 0 to |freed|
        invariant refs == less && queue == old(queue) + freed
        invariant lru == StampAll(old(lru), hashOf, freed[..k], step)
      {
        StampNext(old(lru), hashOf, freed, step, k);
        if freed[k] in hashOf {
          lru := Touch(lru, freed[k], step);
        }
      }
      assert freed[..|freed|] == freed;
    }

    /** Every block gains a reference; those that were free leave the queue. */
    method TouchBlocks(ids: seq<nat>)
      requires Touchable(cfg, S(), ids)
      modifies this`refs, this`queue, this`lru
      ensures S() == TouchAll(old(S()), ids)
      ensures old(Valid({})) ==>
                queue == Except(old(queue), Members(ids)) &&
                forall y :: 0 <= y < |refs| ==> refs[y] == old(refs)[y] + multiset(ids)[y]
    {
      hide TouchAll, QueueRemove, Remove, Views, Inv, Except, Members;
      ghost var p0 := S();
      if Inv(cfg, p0, {}) {
        TouchAllIs(cfg, p0, ids);
      }
      TouchStart(p0);
      for k := 0 to |ids|
        invariant |refs| == |p0.refs| && S() == TouchAll(p0, ids[..k])
      {
        var x := ids[k];
        TouchNext(p0, ids, k);
        if refs[x] == 0 && x != 0 {
          TakePrefixPage(x);
        }
        refs := refs[x := refs[x] + 1];
      }
      assert ids[..|ids|] == ids;
    }

    method EvictBlocks(ids: seq<nat>)
      requires Valid({})
      modifies this`hashOf, this`cache, this`lru
      ensures Valid({}) && S() == EvictAll(old(S()), ids)
    {
      hide Inv, EvictAll, EvictHash, Views;
      ghost var p0 := S();
      EvictStart(p0);
      for k := 0 to |ids|
        invariant Valid({}) && S() == EvictAll(p0, ids[..k])
      {
        EvictNext(p0, ids, k);
        EvictPrefixGlobally(ids[k], {});
      }
      assert ids[..|ids|] == ids;
    }

    /** Looks a prefix up: any page found holds the bytes of the prefix in every buffer. */
    method GetCachedBlock(h: nat) returns (found: bool, x: nat)
      requires Valid({})
      ensures found <==> exists y :: y in hashOf && hashOf[y] == h
      ensures found ==> 0 < x < cfg.pages && |cfg.kv(h)| == |mem|
      ensures found ==> forall b :: 0 <= b < |mem| ==> |mem[b]| == cfg.pages && mem[b][x] == cfg.kv(h)[b]
    {
      CacheFacts(cfg, S());
      hide Inv;
      if h !in cache {
        return false, 0;
      }
      x :| x in cache[h];
      HitHoldsBytes(cfg, S(), h, x);
      return true, x;
    }

    /** Clears every hash if no block is in use; the recency list is left alone. */
    method ResetPrefixCache() returns (done: bool)
      requires Valid({})
      modifies this`hashOf, this`cache
      ensures done <==> |old(queue)| == cfg.pages - 1
      ensures S() == if done then ResetHashes(old(S())) else old(S())
      ensures done ==> hashOf == map[] && cache == map[]
      ensures Valid({}) <==> (done ==> old(hashOf) == map[])
    {
      hide Inv;
      ghost var p := S();
      if cfg.pages - |queue| != 1 {
        return false;
      }
      ResetWhenIdle(cfg, p);
      cache := map[];
      hashOf := map[];
      return true;
    }

    // ----- Whole runs -----

    /** A forward pass of layer i up to the kernel and back: load, compute, release, tick. */
    method ForwardPass(i: nat, needed: seq<nat>)
      returns (r: LoadResult, ghost m: Pool, ghost ps: seq<Pool>, ghost ss: seq<nat>)
      requires Sound(cfg, S()) && Apart() && i < |layers|
      requires forall k :: 0 <= k < |needed| ==> needed[k] < |layers[i].table|
      requires forall j, k :: 0 <= j < k < |needed| ==> needed[j] != needed[k]
      modifies this`hashOf, this`cache, this`lru, this`mem, this`relocations, this`holder, this`step, layers[i]
      ensures Safe(cfg, old(S()), S(), Forward(i, needed)) && Shape(cfg, old(S()))
      ensures PassedThrough(cfg, old(S()), m, S(), i, needed, OutcomeOf(r))
      ensures LoadedBy(cfg, old(S()), m, i, needed, r, ps, ss, Settings())
      ensures r.AllLoaded? ==> |needed| <= |LiveFree(cfg, old(refs))|
      ensures r.LoadExhausted? ==> |LiveFree(cfg, old(refs))| < |needed|
      ensures r.LoadIndexError? ==> cfg.pages % cfg.F != 0
    {
      hide Inv, Staying, Ready, Safe, Views, LiveFree, LoadDone, LoadFailed, KeptBy, KeepSet, Members, LoadedBy;
      ghost var p0 := S();
      ShapeOf(cfg, p0);
      OnlyNeeded(p0.layers[i], Members(needed));
      MembersSize(needed);
      r, ps, ss := EnsureLoaded(i, needed);
      m := S();
      ForwardSafe(cfg, p0, m, i, needed, if r.AllLoaded? then 1 else 0);
      SameStep(p0, m, i);
      ReleasePinned(i);
      if r.AllLoaded? {
        step := step + 1;
      }
    }

    /** One operation, if its caller may ask for it now. */
    method Perform(op: Op) returns (o: Outcome)
      requires Sound(cfg, S()) && Apart()
      modifies this, layers
      ensures Safe(cfg, old(S()), S(), op) && Shape(cfg, old(S())) && Step(cfg, old(S()), S(), op, o, Settings())
    {
      hide Inv, Safe, Views, Granted, Usable, FreePasses, TouchAll, EvictAll, WritePage, CacheInsert, Picking,
           PassedThrough, LiveFree, HandedOut, LoadedBy, Except, OthersKept, Homes, FreedAtEnd, Members;
      ghost var p := S();
      Sized(cfg, p);
      BufferSizes(cfg, p);
      TableSizes(cfg, p);
      SkippedSafe(cfg, p, op);
      o := Fine;
      if !Allowed(cfg, refs, hashOf, mem, op) {
        return Skipped;
      }
      match op
      case Forward(i, needed) =>
        var r;
        ghost var m, ps, ss;
        r, m, ps, ss := ForwardPass(i, needed);
        o := OutcomeOf(r);
        assert PassedThrough(cfg, p, m, S(), i, needed, o) && LoadedBy(cfg, p, m, i, needed, r, ps, ss, Settings());
      case NewKv(n) =>
        NoPinsAllUsable(cfg, p);
        var r := GetNewBlocks(n);
        o := if r.Blocks? then Fine else NotEnoughBlocks;
        if r.Blocks? {
          GrantedSafe(cfg, p, S(), r.ids);
        }
      case FreeKv(ids) =>
        MayFree(cfg, refs, ids);
        FreeSafe(cfg, p, ids);
        FreeBlocks(ids);
      case HitKv(ids) =>
        HitSafe(cfg, p, ids);
        TouchBlocks(ids);
      case CacheKv(x, h) =>
        assert Holding(cfg, mem, x, h);
        CacheSafe(cfg, p, x, h);
        cache, hashOf := CacheInsert(cache, h, x), hashOf[x := h];
      case WriteKv(x, data) =>
        WriteSafe(cfg, p, x, data);
        mem := WritePage(mem, x, data);
      case EvictKv(ids) =>
        EvictSafe(cfg, p, ids);
        EvictBlocks(ids);
    }

    /** Any run of operations: each does the step of the source and reports how it went, the
        pool is sound after every one, and every live page that no operation of the run
        frees or overwrites is left alone. */
    method Run(ops: seq<Op>) returns (outcomes: seq<Outcome>, ghost states: seq<Pool>)
      requires Sound(cfg, S()) && Apart()
      modifies this, layers
      ensures |outcomes| == |ops| && Trace(cfg, states, ops, outcomes, Settings())
      ensures states[0] == old(S()) && states[|ops|] == S()
      ensures Sound(cfg, S())
      ensures forall x :: (forall k :: 0 <= k < |ops| ==> Spares(ops[k], x)) ==> Unharmed(old(S()), S(), x)
    {
      hide Inv, Safe, Sound, Views, Unharmed, Spares, Trace, Step, Shape;
      outcomes := [];
      ghost var p0 := S();
      states := [p0];
      RunStart(cfg, p0);
      TraceStart(cfg, p0, ops, Settings());
      for n := 0 to |ops|
        invariant Sound(cfg, S()) && |outcomes| == n && |states| == n + 1 && Apart()
        invariant Trace(cfg, states, ops, outcomes, Settings()) && states[0] == p0 && states[n] == S()
        invariant forall x :: (forall k :: 0 <= k < n ==> Spares(ops[k], x)) ==> Unharmed(p0, S(), x)
      {
        ghost var p := S();
        var o := Perform(ops[n]);
        RunStep(cfg, p, S(), ops[n]);
        forall x | forall k :: 0 <= k < n + 1 ==> Spares(ops[k], x) ensures Unharmed(p0, S(), x) {
          assert Spares(ops[n], x);
          UnharmedStep(p0, p, S(), x);
        }
        TraceNext(cfg, states, ops, outcomes, S(), o, Settings());
        outcomes, states := outcomes + [o], states + [S()];
      }
    }
  }
}
