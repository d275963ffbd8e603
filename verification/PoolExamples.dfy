/** Small pools on which the manager does what its documentation does not say. */
module PoolExamples {
  import opened Recency
  import opened PoolState
  import opened PoolQueries
  import opened PoolFacts
  import opened PoolOps
  import opened ExpertLoad
  import opened KvVictim
  import opened UnifiedPool

  /** Three pages, one to a super-block, and one layer with five experts; all pages free. */
  ghost predicate Tiny(m: Manager)
    reads m, m.layers
  {
    && m.Valid({}) && m.cfg.F == 1 && m.cfg.pages == 3 && m.refs == seq(3, _ => 0)
    && |m.layers| == 1 && |m.layers[0].table| == 5 && m.layers[0].pinned == {}
  }

  method TinyPool() returns (m: Manager)
    ensures Tiny(m) && fresh(m) && fresh(m.layers) && m.layers[0].sbAt == map[]
  {
    hide Inv, Sound;
    var c := Config(3, 1, [[[[]], [[]], [[]], [[]], [[]]]], h => [[]]);
    m := new Manager(c, [[[], [], []]], true, false);
  }

  lemma TwoLiveFree(c: Config, refs: seq<int>)
    requires c.F == 1 && c.pages == 3 && refs == seq(3, _ => 0)
    ensures |LiveFree(c, refs)| == 2
  {
    assert SuperBlocks(c) == 3;
    assert LiveFree(c, refs) == {1, 2};
  }

  /** Loads experts into the tiny pool and releases the pins: two fit, three do not. */
  method LoadTiny(m: Manager, needed: seq<nat>) returns (r: LoadResult)
    requires Tiny(m) && (forall k :: 0 <= k < |needed| ==> needed[k] < 5)
    requires forall j, k :: 0 <= j < k < |needed| ==> needed[j] != needed[k]
    modifies m, m.layers
    ensures Tiny(m)
    ensures if |needed| <= 2 then r.AllLoaded? else r.LoadExhausted?
    ensures r.AllLoaded? ==> forall e :: e in needed ==> e in m.layers[0].sbAt
    ensures forall e :: e in m.layers[0].sbAt ==> e in old(m.layers[0].sbAt) || (r.AllLoaded? && e in needed)
    ensures r.LoadExhausted? ==> forall e :: e in m.layers[0].sbAt ==> e in needed
  {
    hide Inv, LiveFree, Staying, Ready, Members, KeptBy, KeepSet;
    TwoLiveFree(m.cfg, m.refs);
    OnlyNeeded(m.layers[0].View(), Members(needed));
    MembersSize(needed);
    Listed(needed);
    ghost var p := m.S();
    SoundLayer(m.cfg, p, 0);
    ghost var ps, ss;
    r, ps, ss := m.EnsureLoaded(0, needed);
    SameRefs(p, m.S(), 0);
    SoundLayer(m.cfg, m.S(), 0);
    m.ReleasePinned(0);
  }

  lemma Listed(needed: seq<nat>)
    ensures forall e :: e in Members(needed) <==> e in needed
  {
  }

  lemma SameRefs(p: Pool, q: Pool, i: nat)
    requires Staying(p, q, i)
    ensures q.refs == p.refs
  {
  }

  lemma SoundLayer(c: Config, p: Pool, i: nat)
    requires Inv(c, p, {}) && i < |p.layers|
    ensures i < |c.weights| && |p.layers[i].table| == |c.weights[i]| && Inv(c, Unpin(p, i), {})
  {
    LayerFacts(c, p, i, {});
    PoolSteps.UnpinKeeps(c, p, i);
  }

  lemma TinyLayers(m: Manager)
    requires Tiny(m)
    ensures |m.layers| == 1
  {
  }

  /** Both super-blocks hold experts that are not needed now.  Asking for three others
      fails, and the two are gone. */
  method SpareExpertsLost() returns (before: map<nat, nat>, r: LoadResult, after: map<nat, nat>)
    ensures before.Keys == {0, 1} && r.LoadExhausted? && after == map[]
  {
    hide Tiny;
    var m := TinyPool();
    var first := LoadTiny(m, [0, 1]);
    assert 0 in [0, 1] && 1 in [0, 1];
    assert |m.layers| == 1 by { TinyLayers(m); }
    before := m.layers[0].sbAt;
    r := LoadTiny(m, [2, 3, 4]);
    assert |m.layers| == 1 by { TinyLayers(m); }
    after := m.layers[0].sbAt;
  }

  // ----- Pages lost to pins -----

  /** Super-block 2 holds a pinned expert; page 1 is the only free page outside it. */
  ghost function PinnedPool(): (Config, Pool) {
    (Config(3, 1, [[[[]]]], h => [[]]),
     Pool([0, 0, 0], map[], [1, 2], map[], [Layer(map[2 := 0], map[0 := 2], [2], [Entry(0, 0)], {2})],
          map[2 := {0}], [], 0, [[[], [], []]]))
  }

  lemma PinnedSound()
    ensures Inv(PinnedPool().0, PinnedPool().1, {})
  {
    hide QueueOk, LruOk, CacheOk, LayersOk, HolderOk, Exclusive, KvBytes, ExpertBytes;
    PinnedPages();
    PinnedLayer();
  }

  lemma PinnedPages()
    ensures
      var (c, p) := PinnedPool();
      && QueueOk(c, p.refs, p.queue, {}) && LruOk(p.hashOf, p.queue, p.lru, p.step)
      && ConfigOk(c, |p.mem|) && CacheOk(c, p.hashOf, p.cache) && KvBytes(c, p.hashOf, p.mem)
      && Exclusive(c, p.queue, p.hashOf, p.holder)
  {
  }

  lemma PinnedLayer()
    ensures
      var (c, p) := PinnedPool();
      && LayersOk(c, p.layers, p.step) && HolderOk(p.layers, p.holder) && ConfigOk(c, |p.mem|)
      && ExpertBytes(c, p.layers, p.mem)
  {
    var (c, p) := PinnedPool();
    assert LayersOk(c, p.layers, p.step);
    forall s: nat ensures Holders(p.layers, s) == if s == 2 then {0} else {} { }
  }

  /** Two pages are free, so an allocation of two is not refused at the start; only one of
      them can be used, and that one is lost: no sound pool has the queue that is left. */
  lemma PinnedPagesLost(q: Pool)
    requires
      var (c, p) := PinnedPool();
      Picking(c, p, q, Usable(c, p))
    ensures
      var (c, p) := PinnedPool();
      2 <= |p.queue| && |Usable(c, p)| == 1 && !Inv(c, q, {})
  {
    var (c, p) := PinnedPool();
    hide Inv, Picking;
    PinnedSound();
    assert Pinned(p.layers, 2) by { assert 2 in p.layers[0].pinned; }
    assert !Pinned(p.layers, 1);
    assert Usable(c, p) == {1};
    LeakIffTaken(c, p, q, Usable(c, p));
  }
}
