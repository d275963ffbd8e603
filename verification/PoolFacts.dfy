/** What the pool's invariant says of one page, one layer or one expert. */
module PoolFacts {
  import opened Recency
  import opened PoolState
  import opened PoolSteps

  lemma Positive(c: Config, p: Pool, taken: set<nat>)
    requires Inv(c, p, taken)
    ensures c.F > 0
  {
  }

  lemma Sized(c: Config, p: Pool)
    requires Inv(c, p, {})
    ensures c.F > 0 && |p.refs| == c.pages && |p.layers| == |c.weights| <= |p.mem|
  {
  }

  lemma QueuedHashed(c: Config, p: Pool, x: nat)
    requires Inv(c, p, {}) && x in p.queue && x in p.hashOf
    ensures x in Keys(p.lru)
  {
    hide LayersOk, HolderOk, KvBytes, ExpertBytes, Sb, Keys, CacheOk, Exclusive, QueueOk;
  }

  lemma LruPages(c: Config, p: Pool, x: nat, taken: set<nat>)
    requires Inv(c, p, taken) && x in Keys(p.lru)
    ensures c.F > 0 && x in p.queue && x in p.hashOf && 0 < x < c.pages && Sb(c, x) !in p.holder
    ensures Distinct(p.lru)
  {
    hide LayersOk, HolderOk, KvBytes, ExpertBytes, Sb, Keys, CacheOk;
  }

  lemma QueuePages(c: Config, p: Pool, x: nat, taken: set<nat>)
    requires Inv(c, p, taken) && x in p.queue
    ensures c.F > 0 && 0 < x < c.pages && p.refs[x] == 0
  {
    hide LruOk, LayersOk, HolderOk, KvBytes, ExpertBytes, Sb, CacheOk, Exclusive;
  }

  lemma DistinctLru(c: Config, p: Pool)
    requires Inv(c, p, {})
    ensures Distinct(p.lru) && Sorted(p.lru)
  {
    hide LayersOk, HolderOk, ExpertBytes, Sb, CacheOk, Exclusive, QueueOk, Keys;
  }

  lemma InKeys(l: seq<Entry>, e: Entry)
    requires e in l
    ensures e.key in Keys(l)
  {
  }

  lemma LayerFacts(c: Config, p: Pool, i: nat, taken: set<nat>)
    requires Inv(c, p, taken) && i < |p.layers|
    ensures c.F > 0 && |p.layers| == |c.weights| <= |p.mem| && LayerOk(c, |c.weights[i]|, p.layers[i], p.step)
    ensures |p.layers[i].table| == |c.weights[i]|
    ensures forall s :: s in p.layers[i].expertAt ==> p.layers[i].expertAt[s] < |p.layers[i].table|
  {
  }

  lemma HoldersAreLayers(c: Config, p: Pool, s: nat, taken: set<nat>)
    requires Inv(c, p, taken) && s in p.holder && !Pinned(p.layers, s)
    ensures forall i :: i in p.holder[s] ==>
                          i < |p.layers| && s in p.layers[i].expertAt && s !in p.layers[i].pinned &&
                          p.layers[i].expertAt[s] < |p.layers[i].table|
  {
    assert p.holder[s] == Holders(p.layers, s);
    forall i | i in p.holder[s] ensures p.layers[i].expertAt[s] < |p.layers[i].table| {
      LayerFacts(c, p, i, taken);
    }
  }

  lemma NothingHeld(p: Pool, s: nat)
    requires s !in p.holder
    ensures DropAll(p, s) == p
  {
  }

  lemma DropAllIs(p: Pool, s: nat, ls: seq<Layer>)
    requires s in p.holder && |ls| == |p.layers|
    requires forall i :: 0 <= i < |ls| ==> ls[i] == if i in p.holder[s] then DropExpert(p.layers[i], s) else p.layers[i]
    ensures p.(holder := p.holder - {s}, layers := ls) == DropAll(p, s)
  {
    hide DropExpert;
    assert ls == DropAll(p, s).layers;
  }

  /** Pages outside the free queue keep their bytes in every buffer. */
  ghost predicate SameLiveBytes(p: Pool, mem: seq<seq<Bytes>>) {
    |mem| == |p.mem| &&
    forall b :: 0 <= b < |mem| ==>
      |mem[b]| == |p.mem[b]| && forall x :: 0 <= x < |mem[b]| && x !in p.queue ==> mem[b][x] == p.mem[b][x]
  }

  /** Where a resident expert sits: a super-block of free, unhashed pages. */
  lemma Mapping(c: Config, p: Pool, i: nat, e: nat, taken: set<nat>)
    requires Inv(c, p, taken) && i < |p.layers| && e in p.layers[i].sbAt
    ensures
      var s := p.layers[i].sbAt[e];
      && c.F > 0 && 0 < s < SuperBlocks(c) && s in p.layers[i].expertAt && p.layers[i].expertAt[s] == e
      && s in p.holder && i in p.holder[s] && e < |p.layers[i].table| == |c.weights[i]| && p.layers[i].table[e] == s
      && (forall x: nat :: x < c.pages && Sb(c, x) == s ==> x in p.queue && x !in p.hashOf)
    ensures SameLiveBytes(p, p.mem)
  {
    LayerFacts(c, p, i, taken);
    Held(p.layers, p.holder, i, p.layers[i].sbAt[e]);
    hide LruOk, CacheOk, LayersOk, HolderOk, KvBytes, ExpertBytes, QueueOk, Sb, ConfigOk, ExpertLruOk;
  }

  lemma InLayer(c: Config, p: Pool, i: nat, s: nat)
    requires Inv(c, p, {}) && i < |p.layers|
    ensures s in p.layers[i].pinned ==> s in p.layers[i].expertAt
    ensures s in p.layers[i].expertAt ==> s in p.holder
    ensures s in p.layers[i].expertAt ==>
              p.layers[i].expertAt[s] in p.layers[i].sbAt && p.layers[i].sbAt[p.layers[i].expertAt[s]] == s
  {
    LayerFacts(c, p, i, {});
    if s in p.layers[i].expertAt {
      Held(p.layers, p.holder, i, s);
    }
  }

  /** A page is the null page, live, or free. */
  lemma FreeOrLive(c: Config, p: Pool, x: nat)
    requires Inv(c, p, {}) && 0 < x < c.pages
    ensures p.refs[x] > 0 || x in p.queue
  {
    hide LruOk, LayersOk, HolderOk, KvBytes, ExpertBytes, Sb, CacheOk, Exclusive;
  }

  lemma HeldSuperBlock(c: Config, p: Pool, taken: set<nat>, s: nat)
    requires Inv(c, p, taken) && s in p.holder
    ensures c.F > 0 && 0 < s < SuperBlocks(c)
    ensures forall x: nat :: x < c.pages && Sb(c, x) == s ==> x in p.queue && x !in p.hashOf
  {
    hide LruOk, CacheOk, LayersOk, HolderOk, KvBytes, ExpertBytes, QueueOk, Sb, ConfigOk, LayerOk, SuperBlocks;
    var k := AHolder(p.layers, p.holder, s);
    LayerFacts(c, p, k, taken);
    HeldRange(c, |c.weights[k]|, p.layers[k], p.step, s);
  }

  lemma AHolder(layers: seq<Layer>, holder: map<nat, set<nat>>, s: nat) returns (k: nat)
    requires HolderOk(layers, holder) && s in holder
    ensures k < |layers| && s in layers[k].expertAt && k in holder[s]
  {
    k :| k in holder[s];
    assert k in Holders(layers, s);
  }

  lemma HeldRange(c: Config, experts: nat, l: Layer, step: nat, s: nat)
    requires c.F > 0 && LayerOk(c, experts, l, step) && s in l.expertAt
    ensures 0 < s < SuperBlocks(c)
  {
  }
}
