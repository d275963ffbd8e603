/**
  Each single step of the pool keeps the invariant.
 */
module PoolSteps {
  import opened Recency
  import opened PoolState

  // ----- A page loses its hash -----

  lemma EvictLru(hashOf: map<nat, nat>, queue: seq<nat>, lru: seq<Entry>, step: nat, x: nat)
    requires LruOk(hashOf, queue, lru, step)
    ensures LruOk(hashOf - {x}, queue, Remove(lru, x), step)
  {
    RemoveKeeps(lru, x);
  }

  lemma EvictCache(c: Config, hashOf: map<nat, nat>, cache: map<nat, set<nat>>, x: nat)
    requires CacheOk(c, hashOf, cache) && x in hashOf
    ensures CacheOk(c, hashOf - {x}, CacheRemove(cache, hashOf[x], x))
  {
  }

  /** Evicting a prefix page clears its hash everywhere and leaves everything else alone. */
  lemma EvictHashKeeps(c: Config, p: Pool, x: nat, taken: set<nat>)
    requires Inv(c, p, taken)
    ensures Inv(c, EvictHash(p, x), taken)
  {
    if x in p.hashOf {
      EvictLru(p.hashOf, p.queue, p.lru, p.step, x);
      EvictCache(c, p.hashOf, p.cache, x);
      hide LruOk, CacheOk, LayersOk, HolderOk, QueueOk, ExpertBytes, Sb, ConfigOk;
    }
  }

  // ----- A page moves -----

  lemma RelocateLru(hashOf: map<nat, nat>, queue: seq<nat>, lru: seq<Entry>, step: nat, src: nat, dst: nat)
    requires LruOk(hashOf, queue, lru, step)
    requires src in hashOf && src in queue && dst !in hashOf && dst in queue
    ensures LruOk((hashOf - {src})[dst := hashOf[src]], queue, Rename(lru, src, dst, step), step)
  {
    RenameKeeps(lru, src, dst, step);
    RenameInPlace(lru, src, dst, step);
    var r := Rename(lru, src, dst, step);
    forall e | e in r ensures e.step <= step {
      var k :| 0 <= k < |r| && r[k] == e;
      assert lru[k] in lru;
    }
  }

  lemma RelocateCache(c: Config, hashOf: map<nat, nat>, cache: map<nat, set<nat>>, src: nat, dst: nat)
    requires CacheOk(c, hashOf, cache) && src in hashOf && dst !in hashOf && 0 < dst < c.pages
    ensures CacheOk(c, (hashOf - {src})[dst := hashOf[src]],
            CacheInsert(CacheRemove(cache, hashOf[src], src), hashOf[src], dst))
  {
  }

  lemma RelocateKv(c: Config, hashOf: map<nat, nat>, mem: seq<seq<Bytes>>, src: nat, dst: nat)
    requires KvBytes(c, hashOf, mem) && src in hashOf && src < c.pages && dst < c.pages
    ensures KvBytes(c, (hashOf - {src})[dst := hashOf[src]], CopyPage(mem, src, dst))
  {
  }

  /** Writing a page of a super-block that holds no expert disturbs no expert. */
  lemma CopyExperts(c: Config, layers: seq<Layer>, holder: map<nat, set<nat>>, mem: seq<seq<Bytes>>, src: nat, dst: nat)
    requires ConfigOk(c, |mem|) && |layers| == |c.weights| && HolderOk(layers, holder)
    requires forall b :: 0 <= b < |mem| ==> |mem[b]| == c.pages
    requires ExpertBytes(c, layers, mem) && src < c.pages && dst < c.pages && Sb(c, dst) !in holder
    ensures ExpertBytes(c, layers, CopyPage(mem, src, dst))
  {
    hide Sb, Offset;
    var m := CopyPage(mem, src, dst);
    forall i, s | 0 <= i < |layers| && s in layers[i].expertAt && layers[i].expertAt[s] < |c.weights[i]|
      ensures Loaded(c, m[i], s, c.weights[i][layers[i].expertAt[s]])
    {
      assert Loaded(c, mem[i], s, c.weights[i][layers[i].expertAt[s]]);
      Held(layers, holder, i, s);
    }
  }

  /** Relocating a cached page keeps the invariant: its hash is found at its new address,
      with its bytes in every buffer and its recency unchanged. */
  lemma RelocateKeeps(c: Config, p: Pool, src: nat, dst: nat, taken: set<nat>)
    requires Inv(c, p, taken)
    requires src in p.hashOf && src in p.queue && dst in p.queue && dst !in p.hashOf
    requires dst < c.pages && Sb(c, dst) !in p.holder
    ensures src < c.pages && (forall b :: 0 <= b < |p.mem| ==> |p.mem[b]| == c.pages)
    ensures Inv(c, Relocate(p, src, dst), taken)
  {
    hide LruOk, CacheOk, LayersOk, HolderOk, QueueOk, ExpertBytes, Sb, ConfigOk, Rename, CacheInsert, CacheRemove;
    QueuedPage(c, p.refs, p.queue, taken, src);
    QueuedPage(c, p.refs, p.queue, taken, dst);
    RelocateLru(p.hashOf, p.queue, p.lru, p.step, src, dst);
    RelocateCache(c, p.hashOf, p.cache, src, dst);
    RelocateKv(c, p.hashOf, p.mem, src, dst);
    CopyExperts(c, p.layers, p.holder, p.mem, src, dst) by { Sizes(c, p); }
  }

  lemma QueuedPage(c: Config, refs: seq<int>, queue: seq<nat>, taken: set<nat>, x: nat)
    requires QueueOk(c, refs, queue, taken) && x in queue
    ensures 0 < x < c.pages
  {
  }

  // ----- A layer's experts come and go -----

  lemma DropLayer(c: Config, experts: nat, l: Layer, s: nat, step: nat)
    requires c.F > 0 && LayerOk(c, experts, l, step) && s in l.expertAt && s !in l.pinned
    ensures LayerOk(c, experts, DropExpert(l, s), step)
  {
    hide Bijection, Mirrors, ExpertLruOk, Remove, SuperBlocks;
    var e := l.expertAt[s];
    DropBijection(SuperBlocks(c), experts, l.expertAt, l.sbAt, s);
    DropMirror(experts, l.sbAt, l.table, e);
    DropRecency(l.sbAt, l.lru, e, step);
  }

  lemma DropBijection(n: nat, experts: nat, expertAt: map<nat, nat>, sbAt: map<nat, nat>, s: nat)
    requires Bijection(n, experts, expertAt, sbAt) && s in expertAt
    ensures expertAt[s] in sbAt && expertAt[s] < experts
    ensures Bijection(n, experts, expertAt - {s}, sbAt - {expertAt[s]})
  {
  }

  lemma DropMirror(experts: nat, sbAt: map<nat, nat>, table: seq<int>, e: nat)
    requires Mirrors(experts, sbAt, table) && e < experts
    ensures |table| == experts && Mirrors(experts, sbAt - {e}, table[e := UNLOADED])
  {
  }

  lemma DropRecency(sbAt: map<nat, nat>, lru: seq<Entry>, e: nat, step: nat)
    requires ExpertLruOk(sbAt, lru, step)
    ensures ExpertLruOk(sbAt - {e}, Remove(lru, e), step)
  {
    hide Distinct, Sorted, Remove, Keys;
    RemoveKeeps(lru, e);
  }

  lemma TouchExpert(sbAt: map<nat, nat>, lru: seq<Entry>, e: nat, s: nat, step: nat)
    requires ExpertLruOk(sbAt, lru, step)
    ensures ExpertLruOk(sbAt[e := s], Touch(lru, e, step), step)
  {
    hide Distinct, Sorted, NoNewerThan, Touch, Keys;
    TouchKeeps(lru, e, step);
  }

  lemma AssignLayer(c: Config, experts: nat, l: Layer, s: nat, e: nat, step: nat)
    requires c.F > 0 && LayerOk(c, experts, l, step)
    requires s !in l.expertAt && e !in l.sbAt && e < experts && 0 < s < SuperBlocks(c)
    ensures
      var m := AssignExpert(l, s, e, step);
      LayerOk(c, experts, m.(pinned := m.pinned + {s}), step)
  {
    hide Bijection, Mirrors, ExpertLruOk, Touch, SuperBlocks;
    AssignBijection(SuperBlocks(c), experts, l.expertAt, l.sbAt, s, e);
    AssignMirror(experts, l.sbAt, l.table, s, e);
    TouchExpert(l.sbAt, l.lru, e, s, step);
  }

  lemma AssignBijection(n: nat, experts: nat, expertAt: map<nat, nat>, sbAt: map<nat, nat>, s: nat, e: nat)
    requires Bijection(n, experts, expertAt, sbAt) && s !in expertAt && e !in sbAt && e < experts && 0 < s < n
    ensures Bijection(n, experts, expertAt[s := e], sbAt[e := s])
  {
  }

  lemma AssignMirror(experts: nat, sbAt: map<nat, nat>, table: seq<int>, s: nat, e: nat)
    requires Mirrors(experts, sbAt, table) && e < experts
    ensures |table| == experts && Mirrors(experts, sbAt[e := s], table[e := s])
  {
  }

  lemma BumpLayer(c: Config, experts: nat, l: Layer, s: nat, e: nat, step: nat)
    requires c.F > 0 && LayerOk(c, experts, l, step) && s in l.expertAt && e in l.sbAt
    ensures
      var m := BumpExpert(l, e, step);
      LayerOk(c, experts, m.(pinned := m.pinned + {s}), step)
  {
    hide Bijection, Mirrors, ExpertLruOk, Touch, SuperBlocks, Keys;
    TouchExpert(l.sbAt, l.lru, e, l.sbAt[e], step);
    assert l.sbAt[e := l.sbAt[e]] == l.sbAt;
  }

  lemma HoldersDrop(layers: seq<Layer>, holder: map<nat, set<nat>>, i: nat, s: nat, l: Layer)
    requires HolderOk(layers, holder) && i < |layers| && s in layers[i].expertAt
    requires l.expertAt == layers[i].expertAt - {s}
    ensures HolderOk(layers[i := l], RemoveHolder(holder, i, s))
    ensures RemoveHolder(holder, i, s).Keys <= holder.Keys
  {
    var ls := layers[i := l];
    assert i in Holders(layers, s);
    forall t: nat ensures Holders(ls, t) == Holders(layers, t) - if t == s then {i} else {} { }
  }

  lemma HoldersAssign(layers: seq<Layer>, holder: map<nat, set<nat>>, i: nat, s: nat, l: Layer)
    requires HolderOk(layers, holder) && i < |layers| && l.expertAt.Keys == layers[i].expertAt.Keys + {s}
    ensures HolderOk(layers[i := l], AddHolder(holder, i, s))
    ensures AddHolder(holder, i, s).Keys == holder.Keys + {s}
  {
    hide Holders;
    HoldersGain(layers, i, s, l);
  }

  lemma HoldersGain(layers: seq<Layer>, i: nat, s: nat, l: Layer)
    requires i < |layers| && l.expertAt.Keys == layers[i].expertAt.Keys + {s}
    ensures forall t: nat :: Holders(layers[i := l], t) == Holders(layers, t) + if t == s then {i} else {}
  {
  }

  lemma HoldersSame(layers: seq<Layer>, holder: map<nat, set<nat>>, i: nat, l: Layer)
    requires HolderOk(layers, holder) && i < |layers| && l.expertAt == layers[i].expertAt
    ensures HolderOk(layers[i := l], holder)
  {
    forall t: nat ensures Holders(layers[i := l], t) == Holders(layers, t) { }
  }

  lemma Held(layers: seq<Layer>, holder: map<nat, set<nat>>, i: nat, s: nat)
    requires HolderOk(layers, holder) && i < |layers| && s in layers[i].expertAt
    ensures s in holder && i in holder[s]
  {
    assert i in Holders(layers, s);
  }

  /** Shrinking what a layer maps needs no bytes to change. */
  lemma BytesShrink(c: Config, layers: seq<Layer>, mem: seq<seq<Bytes>>, i: nat, l: Layer)
    requires ConfigOk(c, |mem|) && |layers| == |c.weights| && ExpertBytes(c, layers, mem) && i < |layers|
    requires forall s :: s in l.expertAt ==> s in layers[i].expertAt && l.expertAt[s] == layers[i].expertAt[s]
    ensures ExpertBytes(c, layers[i := l], mem)
  {
    hide Loaded, ConfigOk;
  }

  lemma LayersUpdate(c: Config, layers: seq<Layer>, step: nat, i: nat, l: Layer)
    requires c.F > 0 && LayersOk(c, layers, step) && i < |layers| && LayerOk(c, |c.weights[i]|, l, step)
    ensures LayersOk(c, layers[i := l], step)
  {
    hide LayerOk;
  }

  /** Giving up one layer's expert keeps the invariant. */
  lemma DropMappingKeeps(c: Config, p: Pool, i: nat, s: nat, taken: set<nat>)
    requires Inv(c, p, taken) && i < |p.layers| && s !in p.layers[i].pinned
    ensures Inv(c, DropMapping(p, i, s), taken)
  {
    var l := DropExpert(p.layers[i], s);
    if s in p.layers[i].expertAt {
      DropLayer(c, |c.weights[i]|, p.layers[i], s, p.step);
      LayersUpdate(c, p.layers, p.step, i, l);
      HoldersDrop(p.layers, p.holder, i, s, l);
      BytesShrink(c, p.layers, p.mem, i, l);
      hide LruOk, CacheOk, LayersOk, HolderOk, QueueOk, ExpertBytes, Sb, ConfigOk, KvBytes, DropExpert, RemoveHolder;
    }
  }

  lemma PinnedBump(p: Pool, i: nat, e: nat)
    requires i < |p.layers| && e in p.layers[i].sbAt
    ensures
      var s := p.layers[i].sbAt[e];
      var m := BumpExpert(p.layers[i], e, p.step);
      Pin(Bump(p, i, e), i, s) == p.(layers := p.layers[i := m.(pinned := m.pinned + {s})])
  {
    hide BumpExpert;
    var m := BumpExpert(p.layers[i], e, p.step);
    var l := m.(pinned := m.pinned + {p.layers[i].sbAt[e]});
    assert p.layers[i := m][i := l] == p.layers[i := l];
  }

  lemma BumpKeeps(c: Config, p: Pool, i: nat, e: nat, taken: set<nat>)
    requires Inv(c, p, taken) && i < |p.layers| && e in p.layers[i].sbAt
    ensures Inv(c, Pin(Bump(p, i, e), i, p.layers[i].sbAt[e]), taken)
  {
    var s := p.layers[i].sbAt[e];
    var m := BumpExpert(p.layers[i], e, p.step);
    var l := m.(pinned := m.pinned + {s});
    assert s in p.layers[i].expertAt by { assert LayerOk(c, |c.weights[i]|, p.layers[i], p.step); }
    BumpLayer(c, |c.weights[i]|, p.layers[i], s, e, p.step);
    LayersUpdate(c, p.layers, p.step, i, l);
    HoldersSame(p.layers, p.holder, i, l);
    BytesShrink(c, p.layers, p.mem, i, l);
    PinnedBump(p, i, e);
    hide LruOk, CacheOk, LayersOk, HolderOk, QueueOk, ExpertBytes, Sb, ConfigOk, KvBytes, BumpExpert, Exclusive;
    hide Pin, Bump;
  }

  // ----- An expert is loaded -----

  lemma DmaKv(c: Config, hashOf: map<nat, nat>, mem: seq<seq<Bytes>>, i: nat, s: nat, w: seq<Bytes>)
    requires c.F > 0 && KvBytes(c, hashOf, mem) && i < |mem| && |w| == c.F
    requires forall p: nat :: p < c.pages && Sb(c, p) == s ==> p !in hashOf
    ensures KvBytes(c, hashOf, mem[i := Dma(c, mem[i], s, w)])
  {
    hide Sb, Offset;
  }

  lemma DmaExperts(c: Config, layers: seq<Layer>, mem: seq<seq<Bytes>>, i: nat, s: nat, e: nat, l: Layer)
    requires ConfigOk(c, |mem|) && |layers| == |c.weights| && ExpertBytes(c, layers, mem)
    requires i < |layers| && e < |c.weights[i]| && s !in layers[i].expertAt
    requires l.expertAt == layers[i].expertAt[s := e]
    ensures ExpertBytes(c, layers[i := l], mem[i := Dma(c, mem[i], s, c.weights[i][e])])
  {
    hide Sb, Offset;
    var m := mem[i := Dma(c, mem[i], s, c.weights[i][e])];
    var ls := layers[i := l];
    forall j, t | 0 <= j < |ls| && t in ls[j].expertAt && ls[j].expertAt[t] < |c.weights[j]|
      ensures Loaded(c, m[j], t, c.weights[j][ls[j].expertAt[t]])
    {
      if j != i || t != s {
        assert Loaded(c, mem[j], t, c.weights[j][layers[j].expertAt[t]]);
      }
    }
  }

  /** A super-block with no KV in it and no expert of this layer. */
  ghost predicate Vacant(c: Config, p: Pool, i: nat, s: nat)
    requires c.F > 0 && i < |p.layers|
  {
    && 0 < s < SuperBlocks(c) && s !in p.layers[i].expertAt
    && forall x: nat :: x < c.pages && Sb(c, x) == s ==> x in p.queue && x !in p.hashOf
  }

  /** Loading an expert into a vacant super-block keeps the invariant. */
  lemma LoadExpertKeeps(c: Config, p: Pool, i: nat, s: nat, e: nat, taken: set<nat>)
    requires Inv(c, p, taken) && i < |p.layers| && Vacant(c, p, i, s)
    requires e < |c.weights[i]| && e !in p.layers[i].sbAt
    ensures |c.weights[i][e]| == c.F && i < |p.mem|
    ensures Inv(c, LoadExpert(c, p, i, s, e), taken)
  {
    hide ConfigOk, QueueOk, LruOk, CacheOk, LayerOk, HolderOk, Exclusive, KvBytes, ExpertBytes, Sb, SuperBlocks;
    hide AddHolder, Dma, Touch;
    Sizes(c, p);
    LoadExclusive(c, p, i, s);
    var m := AssignExpert(p.layers[i], s, e, p.step);
    var l := m.(pinned := m.pinned + {s});
    AssignLayer(c, |c.weights[i]|, p.layers[i], s, e, p.step);
    LayersUpdate(c, p.layers, p.step, i, l);
    HoldersAssign(p.layers, p.holder, i, s, l);
    DmaKv(c, p.hashOf, p.mem, i, s, c.weights[i][e]);
    DmaExperts(c, p.layers, p.mem, i, s, e, l);
  }

  lemma Sizes(c: Config, p: Pool)
    requires ConfigOk(c, |p.mem|) && LayersOk(c, p.layers, p.step)
    ensures c.F > 0 && |p.layers| == |c.weights| <= |p.mem|
    ensures forall i, e :: 0 <= i < |c.weights| && 0 <= e < |c.weights[i]| ==> |c.weights[i][e]| == c.F
  {
  }

  lemma LoadExclusive(c: Config, p: Pool, i: nat, s: nat)
    requires c.F > 0 && i < |p.layers| && Vacant(c, p, i, s) && Exclusive(c, p.queue, p.hashOf, p.holder)
    ensures Exclusive(c, p.queue, p.hashOf, AddHolder(p.holder, i, s))
  {
    hide Sb, SuperBlocks;
  }

  // ----- KV takes a super-block back -----

  lemma HoldersLose(layers: seq<Layer>, s: nat, ls: seq<Layer>)
    requires |ls| == |layers|
    requires forall i :: 0 <= i < |layers| ==> ls[i].expertAt == layers[i].expertAt - {s}
    ensures forall t: nat :: Holders(ls, t) == if t == s then {} else Holders(layers, t)
  {
  }

  lemma DroppedMaps(p: Pool, s: nat)
    requires HolderOk(p.layers, p.holder) && s in p.holder
    ensures
      var q := DropAll(p, s);
      |q.layers| == |p.layers| &&
      forall i :: 0 <= i < |p.layers| ==>
                    q.layers[i] == DropExpert(p.layers[i], s) && q.layers[i].expertAt == p.layers[i].expertAt - {s}
  {
    hide Remove;
    assert p.holder[s] == Holders(p.layers, s);
    forall i | 0 <= i < |p.layers| ensures DropAll(p, s).layers[i] == DropExpert(p.layers[i], s) {
      assert i in p.holder[s] <==> s in p.layers[i].expertAt;
    }
  }

  lemma DropAllLayers(c: Config, p: Pool, s: nat)
    requires c.F > 0 && LayersOk(c, p.layers, p.step) && HolderOk(p.layers, p.holder) && s in p.holder
    requires !Pinned(p.layers, s)
    ensures LayersOk(c, DropAll(p, s).layers, p.step)
  {
    DroppedMaps(p, s);
    hide DropAll, DropExpert, LayerOk, HolderOk;
    var q := DropAll(p, s);
    forall i | 0 <= i < |q.layers| ensures LayerOk(c, |c.weights[i]|, q.layers[i], p.step) {
      if s in p.layers[i].expertAt {
        DropLayer(c, |c.weights[i]|, p.layers[i], s, p.step);
      } else {
        NothingToDrop(p.layers[i], s);
      }
    }
  }

  lemma NothingToDrop(l: Layer, s: nat)
    requires s !in l.expertAt
    ensures DropExpert(l, s) == l
  {
  }

  lemma DropAllBytes(c: Config, layers: seq<Layer>, mem: seq<seq<Bytes>>, ls: seq<Layer>, s: nat)
    requires ConfigOk(c, |mem|) && |layers| == |c.weights| && ExpertBytes(c, layers, mem) && |ls| == |layers|
    requires forall i :: 0 <= i < |layers| ==> ls[i].expertAt == layers[i].expertAt - {s}
    ensures ExpertBytes(c, ls, mem)
  {
    hide Loaded, ConfigOk;
  }

  /** When KV reclaims a page, every layer's expert in that super-block goes, and the
      invariant stays. */
  lemma DropAllKeeps(c: Config, p: Pool, s: nat, taken: set<nat>)
    requires Inv(c, p, taken) && !Pinned(p.layers, s)
    ensures Inv(c, DropAll(p, s), taken) && s !in DropAll(p, s).holder
  {
    if s in p.holder {
      hide LruOk, CacheOk, LayersOk, LayerOk, QueueOk, ExpertBytes, ConfigOk, KvBytes, HolderOk, Exclusive, DropExpert;
      Sizes(c, p);
      DropAllLayers(c, p, s);
      DropAllHolders(p, s);
      DroppedMaps(p, s);
      DropAllBytes(c, p.layers, p.mem, DropAll(p, s).layers, s);
      FewerHolders(c, p, s);
    }
  }

  lemma DropAllHolders(p: Pool, s: nat)
    requires HolderOk(p.layers, p.holder) && s in p.holder
    ensures HolderOk(DropAll(p, s).layers, p.holder - {s})
  {
    DroppedMaps(p, s);
    HoldersLose(p.layers, s, DropAll(p, s).layers);
    hide Holders, DropExpert;
  }

  lemma FewerHolders(c: Config, p: Pool, s: nat)
    requires c.F > 0 && Exclusive(c, p.queue, p.hashOf, p.holder)
    ensures Exclusive(c, p.queue, p.hashOf, p.holder - {s})
  {
    hide Sb;
  }

  // ----- Pages leave and enter the free queue -----

  lemma {:induction false} QueueKeepsOthers(queue: seq<nat>, x: nat)
    ensures forall y :: y != x ==> (y in QueueRemove(queue, x) <==> y in queue)
  {
    if queue != [] && queue[0] != x {
      QueueKeepsOthers(queue[1..], x);
    }
    assert queue != [] ==> queue == [queue[0]] + queue[1..];
  }

  lemma {:induction false} QueueRemoves(queue: seq<nat>, x: nat)
    requires NoRepeats(queue)
    ensures NoRepeats(QueueRemove(queue, x)) && x !in QueueRemove(queue, x)
    ensures |QueueRemove(queue, x)| == |queue| - if x in queue then 1 else 0
  {
    if queue != [] {
      assert queue == [queue[0]] + queue[1..];
      if queue[0] != x {
        QueueRemoves(queue[1..], x);
        QueueKeepsOthers(queue[1..], x);
        FirstAlone(queue[0], QueueRemove(queue[1..], x));
      }
    }
  }

  lemma FirstAlone(y: nat, r: seq<nat>)
    requires NoRepeats(r) && y !in r
    ensures NoRepeats([y] + r)
  {
  }

  lemma TakeQueue(c: Config, refs: seq<int>, queue: seq<nat>, taken: set<nat>, x: nat)
    requires QueueOk(c, refs, queue, taken) && x in queue
    ensures QueueOk(c, refs, QueueRemove(queue, x), taken + {x})
    ensures forall y :: y in QueueRemove(queue, x) <==> y in queue && y != x
    ensures |QueueRemove(queue, x)| == |queue| - 1
  {
    QueueRemoves(queue, x);
    QueueKeepsOthers(queue, x);
  }

  lemma TakeLru(hashOf: map<nat, nat>, queue: seq<nat>, lru: seq<Entry>, step: nat, x: nat, queue': seq<nat>)
    requires LruOk(hashOf, queue, lru, step)
    requires forall y :: y in queue' <==> y in queue && y != x
    ensures LruOk(hashOf, queue', Remove(lru, x), step)
  {
    RemoveKeeps(lru, x);
  }

  /** Taking a free page outside every expert's super-block keeps the invariant. */
  lemma TakeKeeps(c: Config, p: Pool, x: nat, taken: set<nat>)
    requires Inv(c, p, taken) && x in p.queue && Sb(c, x) !in p.holder
    ensures Inv(c, Take(p, x), taken + {x})
  {
    TakeQueue(c, p.refs, p.queue, taken, x);
    TakeLru(p.hashOf, p.queue, p.lru, p.step, x, QueueRemove(p.queue, x));
    hide LruOk, CacheOk, LayersOk, HolderOk, QueueOk, ExpertBytes, Sb, ConfigOk, KvBytes, QueueRemove, Remove;
  }

  /** A taken page becomes live: its hash goes and its reference count rises to one. */
  lemma AllocateKeeps(c: Config, p: Pool, x: nat, taken: set<nat>)
    requires Inv(c, p, taken) && x in taken && 0 < x < c.pages && p.refs[x] == 0
    ensures Inv(c, Allocate(p, x), taken - {x})
    ensures x !in Allocate(p, x).hashOf && Allocate(p, x).refs == p.refs[x := 1]
  {
    hide LruOk, CacheOk, LayersOk, HolderOk, QueueOk, ExpertBytes, Sb, ConfigOk, KvBytes, Exclusive, Remove,
         CacheRemove;
    EvictHashKeeps(c, p, x, taken);
    AllocateQueue(c, p.refs, p.queue, taken, x);
  }

  lemma AllocateQueue(c: Config, refs: seq<int>, queue: seq<nat>, taken: set<nat>, x: nat)
    requires QueueOk(c, refs, queue, taken) && x in taken && 0 < x < c.pages && refs[x] == 0
    ensures QueueOk(c, refs[x := 1], queue, taken - {x})
  {
  }

  /** A prefix hit: the page leaves the queue and gains a reference. */
  lemma TouchPageKeeps(c: Config, p: Pool, x: nat)
    requires Inv(c, p, {}) && x < c.pages && (p.refs[x] == 0 && x != 0 ==> Sb(c, x) !in p.holder)
    ensures Inv(c, TouchPage(p, x), {})
  {
    assert |p.refs| == c.pages;
    if p.refs[x] == 0 && x != 0 {
      assert x in p.queue;
      TakeKeeps(c, p, x, {});
      var q := Take(p, x);
      AllocateQueue(c, q.refs, q.queue, {x}, x);
      assert {} + {x} == {x} && {x} - {x} == {};
      hide LruOk, CacheOk, LayersOk, HolderOk, QueueOk, ExpertBytes, Sb, ConfigOk, KvBytes, Exclusive, Take;
    } else {
      hide LruOk, CacheOk, LayersOk, HolderOk, ExpertBytes, Sb, ConfigOk, KvBytes, Exclusive;
    }
  }

  lemma FreeQueue(c: Config, refs: seq<int>, queue: seq<nat>, x: nat)
    requires QueueOk(c, refs, queue, {}) && 0 < x < c.pages && refs[x] > 0
    ensures QueueOk(c, refs[x := refs[x] - 1], if refs[x] == 1 then queue + [x] else queue, {})
  {
  }

  lemma FreeLru(hashOf: map<nat, nat>, queue: seq<nat>, lru: seq<Entry>, step: nat, x: nat)
    requires LruOk(hashOf, queue, lru, step)
    ensures LruOk(hashOf, queue + [x], if x in hashOf then Touch(lru, x, step) else lru, step)
  {
    TouchKeeps(lru, x, step);
    hide Distinct, Sorted, NoNewerThan, Touch;
  }

  /** A freed page that carries a hash becomes the warmest cached prefix. */
  lemma FreePageKeeps(c: Config, p: Pool, x: nat)
    requires Inv(c, p, {}) && x < c.pages && (x != 0 ==> p.refs[x] > 0)
    ensures Inv(c, FreePage(p, x), {})
  {
    assert |p.refs| == c.pages;
    if x == 0 {
      hide LruOk, CacheOk, LayersOk, HolderOk, ExpertBytes, Sb, ConfigOk, KvBytes, Exclusive;
    } else {
      FreeQueue(c, p.refs, p.queue, x);
      FreeLru(p.hashOf, p.queue, p.lru, p.step, x);
      hide LruOk, CacheOk, LayersOk, HolderOk, QueueOk, ExpertBytes, Sb, ConfigOk, KvBytes, Touch;
    }
  }

  // ----- Live pages are cached and written; time passes -----

  /** A page holds the bytes of a hash in every buffer. */
  ghost predicate Holding(c: Config, mem: seq<seq<Bytes>>, x: nat, h: nat) {
    forall b :: 0 <= b < |mem| ==> x < |mem[b]| && b < |c.kv(h)| && mem[b][x] == c.kv(h)[b]
  }

  lemma CachePageKeeps(c: Config, p: Pool, x: nat, h: nat)
    requires Inv(c, p, {}) && 0 < x < c.pages && p.refs[x] > 0 && x !in p.hashOf
    requires Holding(c, p.mem, x, h)
    ensures Inv(c, CachePage(p, x, h), {})
  {
    hide CacheOk, LayersOk, HolderOk, ExpertBytes, QueueOk, LruOk, Sb, CacheInsert, KvBytes, Exclusive, ConfigOk,
         Holding;
    Sizes(c, p);
    NotQueued(c, p.refs, p.queue, x);
    CacheInserted(c, p.hashOf, p.cache, x, h);
    CachedLru(p.hashOf, p.queue, p.lru, p.step, x, h);
    CachedBytes(c, p.hashOf, p.mem, x, h);
    CachedExclusive(c, p.queue, p.hashOf, p.holder, x, h);
  }

  lemma NotQueued(c: Config, refs: seq<int>, queue: seq<nat>, x: nat)
    requires QueueOk(c, refs, queue, {}) && x < c.pages && refs[x] > 0
    ensures x !in queue
  {
  }

  lemma CachedLru(hashOf: map<nat, nat>, queue: seq<nat>, lru: seq<Entry>, step: nat, x: nat, h: nat)
    requires LruOk(hashOf, queue, lru, step) && x !in queue
    ensures LruOk(hashOf[x := h], queue, lru, step)
  {
    hide Distinct, Sorted, NoNewerThan;
  }

  lemma CachedBytes(c: Config, hashOf: map<nat, nat>, mem: seq<seq<Bytes>>, x: nat, h: nat)
    requires KvBytes(c, hashOf, mem) && x < c.pages
    requires Holding(c, mem, x, h)
    ensures KvBytes(c, hashOf[x := h], mem)
  {
  }

  lemma CachedExclusive(c: Config, queue: seq<nat>, hashOf: map<nat, nat>, holder: map<nat, set<nat>>, x: nat, h: nat)
    requires c.F > 0 && Exclusive(c, queue, hashOf, holder) && x < c.pages && x !in queue
    ensures Exclusive(c, queue, hashOf[x := h], holder)
  {
    hide Sb;
  }

  lemma CacheInserted(c: Config, hashOf: map<nat, nat>, cache: map<nat, set<nat>>, x: nat, h: nat)
    requires CacheOk(c, hashOf, cache) && 0 < x < c.pages && x !in hashOf
    ensures CacheOk(c, hashOf[x := h], CacheInsert(cache, h, x))
  {
  }

  lemma WriteKv(c: Config, hashOf: map<nat, nat>, mem: seq<seq<Bytes>>, x: nat, data: seq<Bytes>)
    requires KvBytes(c, hashOf, mem) && x < c.pages && x !in hashOf && |data| == |mem|
    ensures KvBytes(c, hashOf, WritePage(mem, x, data))
  {
  }

  lemma WriteExperts(c: Config, layers: seq<Layer>, holder: map<nat, set<nat>>, mem: seq<seq<Bytes>>, x: nat,
                     data: seq<Bytes>)
    requires ConfigOk(c, |mem|) && |layers| == |c.weights| && HolderOk(layers, holder)
    requires forall b :: 0 <= b < |mem| ==> |mem[b]| == c.pages
    requires ExpertBytes(c, layers, mem) && x < c.pages && Sb(c, x) !in holder && |data| == |mem|
    ensures ExpertBytes(c, layers, WritePage(mem, x, data))
  {
    hide Sb, Offset;
    var m := WritePage(mem, x, data);
    forall i, s | 0 <= i < |layers| && s in layers[i].expertAt && layers[i].expertAt[s] < |c.weights[i]|
      ensures Loaded(c, m[i], s, c.weights[i][layers[i].expertAt[s]])
    {
      assert Loaded(c, mem[i], s, c.weights[i][layers[i].expertAt[s]]);
      Held(layers, holder, i, s);
    }
  }

  /** Attention may write any live, uncached page: no expert and no cached prefix is there. */
  lemma WritePageKeeps(c: Config, p: Pool, x: nat, data: seq<Bytes>)
    requires Inv(c, p, {}) && x < c.pages && p.refs[x] > 0 && x !in p.hashOf && |data| == |p.mem|
    ensures forall b :: 0 <= b < |p.mem| ==> |p.mem[b]| == c.pages
    ensures Inv(c, p.(mem := WritePage(p.mem, x, data)), {})
  {
    assert x !in p.queue;
    assert Sb(c, x) !in p.holder;
    WriteKv(c, p.hashOf, p.mem, x, data);
    WriteExperts(c, p.layers, p.holder, p.mem, x, data);
    hide LruOk, CacheOk, LayersOk, HolderOk, QueueOk, ExpertBytes, Sb, ConfigOk, Exclusive;
  }

  lemma EndStepKeeps(c: Config, p: Pool)
    requires Inv(c, p, {})
    ensures Inv(c, p.(step := p.step + 1), {})
  {
    hide CacheOk, HolderOk, QueueOk, ExpertBytes, Sb, ConfigOk, KvBytes, Exclusive, Distinct, Sorted, Bijection,
         Mirrors;
  }

  lemma UnpinKeeps(c: Config, p: Pool, i: nat)
    requires Inv(c, p, {}) && i < |p.layers|
    ensures Inv(c, Unpin(p, i), {})
  {
    var l := p.layers[i].(pinned := {});
    LayersUpdate(c, p.layers, p.step, i, l);
    HoldersSame(p.layers, p.holder, i, l);
    BytesShrink(c, p.layers, p.mem, i, l);
    hide LruOk, CacheOk, LayersOk, HolderOk, QueueOk, ExpertBytes, Sb, ConfigOk, KvBytes, Exclusive;
  }
}
