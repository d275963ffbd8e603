/**
  The state that the unified pool manager (fused_moe/unified_pool.py) and vLLM's
  BlockPool (v1/core/block_pool.py) share, and the invariant that every operation keeps.

  One buffer per attention layer is divided into pages.  A page is a KV block; F
  consecutive pages are a super-block, which can hold the weights of one expert per
  layer instead.  The kernel reads experts and KV straight from these buffers, so a
  mapping that outlives its bytes is silent corruption.
 */
module PoolState {
  import opened Recency

  type Bytes = seq<bv8>

  /** Fixed at start-up: the number of pages, pages per super-block, each layer's expert
      weights cut into pages, and the bytes (one page per buffer) a block hash stands for. */
  datatype Config = Config(pages: nat, F: nat, weights: seq<seq<seq<Bytes>>>, kv: nat -> seq<Bytes>)

  /** UnifiedPool: the expert side of one layer.  Key of an lru entry: expert id. */
  datatype Layer = Layer(expertAt: map<nat, nat>, sbAt: map<nat, nat>, table: seq<int>,
                         lru: seq<Entry>, pinned: set<nat>)

  /** BlockPool (refs, hashOf, queue, cache) with the manager's own fields and the buffers.
      Key of an lru entry: page id. */
  datatype Pool = Pool(refs: seq<int>, hashOf: map<nat, nat>, queue: seq<nat>, cache: map<nat, set<nat>>,
                       layers: seq<Layer>, holder: map<nat, set<nat>>, lru: seq<Entry>, step: nat,
                       mem: seq<seq<Bytes>>)

  const UNLOADED := -1

  // ----- Pages and super-blocks -----

  function Sb(c: Config, page: nat): nat requires c.F > 0 { page / c.F }

  function Offset(c: Config, page: nat): (k: nat) requires c.F > 0 ensures k < c.F { page % c.F }

  function SuperBlocks(c: Config): nat requires c.F > 0 { c.pages / c.F }

  ghost predicate ConfigOk(c: Config, buffers: nat) {
    && c.F > 0 && c.pages > 0 && |c.weights| <= buffers
    && (forall i, e :: 0 <= i < |c.weights| && 0 <= e < |c.weights[i]| ==> |c.weights[i][e]| == c.F)
    && (forall h :: |c.kv(h)| == buffers)
  }

  predicate Pinned(layers: seq<Layer>, s: nat) {
    exists i :: 0 <= i < |layers| && s in layers[i].pinned
  }

  // ----- The invariant, one part per group of fields -----

  /** Exactly the unreferenced pages are queued, except the null page and the pages that
      a selection in progress has taken. */
  ghost predicate QueueOk(c: Config, refs: seq<int>, queue: seq<nat>, taken: set<nat>) {
    && |refs| == c.pages
    && (forall j, k :: 0 <= j < k < |queue| ==> queue[j] != queue[k])
    && (forall p :: 0 < p < c.pages ==> refs[p] >= 0)
    && (forall p :: p in queue <==> 0 < p < c.pages && refs[p] == 0 && p !in taken)
  }

  /** The recency list holds exactly the queued pages that carry a hash, in recency order. */
  ghost predicate LruOk(hashOf: map<nat, nat>, queue: seq<nat>, lru: seq<Entry>, step: nat) {
    && Distinct(lru) && Sorted(lru) && NoNewerThan(lru, step)
    && (forall p :: p in Keys(lru) <==> p in hashOf && p in queue)
  }

  /** The prefix cache finds exactly the pages that carry a hash. */
  ghost predicate CacheOk(c: Config, hashOf: map<nat, nat>, cache: map<nat, set<nat>>) {
    && (forall p :: p in hashOf ==> 0 < p < c.pages)
    && (forall p :: p in hashOf ==> hashOf[p] in cache && p in cache[hashOf[p]])
    && (forall h, p :: h in cache && p in cache[h] ==> p in hashOf && hashOf[p] == h)
    && (forall h :: h in cache ==> cache[h] != {})
  }

  /** Experts and super-blocks are in bijection; super-block 0, which holds the null page, is never used. */
  ghost predicate Bijection(superBlocks: nat, experts: nat, expertAt: map<nat, nat>, sbAt: map<nat, nat>) {
    && (forall s :: s in expertAt ==> 0 < s < superBlocks && expertAt[s] in sbAt && sbAt[expertAt[s]] == s)
    && (forall e :: e in sbAt ==> e < experts && sbAt[e] in expertAt && expertAt[sbAt[e]] == e)
  }

  /** The device table gives each resident expert's super-block and nothing for the others. */
  ghost predicate Mirrors(experts: nat, sbAt: map<nat, nat>, table: seq<int>) {
    |table| == experts && forall e :: 0 <= e < experts ==> table[e] == if e in sbAt then sbAt[e] else UNLOADED
  }

  /** The recency list orders exactly the resident experts. */
  ghost predicate ExpertLruOk(sbAt: map<nat, nat>, lru: seq<Entry>, step: nat) {
    Distinct(lru) && Sorted(lru) && NoNewerThan(lru, step) && Keys(lru) == sbAt.Keys
  }

  ghost predicate LayerOk(c: Config, experts: nat, l: Layer, step: nat)
    requires c.F > 0
  {
    && Bijection(SuperBlocks(c), experts, l.expertAt, l.sbAt)
    && Mirrors(experts, l.sbAt, l.table)
    && ExpertLruOk(l.sbAt, l.lru, step)
    && l.pinned <= l.expertAt.Keys
  }

  ghost predicate LayersOk(c: Config, layers: seq<Layer>, step: nat)
    requires c.F > 0
  {
    && |layers| == |c.weights|
    && forall i :: 0 <= i < |layers| ==> LayerOk(c, |c.weights[i]|, layers[i], step)
  }

  ghost function Holders(layers: seq<Layer>, s: nat): set<nat> {
    set i | 0 <= i < |layers| && s in layers[i].expertAt
  }

  /** The holders of a super-block are the layers with an expert there. */
  ghost predicate HolderOk(layers: seq<Layer>, holder: map<nat, set<nat>>) {
    forall s {:trigger s in holder} {:trigger Holders(layers, s)} ::
      if s in holder then holder[s] == Holders(layers, s) && holder[s] != {} else Holders(layers, s) == {}
  }

  /** Mutual exclusion: every page of a super-block that holds experts is free and unhashed. */
  ghost predicate Exclusive(c: Config, queue: seq<nat>, hashOf: map<nat, nat>, holder: map<nat, set<nat>>)
    requires c.F > 0
  {
    forall p: nat :: p < c.pages && Sb(c, p) in holder ==> p in queue && p !in hashOf
  }

  /** Every page that carries a hash holds, in every buffer, the bytes the hash stands for. */
  ghost predicate KvBytes(c: Config, hashOf: map<nat, nat>, mem: seq<seq<Bytes>>) {
    && (forall b :: 0 <= b < |mem| ==> |mem[b]| == c.pages)
    && forall b, p :: 0 <= b < |mem| && p in hashOf && p < c.pages && b < |c.kv(hashOf[p])| ==>
         mem[b][p] == c.kv(hashOf[p])[b]
  }

  ghost predicate Loaded(c: Config, buffer: seq<Bytes>, s: nat, weights: seq<Bytes>)
    requires c.F > 0 && |weights| == c.F
  {
    forall p: nat :: p < |buffer| && Sb(c, p) == s ==> buffer[p] == weights[Offset(c, p)]
  }

  /** Every mapped super-block holds its expert's weights in that layer's buffer. */
  ghost predicate ExpertBytes(c: Config, layers: seq<Layer>, mem: seq<seq<Bytes>>)
    requires ConfigOk(c, |mem|) && |layers| == |c.weights|
  {
    forall i, s :: 0 <= i < |layers| && s in layers[i].expertAt && layers[i].expertAt[s] < |c.weights[i]| ==>
                     Loaded(c, mem[i], s, c.weights[i][layers[i].expertAt[s]])
  }

  ghost predicate Inv(c: Config, p: Pool, taken: set<nat>) {
    && ConfigOk(c, |p.mem|)
    && QueueOk(c, p.refs, p.queue, taken)
    && LruOk(p.hashOf, p.queue, p.lru, p.step)
    && CacheOk(c, p.hashOf, p.cache)
    && LayersOk(c, p.layers, p.step)
    && HolderOk(p.layers, p.holder)
    && Exclusive(c, p.queue, p.hashOf, p.holder)
    && KvBytes(c, p.hashOf, p.mem)
    && ExpertBytes(c, p.layers, p.mem)
  }

  // ----- Single steps of the source as functions on the state -----

  function DropExpert(l: Layer, s: nat): Layer {
    if s !in l.expertAt then l
    else
      var e := l.expertAt[s];
      l.(expertAt := l.expertAt - {s}, sbAt := l.sbAt - {e}, lru := Remove(l.lru, e),
         table := if e < |l.table| then l.table[e := UNLOADED] else l.table)
  }

  function AssignExpert(l: Layer, s: nat, e: nat, step: nat): Layer {
    l.(expertAt := l.expertAt[s := e], sbAt := l.sbAt[e := s], lru := Touch(l.lru, e, step),
       table := if e < |l.table| then l.table[e := s] else l.table)
  }

  function BumpExpert(l: Layer, e: nat, step: nat): Layer {
    if e in Keys(l.lru) then l.(lru := Touch(l.lru, e, step)) else l
  }

  function RemoveHolder(holder: map<nat, set<nat>>, i: nat, s: nat): map<nat, set<nat>> {
    if s !in holder then holder
    else if holder[s] - {i} == {} then holder - {s}
    else holder[s := holder[s] - {i}]
  }

  function AddHolder(holder: map<nat, set<nat>>, i: nat, s: nat): map<nat, set<nat>> {
    holder[s := (if s in holder then holder[s] else {}) + {i}]
  }

  function CacheRemove(cache: map<nat, set<nat>>, h: nat, p: nat): map<nat, set<nat>> {
    if h !in cache then cache
    else if cache[h] - {p} == {} then cache - {h}
    else cache[h := cache[h] - {p}]
  }

  function CacheInsert(cache: map<nat, set<nat>>, h: nat, p: nat): map<nat, set<nat>> {
    cache[h := (if h in cache then cache[h] else {}) + {p}]
  }

  /** One layer gives up its expert at a super-block. */
  function DropMapping(p: Pool, i: nat, s: nat): Pool
    requires i < |p.layers|
  {
    if s !in p.layers[i].expertAt then p
    else p.(layers := p.layers[i := DropExpert(p.layers[i], s)], holder := RemoveHolder(p.holder, i, s))
  }

  /** Every holder of a super-block gives up its expert there. */
  function DropAll(p: Pool, s: nat): Pool {
    if s !in p.holder then p
    else p.(holder := p.holder - {s},
            layers := seq(|p.layers|, i requires 0 <= i < |p.layers| =>
                            if i in p.holder[s] then DropExpert(p.layers[i], s) else p.layers[i]))
  }

  function Pin(p: Pool, i: nat, s: nat): Pool
    requires i < |p.layers|
  {
    p.(layers := p.layers[i := p.layers[i].(pinned := p.layers[i].pinned + {s})])
  }

  function Bump(p: Pool, i: nat, e: nat): Pool
    requires i < |p.layers|
  {
    p.(layers := p.layers[i := BumpExpert(p.layers[i], e, p.step)])
  }

  /** The weights of an expert copied over the pages of a super-block. */
  function Dma(c: Config, buffer: seq<Bytes>, s: nat, weights: seq<Bytes>): (r: seq<Bytes>)
    requires c.F > 0 && |weights| == c.F
    ensures |r| == |buffer|
  {
    seq(|buffer|, p requires 0 <= p < |buffer| => if Sb(c, p) == s then weights[Offset(c, p)] else buffer[p])
  }

  /** assign, add_holder, pin and the copy of the weights, as ensure_loaded does them. */
  function LoadExpert(c: Config, p: Pool, i: nat, s: nat, e: nat): Pool
    requires c.F > 0 && i < |p.layers| && i < |p.mem| && i < |c.weights| && e < |c.weights[i]| &&
             |c.weights[i][e]| == c.F
  {
    var l := AssignExpert(p.layers[i], s, e, p.step);
    p.(layers := p.layers[i := l.(pinned := l.pinned + {s})],
       holder := AddHolder(p.holder, i, s),
       mem := p.mem[i := Dma(c, p.mem[i], s, c.weights[i][e])])
  }

  /** A page loses its hash; it stays where it is in the queue. */
  function EvictHash(p: Pool, x: nat): Pool
  {
    if x !in p.hashOf then p
    else p.(hashOf := p.hashOf - {x}, cache := CacheRemove(p.cache, p.hashOf[x], x), lru := Remove(p.lru, x))
  }

  function CopyPage(mem: seq<seq<Bytes>>, src: nat, dst: nat): (r: seq<seq<Bytes>>)
    requires forall b :: 0 <= b < |mem| ==> src < |mem[b]| && dst < |mem[b]|
    ensures |r| == |mem|
  {
    seq(|mem|, b requires 0 <= b < |mem| => mem[b][dst := mem[b][src]])
  }

  /** The bytes, the hash and the recency of src move to dst. */
  function Relocate(p: Pool, src: nat, dst: nat): Pool
    requires forall b :: 0 <= b < |p.mem| ==> src < |p.mem[b]| && dst < |p.mem[b]|
  {
    var q := p.(mem := CopyPage(p.mem, src, dst));
    if src !in p.hashOf then q
    else
      var h := p.hashOf[src];
      q.(hashOf := (p.hashOf - {src})[dst := h],
         cache := CacheInsert(CacheRemove(p.cache, h, src), h, dst),
         lru := Rename(p.lru, src, dst, p.step))
  }

  function QueueRemove(queue: seq<nat>, x: nat): (r: seq<nat>)
  {
    if queue == [] then [] else if queue[0] == x then queue[1..] else [queue[0]] + QueueRemove(queue[1..], x)
  }

  /** A page leaves the free queue, and with it the recency list. */
  function Take(p: Pool, x: nat): Pool {
    p.(queue := QueueRemove(p.queue, x), lru := Remove(p.lru, x))
  }

  /** A taken page becomes a live KV block. */
  function Allocate(p: Pool, x: nat): Pool
    requires x < |p.refs|
  {
    var q := EvictHash(p, x);
    q.(refs := q.refs[x := q.refs[x] + 1])
  }

  /** BlockPool.touch on one block: a hit by another request. */
  function TouchPage(p: Pool, x: nat): Pool
    requires x < |p.refs|
  {
    var q := if p.refs[x] == 0 && x != 0 then Take(p, x) else p;
    q.(refs := q.refs[x := q.refs[x] + 1])
  }

  /** BlockPool.free_blocks on one block. */
  function FreePage(p: Pool, x: nat): Pool
    requires x < |p.refs|
  {
    var q := p.(refs := p.refs[x := p.refs[x] - 1]);
    if q.refs[x] != 0 || x == 0 then q
    else
      var r := q.(queue := q.queue + [x]);
      if x in r.hashOf then r.(lru := Touch(r.lru, x, r.step)) else r
  }

  /** cache_full_blocks on one block: a full live block gets its hash. */
  function CachePage(p: Pool, x: nat, h: nat): Pool {
    p.(hashOf := p.hashOf[x := h], cache := CacheInsert(p.cache, h, x))
  }

  /** The attention kernel writes a block: one page in every buffer. */
  function WritePage(mem: seq<seq<Bytes>>, x: nat, data: seq<Bytes>): (r: seq<seq<Bytes>>)
    requires |data| == |mem| && forall b :: 0 <= b < |mem| ==> x < |mem[b]|
    ensures |r| == |mem|
  {
    seq(|mem|, b requires 0 <= b < |mem| => mem[b][x := data[b]])
  }

  function Unpin(p: Pool, i: nat): Pool
    requires i < |p.layers|
  {
    p.(layers := p.layers[i := p.layers[i].(pinned := {})])
  }
}
