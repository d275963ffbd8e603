/** The block pool's own operations on lists of blocks: free, touch, cache, evict, reset. */
module BlockOps {
  import opened Recency
  import opened PoolState
  import opened PoolSteps
  import opened PoolQueries
  import opened PoolFacts

  // ----- Touching -----

  function TouchAll(p: Pool, ids: seq<nat>): (q: Pool)
    requires forall k :: 0 <= k < |ids| ==> ids[k] < |p.refs|
    ensures |q.refs| == |p.refs|
  {
    if ids == [] then p else TouchPage(TouchAll(p, ids[..|ids| - 1]), ids[|ids| - 1])
  }

  /** Cached, live or null: what a prefix hit can hand out. */
  ghost predicate Touchable(c: Config, p: Pool, ids: seq<nat>) {
    |p.refs| == c.pages && forall k :: 0 <= k < |ids| ==>
          ids[k] < c.pages && (ids[k] in p.hashOf || ids[k] == 0 || p.refs[ids[k]] > 0)
  }

  lemma {:induction false} TouchAllKeeps(c: Config, p: Pool, ids: seq<nat>)
    requires Inv(c, p, {}) && Touchable(c, p, ids)
    ensures
      var q := TouchAll(p, ids);
      && Inv(c, q, {}) && q.hashOf == p.hashOf && q.layers == p.layers && q.mem == p.mem && q.holder == p.holder
      && forall y :: 0 <= y < c.pages ==> q.refs[y] >= p.refs[y]
  {
    hide Inv, Remove, QueueRemove;
    if ids != [] {
      var n := |ids| - 1;
      assert ids == ids[..n] + [ids[n]];
      TouchAllKeeps(c, p, ids[..n]);
      var q := TouchAll(p, ids[..n]);
      if q.refs[ids[n]] == 0 && ids[n] != 0 {
        HashedNotHeld(c, q, ids[n]);
      }
      TouchPageKeeps(c, q, ids[n]);
    }
  }

  lemma HashedNotHeld(c: Config, p: Pool, x: nat)
    requires Inv(c, p, {}) && x in p.hashOf
    ensures c.F > 0 && 0 < x < c.pages && Sb(c, x) !in p.holder
  {
    hide LruOk, LayersOk, HolderOk, KvBytes, ExpertBytes, Sb, QueueOk;
  }

  // ----- Evicting and looking up -----

  function EvictAll(p: Pool, ids: seq<nat>): Pool {
    if ids == [] then p else EvictHash(EvictAll(p, ids[..|ids| - 1]), ids[|ids| - 1])
  }

  lemma {:induction false} EvictAllKeeps(c: Config, p: Pool, ids: seq<nat>)
    requires Inv(c, p, {})
    ensures
      var q := EvictAll(p, ids);
      && Inv(c, q, {}) && q == p.(hashOf := q.hashOf, cache := q.cache, lru := q.lru)
      && (forall x :: x in q.hashOf <==> x in p.hashOf && x !in ids)
      && (forall x :: x in q.hashOf ==> q.hashOf[x] == p.hashOf[x])
  {
    hide Inv, Remove, CacheRemove;
    if ids != [] {
      var n := |ids| - 1;
      assert ids == ids[..n] + [ids[n]];
      EvictAllKeeps(c, p, ids[..n]);
      EvictHashKeeps(c, EvictAll(p, ids[..n]), ids[n], {});
    }
  }

  /** Every page found under a hash holds, in every buffer, the bytes the hash stands for. */
  lemma HitHoldsBytes(c: Config, p: Pool, h: nat, x: nat)
    requires Inv(c, p, {}) && h in p.cache && x in p.cache[h]
    ensures 0 < x < c.pages && |c.kv(h)| == |p.mem| && forall b :: 0 <= b < |p.mem| ==>
              |p.mem[b]| == c.pages && p.mem[b][x] == c.kv(h)[b]
  {
    hide LruOk, LayersOk, HolderOk, ExpertBytes, Sb, QueueOk, Exclusive;
    assert x in p.hashOf && p.hashOf[x] == h;
  }

  // ----- Resetting the prefix cache -----

  /** All hashes go, and the recency list is left as it was. */
  function ResetHashes(p: Pool): Pool { p.(hashOf := map[], cache := map[]) }

  /** Resetting keeps the pool sound exactly when no free page carried a hash. */
  lemma ResetKeepsIff(c: Config, p: Pool)
    requires Inv(c, p, {})
    ensures Inv(c, ResetHashes(p), {}) <==> forall x :: x in p.queue ==> x !in p.hashOf
  {
    hide LayersOk, HolderOk, ExpertBytes, Sb, QueueOk, Distinct, Sorted, NoNewerThan;
    var q := ResetHashes(p);
    if x :| x in p.queue && x in p.hashOf {
      assert x in Keys(q.lru);
      assert !LruOk(q.hashOf, q.queue, q.lru, q.step);
    } else {
      forall x ensures x !in Keys(q.lru) {
        assert x in Keys(p.lru) <==> x in p.hashOf && x in p.queue;
      }
      assert LruOk(q.hashOf, q.queue, q.lru, q.step);
    }
  }

  /** With every block but the null one free, resetting breaks the pool exactly when
      anything was cached at all. */
  lemma ResetWhenIdle(c: Config, p: Pool)
    requires Inv(c, p, {}) && |p.queue| == c.pages - 1
    ensures Inv(c, ResetHashes(p), {}) <==> p.hashOf == map[]
  {
    ResetKeepsIff(c, p);
    IdleQueue(c, p);
    forall x | x in p.hashOf ensures x in p.queue {
      HashedNotHeld(c, p, x);
    }
    hide Inv;
    if p.hashOf != map[] {
      var x :| x in p.hashOf;
    }
  }

  lemma IdleQueue(c: Config, p: Pool)
    requires Inv(c, p, {}) && |p.queue| == c.pages - 1
    ensures forall x :: 0 < x < c.pages ==> x in p.queue
  {
    hide LruOk, CacheOk, LayersOk, HolderOk, KvBytes, ExpertBytes, Exclusive, Sb;
    MembersSize(p.queue);
    var all := Range(1, c.pages - 1);
    SameSet(Members(p.queue), all);
  }

  lemma SameSet(a: set<nat>, b: set<nat>)
    requires a <= b && |a| == |b|
    ensures a == b
  {
    assert b == a + (b - a);
    assert |b - a| == 0;
  }

  /** One cached page is enough for a reset to leave a stale recency entry behind. */
  lemma ResetExample()
    ensures
      var c := Config(2, 1, [], h => [[]]);
      var p := Pool([0, 0], map[1 := 7], [1], map[7 := {1}], [], map[], [Entry(1, 0)], 0, [[[], []]]);
      Inv(c, p, {}) && !Inv(c, ResetHashes(p), {})
  {
    var c := Config(2, 1, [], h => [[]]);
    var p := Pool([0, 0], map[1 := 7], [1], map[7 := {1}], [], map[], [Entry(1, 0)], 0, [[[], []]]);
    assert Inv(c, p, {});
    ResetKeepsIff(c, p);
    assert 1 in p.queue;
  }

  lemma CacheFacts(c: Config, p: Pool)
    requires Inv(c, p, {})
    ensures forall h :: h in p.cache ==> p.cache[h] != {} && forall x :: x in p.cache[h] ==>
              x in p.hashOf && p.hashOf[x] == h
    ensures forall x :: x in p.hashOf ==> p.hashOf[x] in p.cache
  {
    hide LruOk, LayersOk, HolderOk, KvBytes, ExpertBytes, Exclusive, Sb, QueueOk;
  }

  // ----- One more block -----

  lemma TouchStart(p: Pool)
    ensures TouchAll(p, []) == p
  {
  }

  lemma TouchNext(p: Pool, ids: seq<nat>, k: nat)
    requires k < |ids| && forall j :: 0 <= j < |ids| ==> ids[j] < |p.refs|
    ensures TouchAll(p, ids[..k + 1]) == TouchPage(TouchAll(p, ids[..k]), ids[k])
  {
    assert ids[..k + 1][..k] == ids[..k];
  }

  lemma EvictStart(p: Pool)
    ensures EvictAll(p, []) == p
  {
  }

  lemma EvictNext(p: Pool, ids: seq<nat>, k: nat)
    requires k < |ids|
    ensures EvictAll(p, ids[..k + 1]) == EvictHash(EvictAll(p, ids[..k]), ids[k])
  {
    assert ids[..k + 1][..k] == ids[..k];
  }
}
