/** What the single steps of the pool are, said without their definitions: which order the free
    queue and the recency list keep, what a dropped or loaded expert leaves alone, and which
    bytes are where. */
module PoolFrames {
  import opened Recency
  import opened PoolState
  import opened PoolSteps
  import opened PoolQueries
  import opened PoolFacts
  import opened KvVictim
  import opened BlockOps
  import opened Freeing
  import opened ExpertLoad
  import opened LoadTrace

  // ----- The free queue -----

  ghost function Outside(gone: set<nat>): nat -> bool { x => x !in gone }

  /** The pages that are left, in the order they had. */
  ghost function Except(queue: seq<nat>, gone: set<nat>): seq<nat> { Filter(queue, Outside(gone)) }

  /** Taking a page out closes the gap and moves nothing else. */
  lemma {:induction false} RemovedInPlace(queue: seq<nat>, k: nat)
    requires NoRepeats(queue) && k < |queue|
    ensures QueueRemove(queue, queue[k]) == queue[..k] + queue[k + 1..]
  {
    if k > 0 {
      RemovedInPlace(queue[1..], k - 1);
    }
  }

  lemma {:induction false} RemoveMissing(queue: seq<nat>, x: nat)
    requires x !in queue
    ensures QueueRemove(queue, x) == queue
  {
    if queue != [] {
      RemoveMissing(queue[1..], x);
    }
  }

  lemma {:induction false} FilterAll<T>(s: seq<T>, f: T -> bool)
    requires forall k :: 0 <= k < |s| ==> f(s[k])
    ensures Filter(s, f) == s
  {
    if s != [] {
      FilterAll(s[..|s| - 1], f);
    }
  }

  lemma FilterOne<T>(x: T, f: T -> bool)
    ensures Filter([x], f) == if f(x) then [x] else []
  {
    assert [x][..0] == [];
  }

  lemma {:induction false} FilterSplit<T>(a: seq<T>, b: seq<T>, f: T -> bool)
    ensures Filter(a + b, f) == Filter(a, f) + Filter(b, f)
  {
    if b == [] {
      assert a + b == a;
    } else {
      var n := |b| - 1;
      FilterSplit(a, b[..n], f);
      assert (a + b)[..|a + b| - 1] == a + b[..n] && (a + b)[|a + b| - 1] == b[n];
    }
  }

  lemma {:induction false} FilterTwice<T>(s: seq<T>, f: T -> bool, g: T -> bool, h: T -> bool)
    requires forall x :: h(x) <==> f(x) && g(x)
    ensures Filter(Filter(s, f), g) == Filter(s, h)
  {
    if s != [] {
      var n := |s| - 1;
      FilterTwice(s[..n], f, g, h);
      var last := if f(s[n]) then [s[n]] else [];
      assert Filter(s, f) == Filter(s[..n], f) + last;
      FilterSplit(Filter(s[..n], f), last, g);
      FilterOne(s[n], g);
    }
  }

  lemma FilterAround<T>(a: seq<T>, x: T, b: seq<T>, f: T -> bool)
    requires Filter(a, f) == a && Filter(b, f) == b && !f(x)
    ensures Filter(a + ([x] + b), f) == a + b
  {
    hide Filter;
    FilterSplit(a, [x] + b, f);
    FilterSplit([x], b, f);
    FilterOne(x, f);
  }

  /** Without element k of a list in which only that one is refused. */
  lemma FilterBut<T>(s: seq<T>, k: nat, f: T -> bool)
    requires k < |s| && forall j :: 0 <= j < |s| ==> (f(s[j]) <==> j != k)
    ensures Filter(s, f) == s[..k] + s[k + 1..]
  {
    hide Filter;
    FilterAll(s[..k], f);
    FilterAll(s[k + 1..], f);
    FilterAround(s[..k], s[k], s[k + 1..], f);
    assert s == s[..k] + ([s[k]] + s[k + 1..]);
  }

  lemma RemoveIsExcept(queue: seq<nat>, x: nat)
    requires NoRepeats(queue)
    ensures QueueRemove(queue, x) == Except(queue, {x})
  {
    hide QueueRemove, Filter;
    if x in queue {
      var k :| 0 <= k < |queue| && queue[k] == x;
      RemovedInPlace(queue, k);
      FilterBut(queue, k, Outside({x}));
    } else {
      RemoveMissing(queue, x);
      FilterAll(queue, Outside({x}));
    }
  }

  lemma ExceptDistinct(queue: seq<nat>, gone: set<nat>)
    requires NoRepeats(queue)
    ensures NoRepeats(Except(queue, gone)) && forall y :: y in Except(queue, gone) <==> y in queue && y !in gone
  {
    FilterPairs(queue, Outside(gone), (a, b) => a != b);
    FilterMembers(queue, Outside(gone));
  }

  /** The pages that are left stand in the order they stood in. */
  lemma ExceptOrder(queue: seq<nat>, gone: set<nat>, before: (nat, nat) -> bool)
    requires forall j, k :: 0 <= j < k < |queue| ==> before(queue[j], queue[k])
    ensures forall j, k :: 0 <= j < k < |Except(queue, gone)| ==>
              before(Except(queue, gone)[j], Except(queue, gone)[k])
  {
    FilterPairs(queue, Outside(gone), before);
  }

  lemma NoneTaken(queue: seq<nat>, ids: seq<nat>)
    requires ids == []
    ensures Except(queue, Members(ids)) == queue
  {
    FilterAll(queue, Outside(Members(ids)));
  }

  lemma ExceptMore(queue: seq<nat>, gone: set<nat>, x: nat)
    ensures Except(Except(queue, gone), {x}) == Except(queue, gone + {x})
  {
    FilterTwice(queue, Outside(gone), Outside({x}), Outside(gone + {x}));
  }

  /** Taking pages one after the other leaves the others in the queue as they stood. */
  lemma {:induction false} TakeAllQueue(c: Config, p: Pool, ids: seq<nat>)
    requires c.F > 0 && NoRepeats(p.queue)
    ensures TakeAll(c, p, ids).queue == Except(p.queue, Members(ids))
  {
    hide QueueRemove, NoRepeats, Except;
    if ids == [] {
      NoneTaken(p.queue, ids);
    } else {
      var n := |ids| - 1;
      TakeAllQueue(c, p, ids[..n]);
      ExceptDistinct(p.queue, Members(ids[..n]));
      RemoveIsExcept(Except(p.queue, Members(ids[..n])), ids[n]);
      ExceptMore(p.queue, Members(ids[..n]), ids[n]);
      LastMember(ids);
    }
  }

  lemma {:induction false} AllocateAllQueue(p: Pool, ids: seq<nat>)
    requires forall k :: 0 <= k < |ids| ==> ids[k] < |p.refs|
    ensures AllocateAll(p, ids).queue == p.queue && AllocateAll(p, ids).layers == p.layers
  {
    if ids != [] {
      AllocateAllQueue(p, ids[..|ids| - 1]);
    }
  }

  /** A hit: every block gains a reference per mention, and the free ones among them leave the
      queue, the others staying as they stood. */
  lemma {:induction false} TouchAllIs(c: Config, p: Pool, ids: seq<nat>)
    requires Inv(c, p, {}) && Touchable(c, p, ids)
    ensures TouchAll(p, ids).queue == Except(p.queue, Members(ids))
    ensures forall y :: 0 <= y < |p.refs| ==> TouchAll(p, ids).refs[y] == p.refs[y] + multiset(ids)[y]
  {
    hide Inv, QueueRemove, NoRepeats, Except, Remove, TouchPage, Members;
    if ids == [] {
      NoneTouched(p);
    } else {
      var n := |ids| - 1;
      TouchAllIs(c, p, ids[..n]);
      TouchNextIs(c, p, ids, n, TouchAll(p, ids[..n]));
    }
  }

  lemma NoneTouched(p: Pool)
    ensures Except(p.queue, Members([])) == p.queue && TouchAll(p, []) == p
  {
    NoneTaken(p.queue, []);
  }

  lemma TouchNextIs(c: Config, p: Pool, ids: seq<nat>, n: nat, q: Pool)
    requires Inv(c, p, {}) && |p.refs| == c.pages && n == |ids| - 1 && ids[n] < |p.refs| == |q.refs|
    requires q.queue == Except(p.queue, Members(ids[..n]))
    requires forall y :: 0 <= y < |p.refs| ==> q.refs[y] == p.refs[y] + multiset(ids[..n])[y]
    ensures TouchPage(q, ids[n]).queue == Except(p.queue, Members(ids))
    ensures forall y :: 0 <= y < |p.refs| ==> TouchPage(q, ids[n]).refs[y] == p.refs[y] + multiset(ids)[y]
  {
    hide Inv, QueueRemove, NoRepeats, Except, Remove, Members;
    var x := ids[n];
    QueueFacts(c, p, x);
    LastMember(ids);
    if q.refs[x] != 0 || x == 0 {
      NotQueued(p.queue, ids[..n], x);
    }
    TouchQueue(p.queue, Members(ids[..n]), x);
  }

  lemma LastMember(ids: seq<nat>)
    requires ids != []
    ensures
      var (front, x) := (ids[..|ids| - 1], ids[|ids| - 1]);
      && Members(ids) == Members(front) + {x}
      && forall y: nat :: multiset(ids)[y] == multiset(front)[y] + if y == x then 1 else 0
  {
    hide Members;
    var n := |ids| - 1;
    NextMembers(ids, n);
    assert ids[..n + 1] == ids;
    forall y: nat ensures multiset(ids)[y] == multiset(ids[..n])[y] + if y == ids[n] then 1 else 0 {
      CountLast(ids, y);
    }
  }

  lemma NotQueued(queue: seq<nat>, ids: seq<nat>, x: nat)
    requires NoRepeats(queue)
    ensures x in Except(queue, Members(ids)) ==> x in queue && multiset(ids)[x] == 0
  {
    ExceptDistinct(queue, Members(ids));
    if x !in ids {
      assert multiset(ids)[x] == 0;
    }
  }

  lemma QueueFacts(c: Config, p: Pool, x: nat)
    requires Inv(c, p, {})
    ensures NoRepeats(p.queue) && (x in p.queue ==> 0 < x < |p.refs| && p.refs[x] == 0)
  {
    hide LruOk, CacheOk, LayersOk, HolderOk, Exclusive, KvBytes, ExpertBytes;
  }

  lemma TouchQueue(queue: seq<nat>, gone: set<nat>, x: nat)
    requires NoRepeats(queue)
    ensures QueueRemove(Except(queue, gone), x) == Except(queue, gone + {x})
    ensures x !in Except(queue, gone) ==> Except(queue, gone) == Except(queue, gone + {x})
  {
    hide QueueRemove, NoRepeats, Except;
    ExceptDistinct(queue, gone);
    RemoveIsExcept(Except(queue, gone), x);
    ExceptMore(queue, gone, x);
    if x !in Except(queue, gone) {
      RemoveMissing(Except(queue, gone), x);
    }
  }

  // ----- Freeing -----

  /** The last reference of a block. */
  ghost function LastRef(refs: seq<int>): nat -> bool { x => 0 < x < |refs| && refs[x] == 1 }

  ghost function Hashed(hashOf: map<nat, nat>): nat -> bool { x => x in hashOf }

  ghost function Stamps(xs: seq<nat>, step: nat): (r: seq<Entry>)
    ensures |r| == |xs|
  {
    seq(|xs|, k requires 0 <= k < |xs| => Entry(xs[k], step))
  }

  /** The blocks whose last reference went are queued at the end in the order of the list, and
      those that are cached become the most recent prefixes in that order. */
  ghost predicate FreedAtEnd(p: Pool, q: Pool, ids: seq<nat>) {
    var freed := Filter(ids, LastRef(p.refs));
    && q.queue == p.queue + freed
    && q.lru == p.lru + Stamps(Filter(freed, Hashed(p.hashOf)), p.step)
    && |q.refs| == |p.refs| && forall x :: 0 <= x < |p.refs| ==> q.refs[x] == p.refs[x] - multiset(ids)[x]
  }

  lemma FreePassesAre(c: Config, p: Pool, ids: seq<nat>)
    requires Inv(c, p, {}) && InRange(p.refs, ids) && Freeable(p.refs, ids)
    ensures FreedAtEnd(p, FreePasses(p, ids), ids)
  {
    hide Inv, StampAll, NewlyFreed, Decrement, Filter, Freeable;
    var f := Decrement(p.refs, ids);
    forall x | 0 <= x < |p.refs| ensures f[x] == p.refs[x] - multiset(ids)[x] { DecrementIs(p.refs, ids, x); }
    forall k | 0 <= k < |ids| ensures (f[ids[k]] == 0 && ids[k] != 0) <==> LastRef(p.refs)(ids[k]) {
      assert ids[k] in ids;
      if ids[k] != 0 {
        FreeableAt(p.refs, ids, ids[k]);
      }
    }
    FreedAre(f, p.refs, ids);
    var freed := Filter(ids, LastRef(p.refs));
    FreedOnce(p.refs, ids);
    FilterMembers(ids, LastRef(p.refs));
    forall x | x in freed ensures x !in Keys(p.lru) { NotListed(c, p, x); }
    StampsAre(p.lru, p.hashOf, freed, p.step);
  }

  lemma FreeableAt(refs: seq<int>, ids: seq<nat>, x: nat)
    requires Freeable(refs, ids) && x in ids && x < |refs| && x != 0
    ensures refs[x] == multiset(ids)[x] <==> refs[x] == 1
    ensures refs[x] == 1 ==> multiset(ids)[x] == 1
  {
    assert multiset(ids)[x] >= 1;
  }

  lemma NotListed(c: Config, p: Pool, x: nat)
    requires Inv(c, p, {}) && LastRef(p.refs)(x)
    ensures x !in Keys(p.lru)
  {
    hide CacheOk, LayersOk, HolderOk, Exclusive, KvBytes, ExpertBytes, Keys;
  }

  lemma {:induction false} FreedAre(f: seq<int>, refs: seq<int>, ids: seq<nat>)
    requires InRange(f, ids)
    requires forall k :: 0 <= k < |ids| ==> ((f[ids[k]] == 0 && ids[k] != 0) <==> LastRef(refs)(ids[k]))
    ensures NewlyFreed(f, ids) == Filter(ids, LastRef(refs))
  {
    hide LastRef;
    if ids != [] {
      var n := |ids| - 1;
      FreedAre(f, refs, ids[..n]);
    }
  }

  lemma FreedOnce(refs: seq<int>, ids: seq<nat>)
    requires Freeable(refs, ids)
    ensures NoRepeats(Filter(ids, LastRef(refs)))
  {
    hide Freeable;
    var freed := Filter(ids, LastRef(refs));
    FilterMembers(ids, LastRef(refs));
    FilterCounts(ids, LastRef(refs));
    forall j, k | 0 <= j < k < |freed| ensures freed[j] != freed[k] {
      if freed[j] == freed[k] {
        Twice(freed, j, k);
        FreeableAt(refs, ids, freed[j]);
      }
    }
  }

  lemma Twice(s: seq<nat>, j: nat, k: nat)
    requires j < k < |s| && s[j] == s[k]
    ensures multiset(s)[s[j]] >= 2
  {
    assert s == s[..j] + [s[j]] + s[j + 1..k] + [s[k]] + s[k + 1..];
  }

  lemma {:induction false} FilterCounts(s: seq<nat>, f: nat -> bool)
    ensures forall x :: multiset(Filter(s, f))[x] <= multiset(s)[x]
  {
    if s != [] {
      FilterCounts(s[..|s| - 1], f);
      assert s == s[..|s| - 1] + [s[|s| - 1]];
    }
  }

  lemma {:induction false} StampsAre(lru: seq<Entry>, hashOf: map<nat, nat>, freed: seq<nat>, step: nat)
    requires NoRepeats(freed) && forall x :: x in freed ==> x !in Keys(lru)
    ensures StampAll(lru, hashOf, freed, step) == lru + Stamps(Filter(freed, Hashed(hashOf)), step)
  {
    hide Keys, Remove;
    if freed != [] {
      var n := |freed| - 1;
      var (rest, x) := (freed[..n], freed[n]);
      assert freed == rest + [x];
      StampsAre(lru, hashOf, rest, step);
      var listed := Filter(rest, Hashed(hashOf));
      FilterMembers(rest, Hashed(hashOf));
      if x in hashOf {
        assert x !in rest;
        var l := lru + Stamps(listed, step);
        NotAdded(lru, listed, step, x);
        RemoveAbsent(l, x);
        assert Stamps(listed + [x], step) == Stamps(listed, step) + [Entry(x, step)];
      }
    }
  }

  lemma NotAdded(lru: seq<Entry>, xs: seq<nat>, step: nat, x: nat)
    requires x !in Keys(lru) && x !in xs
    ensures x !in Keys(lru + Stamps(xs, step))
  {
    var l := lru + Stamps(xs, step);
    forall k | 0 <= k < |l| ensures l[k].key != x {
      if k < |lru| {
        assert lru[k] in lru;
      } else {
        assert l[k].key == xs[k - |lru|];
      }
    }
  }

  // ----- Experts -----

  /** The layers have the experts they had, where they were and with their stamps and pins, but
      for those in the super-blocks that are gone. */
  ghost predicate OthersKept(ls: seq<Layer>, ms: seq<Layer>, gone: set<nat>) {
    |ms| == |ls| && forall i :: 0 <= i < |ls| ==> LayerKept(ls[i], ms[i], gone)
  }

  ghost predicate LayerKept(l: Layer, m: Layer, gone: set<nat>) {
    && m.pinned == l.pinned
    && (forall e :: e in m.sbAt <==> e in l.sbAt && l.sbAt[e] !in gone)
    && (forall e :: e in m.sbAt ==> m.sbAt[e] == l.sbAt[e])
    && (forall f :: f in m.lru <==> f in l.lru && f.key in m.sbAt)
  }

  lemma DropExpertIs(c: Config, experts: nat, l: Layer, step: nat, s: nat)
    requires c.F > 0 && LayerOk(c, experts, l, step)
    ensures LayerKept(l, DropExpert(l, s), {s})
  {
    hide Remove;
    forall f | f in l.lru ensures f.key in l.sbAt { InKeys(l.lru, f); }
    if s in l.expertAt {
      RemoveKeeps(l.lru, l.expertAt[s]);
    }
  }

  /** Dropping a super-block's experts in all layers leaves every other mapping alone. */
  lemma DropAllIsExact(c: Config, p: Pool, s: nat, taken: set<nat>)
    requires Inv(c, p, taken)
    ensures OthersKept(p.layers, DropAll(p, s).layers, {s})
    ensures DropAll(p, s) == p.(layers := DropAll(p, s).layers, holder := DropAll(p, s).holder)
  {
    hide LruOk, CacheOk, QueueOk, Exclusive, KvBytes, ExpertBytes, LayerKept, LayerOk, DropExpert, HolderOk;
    var ms := DropAll(p, s).layers;
    forall i | 0 <= i < |p.layers| ensures LayerKept(p.layers[i], ms[i], {s}) {
      DropExpertIs(c, |c.weights[i]|, p.layers[i], p.step, s);
      if !(s in p.holder && i in p.holder[s]) {
        NotHeldBy(p, s, i);
      }
    }
  }

  lemma NotHeldBy(p: Pool, s: nat, i: nat)
    requires HolderOk(p.layers, p.holder) && i < |p.layers| && !(s in p.holder && i in p.holder[s])
    ensures DropExpert(p.layers[i], s) == p.layers[i]
  {
    assert i !in Holders(p.layers, s);
  }

  lemma KeptMore(ls: seq<Layer>, ms: seq<Layer>, ns: seq<Layer>, a: set<nat>, b: set<nat>)
    requires OthersKept(ls, ms, a) && OthersKept(ms, ns, b)
    ensures OthersKept(ls, ns, a + b)
  {
    hide LayerKept;
    forall i | 0 <= i < |ls| ensures LayerKept(ls[i], ns[i], a + b) {
      KeptMoreLayer(ls[i], ms[i], ns[i], a, b);
    }
  }

  lemma KeptMoreLayer(l: Layer, m: Layer, n: Layer, a: set<nat>, b: set<nat>)
    requires LayerKept(l, m, a) && LayerKept(m, n, b)
    ensures LayerKept(l, n, a + b)
  {
  }

  lemma NoneGone(c: Config, p: Pool, taken: set<nat>)
    requires Inv(c, p, taken)
    ensures OthersKept(p.layers, p.layers, {})
  {
    hide LruOk, CacheOk, QueueOk, Exclusive, KvBytes, ExpertBytes, HolderOk;
    forall i, f | 0 <= i < |p.layers| && f in p.layers[i].lru ensures f.key in p.layers[i].sbAt {
      assert LayerOk(c, |c.weights[i]|, p.layers[i], p.step);
      InKeys(p.layers[i].lru, f);
    }
  }

  /** The super-blocks of some pages. */
  ghost function Homes(c: Config, ids: seq<nat>): set<nat>
    requires c.F > 0
  {
    set x | x in ids :: Sb(c, x)
  }

  lemma HomesNext(c: Config, ids: seq<nat>, x: nat)
    requires c.F > 0
    ensures Homes(c, ids + [x]) == Homes(c, ids) + {Sb(c, x)} && Homes(c, []) == {}
  {
    hide Sb;
    forall y | y in ids ensures Sb(c, y) in Homes(c, ids + [x]) { assert y in ids + [x]; }
    assert x in ids + [x];
  }

  /** One more page taken, after some that left only their own super-blocks without experts. */
  lemma TakenKept(c: Config, p0: Pool, p: Pool, ids: seq<nat>, x: nat, taken: set<nat>)
    requires Inv(c, p, taken) && c.F > 0 && OthersKept(p0.layers, p.layers, Homes(c, ids))
    ensures OthersKept(p0.layers, TakePage(c, p, x).layers, Homes(c, ids + [x]))
  {
    hide Inv, OthersKept, Homes, DropAll, Sb;
    DropAllIsExact(c, p, Sb(c, x), taken);
    HomesNext(c, ids, x);
    KeptMore(p0.layers, p.layers, TakePage(c, p, x).layers, Homes(c, ids), {Sb(c, x)});
  }

  /** One layer's drop leaves its other experts and all other layers alone. */
  lemma DropMappingIs(c: Config, p: Pool, i: nat, s: nat, taken: set<nat>)
    requires Inv(c, p, taken) && i < |p.layers|
    ensures
      var q := DropMapping(p, i, s);
      && q == p.(layers := q.layers, holder := q.holder) && |q.layers| == |p.layers|
      && LayerKept(p.layers[i], q.layers[i], {s})
      && forall k :: 0 <= k < |p.layers| && k != i ==> q.layers[k] == p.layers[k]
  {
    hide LruOk, CacheOk, QueueOk, Exclusive, KvBytes, ExpertBytes, HolderOk, LayerKept, LayerOk, DropExpert;
    DropExpertIs(c, |c.weights[i]|, p.layers[i], p.step, s);
    if s !in p.layers[i].expertAt {
      NothingDropped(p.layers[i], s);
    }
  }

  lemma NothingDropped(l: Layer, s: nat)
    requires s !in l.expertAt
    ensures DropExpert(l, s) == l
  {
  }

  // ----- Loading -----

  /** Loading expert e into super-block s: e is there, stamped and pinned, every other expert of
      the layer is where it was, the other layers are as they were, and of the buffers only the
      pages of s in this layer's change. */
  ghost predicate LoadedOnly(c: Config, p: Pool, q: Pool, i: nat, s: nat, e: nat) {
    && i < |p.layers| == |q.layers| && (forall k :: 0 <= k < |p.layers| && k != i ==> q.layers[k] == p.layers[k])
    && q.layers[i].sbAt == p.layers[i].sbAt[e := s] && q.layers[i].pinned == p.layers[i].pinned + {s}
    && (forall f :: f in q.layers[i].lru <==> f == Entry(e, p.step) || (f in p.layers[i].lru && f.key != e))
    && q.refs == p.refs && q.queue == p.queue && q.hashOf == p.hashOf && q.cache == p.cache && q.lru == p.lru
    && |q.mem| == |p.mem| && (forall b :: 0 <= b < |p.mem| && b != i ==> q.mem[b] == p.mem[b])
    && c.F > 0 && i < |p.mem| && |q.mem[i]| == |p.mem[i]|
    && (forall x: nat :: x < |p.mem[i]| && !(s * c.F <= x < s * c.F + c.F) ==> q.mem[i][x] == p.mem[i][x])
    && i < |c.weights| && e < |c.weights[i]| && |c.weights[i][e]| == c.F
    && (forall k: nat :: k < c.F && s * c.F + k < |p.mem[i]| ==> q.mem[i][s * c.F + k] == c.weights[i][e][k])
  }

  lemma LoadExpertIs(c: Config, p: Pool, i: nat, s: nat, e: nat)
    requires c.F > 0 && i < |p.layers| && i < |p.mem| && i < |c.weights| && e < |c.weights[i]|
    requires |c.weights[i][e]| == c.F && Distinct(p.layers[i].lru)
    ensures LoadedOnly(c, p, LoadExpert(c, p, i, s, e), i, s, e)
  {
    forall x: nat ensures Sb(c, x) == s <==> s * c.F <= x < s * c.F + c.F { PagesOf(c, s, x); }
    forall x: nat | Sb(c, x) == s ensures Offset(c, x) == x - s * c.F { OffsetIs(c, s, x - s * c.F); }
    hide Sb, Offset, Remove;
    RemoveKeeps(p.layers[i].lru, e);
  }

  lemma OffsetIs(c: Config, s: nat, k: nat)
    requires k < c.F
    ensures Offset(c, s * c.F + k) == k && Sb(c, s * c.F + k) == s
  {
    PagesOf(c, s, s * c.F + k);
    var d := (s * c.F + k) / c.F;
    assert s * c.F + k == d * c.F + (s * c.F + k) % c.F;
  }

  /** What the kernel reads: page k of an expert's weights is page k of its super-block. */
  lemma ReadyBytes(c: Config, p: Pool, i: nat, e: nat, k: nat)
    requires Ready(c, p, i, e) && k < c.F
    ensures
      var x := p.layers[i].table[e] * c.F + k;
      0 <= x < |p.mem[i]| ==> p.mem[i][x] == c.weights[i][e][k]
  {
    OffsetIs(c, p.layers[i].sbAt[e], k);
  }

  ghost function In(m: map<nat, nat>): nat -> bool { e => e in m }

  ghost function NotIn(m: map<nat, nat>): nat -> bool { e => e !in m }

  /** The needed experts are split into those resident and those not, each in their order. */
  lemma {:induction false} SplitIs(needed: seq<nat>, sbAt: map<nat, nat>)
    ensures Residents(needed, sbAt) == Filter(needed, In(sbAt))
    ensures Missing(needed, sbAt) == Filter(needed, NotIn(sbAt))
  {
    if needed != [] {
      SplitIs(needed[..|needed| - 1], sbAt);
    }
  }

  ghost function OtherKey(keys: set<nat>): Entry -> bool { (f: Entry) => f.key !in keys }

  lemma RemoveIsFilter(l: seq<Entry>, key: nat)
    requires Distinct(l)
    ensures Remove(l, key) == Filter(l, OtherKey({key}))
  {
    hide Filter;
    var k := Find(l, key);
    if k < |l| {
      FilterBut(l, k, OtherKey({key}));
    } else {
      FilterAll(l, OtherKey({key}));
    }
  }

  /** Hits become the most recent experts of their layer in the order of the hits, and their
      super-blocks are pinned; the other experts stay as they were. */
  ghost predicate HitsOnTop(p: Pool, q: Pool, i: nat, hits: seq<nat>)
    requires i < |p.layers| && forall k :: 0 <= k < |hits| ==> hits[k] in p.layers[i].sbAt
  {
    var l := p.layers[i];
    && q == p.(layers := q.layers) && |q.layers| == |p.layers|
    && (forall k :: 0 <= k < |p.layers| && k != i ==> q.layers[k] == p.layers[k])
    && q.layers[i].expertAt == l.expertAt && q.layers[i].sbAt == l.sbAt && q.layers[i].table == l.table
    && q.layers[i].pinned == l.pinned + (set k | 0 <= k < |hits| :: l.sbAt[hits[k]])
    && q.layers[i].lru == Filter(l.lru, OtherKey(Members(hits))) + Stamps(hits, p.step)
  }

  lemma {:induction false} HitAllIs(p: Pool, i: nat, hits: seq<nat>)
    requires i < |p.layers| && NoRepeats(hits) && Distinct(p.layers[i].lru)
    requires forall k :: 0 <= k < |hits| ==> hits[k] in p.layers[i].sbAt && hits[k] in Keys(p.layers[i].lru)
    ensures HitsOnTop(p, HitAll(p, i, hits), i, hits)
  {
    hide Filter, Stamps, Keys, Distinct, Members, HitsOnTop, Bump, Pin;
    if hits == [] {
      NoHits(p, i);
    } else {
      var n := |hits| - 1;
      var (rest, e) := (hits[..n], hits[n]);
      HitAllIs(p, i, rest);
      assert hits[..n + 1] == hits == rest + [e];
      HitNext(p, i, hits, n);
      HitOnTop(p, HitAll(p, i, rest), i, rest, e);
    }
  }

  lemma HitOnTop(p: Pool, q: Pool, i: nat, rest: seq<nat>, e: nat)
    requires i < |p.layers| && NoRepeats(rest + [e]) && Distinct(p.layers[i].lru) && e in Keys(p.layers[i].lru)
    requires e in p.layers[i].sbAt && forall k :: 0 <= k < |rest| ==> rest[k] in p.layers[i].sbAt
    requires HitsOnTop(p, q, i, rest)
    ensures HitsOnTop(p, Pin(Bump(q, i, e), i, p.layers[i].sbAt[e]), i, rest + [e])
  {
    hide Filter, Stamps, Keys, Distinct, Members, Touch;
    var l := p.layers[i];
    LastAlone(rest, e);
    OnTopNext(l.lru, rest, e, p.step);
    LastMember(rest + [e]);
    assert (rest + [e])[..|rest|] == rest;
    PinsNext(l.sbAt, rest, e);
  }

  lemma LastAlone(rest: seq<nat>, e: nat)
    requires NoRepeats(rest + [e])
    ensures NoRepeats(rest) && e !in rest
  {
    forall k | 0 <= k < |rest| ensures rest[k] != e {
      assert (rest + [e])[k] == rest[k] && (rest + [e])[|rest|] == e;
    }
    forall j, k | 0 <= j < k < |rest| ensures rest[j] != rest[k] {
      assert (rest + [e])[j] == rest[j] && (rest + [e])[k] == rest[k];
    }
  }

  lemma NoHits(p: Pool, i: nat)
    requires i < |p.layers|
    ensures HitsOnTop(p, p, i, [])
  {
    hide Filter;
    var l := p.layers[i];
    FilterAll(l.lru, OtherKey(Members([])));
    assert l.lru + Stamps([], p.step) == l.lru;
    assert l.pinned + {} == l.pinned;
  }

  lemma PinsNext(sbAt: map<nat, nat>, rest: seq<nat>, e: nat)
    requires e in sbAt && forall k :: 0 <= k < |rest| ==> rest[k] in sbAt
    ensures
      var more := rest + [e];
      (set k | 0 <= k < |more| :: sbAt[more[k]]) == (set k | 0 <= k < |rest| :: sbAt[rest[k]]) + {sbAt[e]}
  {
    var more := rest + [e];
    assert more[|rest|] == e && forall k :: 0 <= k < |rest| ==> more[k] == rest[k];
  }

  /** Touching one more key in a list with the stamps of others on top. */
  lemma OnTopNext(l: seq<Entry>, rest: seq<nat>, e: nat, step: nat)
    requires Distinct(l) && NoRepeats(rest) && e !in rest && e in Keys(l)
    ensures
      var now := Filter(l, OtherKey(Members(rest))) + Stamps(rest, step);
      && e in Keys(now)
      && Touch(now, e, step) == Filter(l, OtherKey(Members(rest) + {e})) + Stamps(rest + [e], step)
  {
    hide Filter, Remove, Distinct, Keys, Stamps, Members, NoRepeats;
    var now := Filter(l, OtherKey(Members(rest))) + Stamps(rest, step);
    OnTopDistinct(l, rest, step);
    OnTopKeys(l, rest, e, step);
    RemoveIsFilter(now, e);
    OffTop(l, rest, e, step);
    OneMoreStamp(rest, e, step);
    var less := Filter(l, OtherKey(Members(rest) + {e}));
    assert less + Stamps(rest, step) + [Entry(e, step)] == less + (Stamps(rest, step) + [Entry(e, step)]);
  }

  lemma OneMoreStamp(rest: seq<nat>, e: nat, step: nat)
    ensures Stamps(rest + [e], step) == Stamps(rest, step) + [Entry(e, step)]
  {
  }

  /** Taking one more key out of a list with the stamps of others on top. */
  lemma OffTop(l: seq<Entry>, rest: seq<nat>, e: nat, step: nat)
    requires e !in rest
    ensures
      Filter(Filter(l, OtherKey(Members(rest))) + Stamps(rest, step), OtherKey({e}))
      == Filter(l, OtherKey(Members(rest) + {e})) + Stamps(rest, step)
  {
    hide Filter, Members;
    var (kept, stamps) := (Filter(l, OtherKey(Members(rest))), Stamps(rest, step));
    FilterSplit(kept, stamps, OtherKey({e}));
    forall k | 0 <= k < |stamps| ensures OtherKey({e})(stamps[k]) {
      assert stamps[k].key == rest[k];
    }
    FilterAll(stamps, OtherKey({e}));
    FilterTwice(l, OtherKey(Members(rest)), OtherKey({e}), OtherKey(Members(rest) + {e}));
  }

  lemma OnTopDistinct(l: seq<Entry>, rest: seq<nat>, step: nat)
    requires Distinct(l) && NoRepeats(rest)
    ensures Distinct(Filter(l, OtherKey(Members(rest))) + Stamps(rest, step))
  {
    hide Filter, Distinct, NoRepeats;
    var (kept, stamps) := (Filter(l, OtherKey(Members(rest))), Stamps(rest, step));
    FilterDistinct(l, OtherKey(Members(rest)));
    StampsDistinct(rest, step);
    forall j | 0 <= j < |kept| ensures kept[j].key !in rest {
      var i := FilterFrom(l, OtherKey(Members(rest)), j);
    }
    forall j, k | 0 <= j < |kept| && 0 <= k < |stamps| ensures kept[j].key != stamps[k].key {
      assert stamps[k].key == rest[k];
    }
    JoinDistinct(kept, stamps);
  }

  lemma FilterDistinct(l: seq<Entry>, f: Entry -> bool)
    requires Distinct(l)
    ensures Distinct(Filter(l, f))
  {
    hide Filter;
    FilterPairs(l, f, (a: Entry, b: Entry) => a.key != b.key);
  }

  lemma StampsDistinct(xs: seq<nat>, step: nat)
    requires NoRepeats(xs)
    ensures Distinct(Stamps(xs, step))
  {
  }

  lemma JoinDistinct(a: seq<Entry>, b: seq<Entry>)
    requires Distinct(a) && Distinct(b)
    requires forall j, k :: 0 <= j < |a| && 0 <= k < |b| ==> a[j].key != b[k].key
    ensures Distinct(a + b)
  {
  }

  lemma OnTopKeys(l: seq<Entry>, rest: seq<nat>, e: nat, step: nat)
    requires e in Keys(l) && e !in rest
    ensures e in Keys(Filter(l, OtherKey(Members(rest))) + Stamps(rest, step))
  {
    hide Filter;
    var kept := Filter(l, OtherKey(Members(rest)));
    FilterMembers(l, OtherKey(Members(rest)));
    var k :| 0 <= k < |l| && l[k].key == e;
    assert l[k] in kept;
    InKeys(kept + Stamps(rest, step), l[k]);
  }

  // ----- Writing -----

  /** A written block holds the data in every buffer, and nothing else changes. */
  lemma WritePageIs(mem: seq<seq<Bytes>>, x: nat, data: seq<Bytes>, b: nat, y: nat)
    requires |data| == |mem| && (forall a :: 0 <= a < |mem| ==> x < |mem[a]|) && b < |mem| && y < |mem[b]|
    ensures |WritePage(mem, x, data)[b]| == |mem[b]|
    ensures WritePage(mem, x, data)[b][y] == if y == x then data[b] else mem[b][y]
  {
  }

  /** A cached block is found under its hash, and every other block as before. */
  lemma CachePageIs(p: Pool, x: nat, h: nat)
    requires x !in p.hashOf
    ensures
      var q := CachePage(p, x, h);
      && q == p.(hashOf := q.hashOf, cache := q.cache) && x in q.hashOf && q.hashOf[x] == h
      && (forall y :: y != x ==> (y in q.hashOf <==> y in p.hashOf) && (y in p.hashOf ==> q.hashOf[y] == p.hashOf[y]))
      && h in q.cache && x in q.cache[h]
  {
  }

  // ----- The search for the cheapest KV super-block -----

  /** The pages of a super-block among the n coldest are counted one by one. */
  lemma {:induction false} ColdCountIs(c: Config, lru: seq<Entry>, n: nat, s: nat)
    requires c.F > 0 && n <= |lru|
    ensures ColdCount(c, lru, n, s) == |set k | 0 <= k < n && Sb(c, lru[k].key) == s|
  {
    hide Sb;
    var now := set k | 0 <= k < n && Sb(c, lru[k].key) == s;
    if n == 0 {
      assert now == {};
    } else {
      ColdCountIs(c, lru, n - 1, s);
      var before := set k | 0 <= k < n - 1 && Sb(c, lru[k].key) == s;
      if Sb(c, lru[n - 1].key) == s {
        assert now == before + {n - 1};
      } else {
        assert now == before;
      }
    }
  }
}
