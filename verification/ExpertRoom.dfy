/** The choice of a super-block for an expert: what may be given up and what is kept. */
module ExpertRoom {
  import opened Recency
  import opened PoolState
  import opened PoolSteps
  import opened PoolQueries
  import opened PoolFacts
  import opened VacatePlan
  import opened VacateSteps

  datatype Verdict = Pass | Accept | OutOfRange

  datatype Choice = NoChoice | Chosen(s: nat, score: int) | IndexError

  datatype Room = Room(s: nat) | Exhausted | BadIndex

  /** Whether candidates are scored by their warmest page, and whether vacated pages are moved. */
  datatype Knobs = Knobs(warmest: bool, relocation: bool)

  datatype Decision = TookKv(s: nat, score: int) | TookExpert(e: nat, step: nat) | TookNothing

  /** A super-block whose pages are all free and unhashed. */
  ghost predicate Pure(c: Config, p: Pool, s: nat)
    requires c.F > 0 && |p.refs| == c.pages
  {
    0 < s < SuperBlocks(c) && forall x: nat :: x < c.pages && Sb(c, x) == s ==> p.refs[x] <= 0 && x !in p.hashOf
  }

  /** No super-block can take an expert of layer i. */
  ghost predicate Crowded(c: Config, p: Pool, i: nat, needed: set<nat>)
    requires c.F > 0 && |p.refs| == c.pages && i < |p.layers|
  {
    forall s :: 0 < s < SuperBlocks(c) ==>
      || HasLive(c, p.refs, s)
      || (s in p.layers[i].expertAt && (p.layers[i].expertAt[s] in needed || s in p.layers[i].pinned))
  }

  ghost predicate Evictable(l: Layer, needed: set<nat>, e: nat) {
    e in l.sbAt && e !in needed && l.sbAt[e] !in l.pinned
  }

  ghost predicate NoSpare(l: Layer, needed: set<nat>) {
    forall e :: e in l.sbAt ==> !Evictable(l, needed, e)
  }

  /** Of the two candidates the colder one is given up, and KV on ties. */
  ghost predicate ColderTaken(c: Config, p: Pool, i: nat, needed: set<nat>, d: Decision, warmest: bool)
    requires c.F > 0 && |p.refs| == c.pages && i < |p.layers|
  {
    match d
    case TookNothing => false
    case TookKv(s, score) =>
      && Top(c, p, s) && ScoreOk(c, p.lru, s, score, warmest)
      && (forall f :: f in p.layers[i].lru && Evictable(p.layers[i], needed, f.key) ==> score <= f.step)
    case TookExpert(e, step) =>
      && Entry(e, step) in p.layers[i].lru && Evictable(p.layers[i], needed, e)
      && (forall f :: f in p.layers[i].lru && Evictable(p.layers[i], needed, f.key) ==> step <= f.step)
      && (|| AllBarred(c, p, |p.lru|)
          || exists s: nat, score :: Top(c, p, s) && ScoreOk(c, p.lru, s, score, warmest) && step < score)
  }

  /** A super-block that experts of other layers occupy and none of layer i. */
  ghost predicate Shareable(p: Pool, i: nat, s: nat)
    requires i < |p.layers|
  {
    s in p.holder && s > 0 && s !in p.layers[i].pinned && s !in p.layers[i].expertAt
  }

  /** A super-block that nobody uses. */
  ghost predicate Unused(c: Config, p: Pool, i: nat, s: nat)
    requires c.F > 0 && |p.refs| == c.pages && i < |p.layers|
  {
    s !in p.holder && s !in p.layers[i].expertAt && s !in p.layers[i].pinned && Pure(c, p, s)
  }

  /** Nothing can be had without evicting, and the KV super-block that comes up is not whole. */
  ghost predicate Stuck(c: Config, p: Pool, i: nat)
    requires c.F > 0 && |p.refs| == c.pages && i < |p.layers|
  {
    (forall s :: !Shareable(p, i, s)) && (forall s :: !Unused(c, p, i, s)) && Ragged(c, p)
  }

  lemma StuckIsUneven(c: Config, p: Pool, i: nat)
    requires Inv(c, p, {}) && i < |p.layers| && Stuck(c, p, i)
    ensures c.pages % c.F != 0
  {
    hide Inv, Ragged;
    Sized(c, p);
    if c.pages % c.F == 0 {
      EvenNotRagged(c, p);
    }
  }

  /** When the pages divide evenly into super-blocks, no search ever gets stuck. */
  lemma EvenNotRagged(c: Config, p: Pool)
    requires Inv(c, p, {}) && c.pages % c.F == 0
    ensures !Ragged(c, p)
  {
    hide Inv, Top;
    Sized(c, p);
    forall s: nat | Top(c, p, s) ensures Whole(c, s) {
      TopIs(c, p, s);
      var e :| e in p.lru && Sb(c, e.key) == s;
      InKeys(p.lru, e);
      LruPages(c, p, e.key, {});
      PagesOf(c, s, e.key);
      PartialSuperBlock(c, s);
    }
  }

  /** With five pages in super-blocks of two, the coldest cached
      page is the odd one out.  Super-block 1 has no live page, yet an expert gets no room. */
  lemma RaggedExample()
    ensures
      var (c, p) := RaggedPool();
      Inv(c, p, {}) && Stuck(c, p, 0) && !HasLive(c, p.refs, 1) && 0 < 1 < SuperBlocks(c)
  {
    hide Inv, Top;
    var (c, p) := RaggedPool();
    RaggedSound();
    RaggedTop();
    assert Top(c, p, 2) && !Whole(c, 2);
    forall s ensures !Unused(c, p, 0, s) {
      assert Sb(c, 2) == 1 && 2 in p.hashOf && SuperBlocks(c) == 2;
    }
  }

  lemma RaggedSound()
    ensures Inv(RaggedPool().0, RaggedPool().1, {})
  {
    hide QueueOk, LruOk, CacheOk, LayersOk, HolderOk, Exclusive, KvBytes, ExpertBytes;
    RaggedPages();
    RaggedHashes();
    RaggedLayers();
  }

  lemma RaggedPages()
    ensures
      var (c, p) := RaggedPool();
      QueueOk(c, p.refs, p.queue, {}) && LruOk(p.hashOf, p.queue, p.lru, p.step)
  {
  }

  lemma RaggedHashes()
    ensures
      var (c, p) := RaggedPool();
      && ConfigOk(c, |p.mem|) && CacheOk(c, p.hashOf, p.cache) && KvBytes(c, p.hashOf, p.mem)
      && Exclusive(c, p.queue, p.hashOf, p.holder)
  {
  }

  lemma RaggedLayers()
    ensures
      var (c, p) := RaggedPool();
      && LayersOk(c, p.layers, p.step) && HolderOk(p.layers, p.holder) && ConfigOk(c, |p.mem|)
      && ExpertBytes(c, p.layers, p.mem)
  {
  }

  lemma RaggedTop()
    ensures
      var (c, p) := RaggedPool();
      Top(c, p, 2)
  {
    var (c, p) := RaggedPool();
    var l := p.lru;
    assert Sb(c, 4) == 2 && Sb(c, 2) == 1;
    forall t ensures FirstIn(c, l, 1, t) == if t == 2 then 0 else 1 {
      assert FirstIn(c, l, 0, t) == 0;
    }
    forall t ensures FirstIn(c, l, 2, t) == if t == 2 then 0 else if t == 1 then 1 else 2 { }
    assert ColdCount(c, l, 0, 2) == 0 && ColdCount(c, l, 0, 1) == 0;
    assert ColdCount(c, l, 1, 2) == 1 && ColdCount(c, l, 1, 1) == 0;
    assert ColdCount(c, l, 2, 2) == 1 && ColdCount(c, l, 2, 1) == 1;
    assert !Barred(c, p, 2);
    assert Cheapest(c, p, 2, 2);
    assert AllBarred(c, p, 0) && SearchedTo(c, p, 2);
  }

  ghost function RaggedPool(): (Config, Pool) {
    (Config(5, 2, [[[[], []]]], h => [[]]),
     Pool([0, 0, 0, 0, 0], map[4 := 0, 2 := 1, 3 := 2], [1, 4, 2, 3], map[0 := {4}, 1 := {2}, 2 := {3}],
          [Layer(map[], map[], [UNLOADED], [], {})], map[], [Entry(4, 0), Entry(2, 1), Entry(3, 1)], 1,
          [[[], [], [], [], []]]))
  }

  /** The order of preference: the lowest shareable super-block, else the lowest unused one,
      and only then something that has to be evicted, the colder of expert and KV. */
  ghost predicate TierOk(c: Config, p: Pool, q: Pool, i: nat, needed: set<nat>, s: nat, d: Decision, knobs: Knobs)
    requires c.F > 0 && |p.refs| == c.pages && i < |p.layers|
  {
    if exists t :: Shareable(p, i, t) then
      q == p && Shareable(p, i, s) && forall t :: Shareable(p, i, t) ==> s <= t
    else if exists t :: Unused(c, p, i, t) then
      q == p && Unused(c, p, i, s) && forall t :: Unused(c, p, i, t) ==> s <= t
    else
      ColderTaken(c, p, i, needed, d, knobs.warmest) && Evicted(c, p, q, i, s, d, knobs.relocation)
  }

  /** What is given up for super-block s: the layer's expert there, or the KV cached there,
      which moves into holes and over colder pages, or is just evicted. */
  ghost predicate Evicted(c: Config, p: Pool, q: Pool, i: nat, s: nat, d: Decision, relocation: bool)
    requires c.F > 0 && i < |p.layers|
  {
    match d
    case TookNothing => false
    case TookKv(t, _) =>
      && s == t
      && exists killed, moved ::
           && Vacated(c, p, q, s, killed, moved)
           && (if relocation then ColdestKilled(c, p, s, killed) && Relocated(c, p, s, killed, moved)
               else killed == Cached(c, p, s) && moved == map[])
    case TookExpert(e, _) => e in p.layers[i].sbAt && s == p.layers[i].sbAt[e] && q == DropMapping(p, i, s)
  }

  /** What making room for layer i leaves alone: live pages, the queue, the other layers,
      and of layer i itself the pins and every pinned or needed expert. */
  ghost predicate KeptFor(p: Pool, q: Pool, i: nat, needed: set<nat>) {
    && q.refs == p.refs && q.queue == p.queue && q.step == p.step && |q.layers| == |p.layers|
    && SameLiveBytes(p, q.mem)
    && (forall k :: 0 <= k < |p.layers| && k != i ==> q.layers[k] == p.layers[k])
    && (i < |p.layers| ==>
          && q.layers[i].pinned == p.layers[i].pinned
          && (forall e :: e in p.layers[i].sbAt && (e in needed || p.layers[i].sbAt[e] in p.layers[i].pinned) ==>
                            e in q.layers[i].sbAt && q.layers[i].sbAt[e] == p.layers[i].sbAt[e])
          && (forall e :: e in q.layers[i].sbAt ==> e in p.layers[i].sbAt && q.layers[i].sbAt[e] == p.layers[i].sbAt[e])
          && (forall f :: f in p.layers[i].lru && f.key in needed ==> f in q.layers[i].lru))
  }

  lemma NothingUnused(c: Config, p: Pool, i: nat)
    requires c.F > 0 && |p.refs| == c.pages && i < |p.layers| && forall s :: !Pure(c, p, s)
    ensures forall s :: !Unused(c, p, i, s)
  {
    hide Pure;
  }

  lemma SharedVacant(c: Config, p: Pool, i: nat, s: nat)
    requires Inv(c, p, {}) && i < |p.layers| && Shareable(p, i, s)
    ensures Vacant(c, p, i, s)
  {
    hide LruOk, CacheOk, LayersOk, HolderOk, KvBytes, ExpertBytes, QueueOk, Sb, ConfigOk, LayerOk, SuperBlocks;
    HeldSuperBlock(c, p, {}, s);
  }

  lemma PureVacant(c: Config, p: Pool, i: nat, s: nat)
    requires Inv(c, p, {}) && i < |p.layers| && Unused(c, p, i, s)
    ensures Vacant(c, p, i, s)
  {
    PagesOf(c, 0, 0);
    hide LruOk, CacheOk, LayersOk, HolderOk, KvBytes, ExpertBytes, Exclusive, Sb, ConfigOk;
    forall x: nat | x < c.pages && Sb(c, x) == s ensures x in p.queue && x !in p.hashOf {
      assert x != 0;
    }
  }

  /** The super-block chosen was neither live nor kept by a needed or pinned expert. */
  lemma NotCrowded(c: Config, p: Pool, q: Pool, i: nat, needed: set<nat>, s: nat)
    requires Inv(c, p, {}) && Inv(c, q, {}) && i < |p.layers| && KeptFor(p, q, i, needed) && Vacant(c, q, i, s)
    ensures !Crowded(c, p, i, needed)
  {
    assert !HasLive(c, p.refs, s) by {
      hide LruOk, CacheOk, LayersOk, HolderOk, KvBytes, ExpertBytes, Exclusive, Sb, SameLiveBytes;
    }
    if s in p.layers[i].expertAt {
      LayerFacts(c, p, i, {});
      LayerFacts(c, q, i, {});
    }
    hide Inv, HasLive, Sb, SameLiveBytes, LayerOk, SuperBlocks;
  }

  lemma IsCrowded(c: Config, p: Pool, i: nat, needed: set<nat>)
    requires Inv(c, p, {}) && i < |p.layers| && NoSpare(p.layers[i], needed) && AllBarred(c, p, |p.lru|)
    requires (forall s :: !Shareable(p, i, s)) && (forall s :: !Unused(c, p, i, s))
    ensures Crowded(c, p, i, needed)
  {
    hide Inv, Sb, SuperBlocks, AllBarred, HasLive, Pure;
    Sized(c, p);
    forall s | 0 < s < SuperBlocks(c) && !HasLive(c, p.refs, s)
      ensures s in p.layers[i].expertAt && (p.layers[i].expertAt[s] in needed || s in p.layers[i].pinned)
    {
      InLayer(c, p, i, s);
      assert !Shareable(p, i, s) && !Unused(c, p, i, s);
      if s !in p.holder {
        ImpureHeld(c, p, s);
      }
    }
  }

  /** A super-block without live pages that the search over the whole recency list passes
      over is expert-held, or all its pages are free and unhashed. */
  lemma ImpureHeld(c: Config, p: Pool, s: nat)
    requires Inv(c, p, {}) && 0 < s < SuperBlocks(c) && AllBarred(c, p, |p.lru|) && !HasLive(c, p.refs, s)
    ensures s in p.holder || Pure(c, p, s)
  {
    hide Inv, Sb, SuperBlocks, Barred, Keys;
    Sized(c, p);
    if s !in p.holder {
      NotPinned(c, p, s);
      forall x: nat | x < c.pages && Sb(c, x) == s ensures p.refs[x] <= 0 && x !in p.hashOf {
        PagesOf(c, 0, 0);
        FreeOrLive(c, p, x);
        if x in p.hashOf {
          QueuedHashed(c, p, x);
          var k := KeyAt(p.lru, x);
        }
      }
    }
  }

  /** A super-block that no layer has an expert in is pinned by none. */
  lemma NotPinned(c: Config, p: Pool, s: nat)
    requires Inv(c, p, {}) && 0 < s && s !in p.holder && !HasLive(c, p.refs, s)
    ensures !Pinned(p.layers, s) && !Barred(c, p, s)
  {
    forall i | 0 <= i < |p.layers| ensures s !in p.layers[i].pinned {
      InLayer(c, p, i, s);
    }
    hide Inv, Sb, HasLive;
  }

  /** The count of free unhashed pages is a sound guard: below F of them no super-block is free. */
  lemma GuardSound(c: Config, p: Pool)
    requires Inv(c, p, {}) && |p.queue| - |p.lru| < c.F
    ensures forall s :: !Pure(c, p, s)
  {
    hide Inv, Sb, SuperBlocks, Keys;
    Sized(c, p);
    forall s ensures !Pure(c, p, s) {
      if Pure(c, p, s) {
        PureCount(c, p, s);
      }
    }
  }

  lemma PureCount(c: Config, p: Pool, s: nat)
    requires Inv(c, p, {}) && Pure(c, p, s)
    ensures c.F + |p.lru| <= |p.queue|
  {
    hide Inv, Sb, SuperBlocks, Keys;
    Sized(c, p);
    WholeSuperBlock(c, s);
    var base := s * c.F;
    var pages, free := Range(base, c.F), Members(p.queue);
    DistinctLru(c, p);
    KeysSize(p.lru);
    forall x | x in pages ensures x in free && x !in Keys(p.lru) {
      PagesOf(c, s, x);
      PagesOf(c, 0, 0);
      FreeOrLive(c, p, x);
      if x in Keys(p.lru) { LruPages(c, p, x, {}); }
    }
    forall x | x in Keys(p.lru) ensures x in free { LruPages(c, p, x, {}); }
    SubsetSize(pages + Keys(p.lru), free);
    assert pages !! Keys(p.lru);
  }

  lemma KeptSame(c: Config, p: Pool, i: nat, needed: set<nat>)
    requires Inv(c, p, {})
    ensures KeptFor(p, p, i, needed)
  {
    hide Inv;
  }

  lemma LayerLru(c: Config, p: Pool, i: nat)
    requires Inv(c, p, {}) && i < |p.layers|
    ensures c.F > 0 && |p.refs| == c.pages
    ensures Keys(p.layers[i].lru) == p.layers[i].sbAt.Keys && Sorted(p.layers[i].lru)
  {
    LayerFacts(c, p, i, {});
  }

  lemma NoneSpare(c: Config, p: Pool, i: nat, needed: set<nat>)
    requires Inv(c, p, {}) && i < |p.layers|
    requires forall f :: f in p.layers[i].lru ==> !Evictable(p.layers[i], needed, f.key)
    ensures NoSpare(p.layers[i], needed)
  {
    LayerLru(c, p, i);
    hide Inv, Evictable;
    forall e | e in p.layers[i].sbAt ensures !Evictable(p.layers[i], needed, e) {
      assert e in Keys(p.layers[i].lru);
    }
  }

  lemma DecidedKv(c: Config, p: Pool, i: nat, needed: set<nat>, s: nat, score: int, own: bool, step: nat, warmest: bool)
    requires Inv(c, p, {}) && i < |p.layers| && Top(c, p, s) && ScoreOk(c, p.lru, s, score, warmest)
    requires own ==>
               score <= step &&
               forall f :: f in p.layers[i].lru && Evictable(p.layers[i], needed, f.key) ==> step <= f.step
    requires !own ==> forall f :: f in p.layers[i].lru ==> !Evictable(p.layers[i], needed, f.key)
    ensures ColderTaken(c, p, i, needed, TookKv(s, score), warmest)
  {
    hide Inv, Top, ScoreOk, Evictable;
  }

  lemma DecidedExpert(c: Config, p: Pool, i: nat, needed: set<nat>, e: nat, step: nat, kv: Choice, warmest: bool)
    requires Inv(c, p, {}) && i < |p.layers| && !kv.IndexError?
    requires Entry(e, step) in p.layers[i].lru && Evictable(p.layers[i], needed, e)
    requires forall f :: f in p.layers[i].lru && Evictable(p.layers[i], needed, f.key) ==> step <= f.step
    requires kv.NoChoice? ==> AllBarred(c, p, |p.lru|)
    requires kv.Chosen? ==> Top(c, p, kv.s) && ScoreOk(c, p.lru, kv.s, kv.score, warmest) && step < kv.score
    ensures ColderTaken(c, p, i, needed, TookExpert(e, step), warmest)
  {
    hide Inv, Top, ScoreOk, Evictable, AllBarred;
    Sized(c, p);
  }

  /** A super-block that is not barred has all its pages in the free queue. */
  lemma VacateReady(c: Config, p: Pool, s: nat)
    requires Inv(c, p, {}) && !Barred(c, p, s)
    ensures forall x: nat :: x < c.pages && Sb(c, x) == s ==> x in p.queue
    ensures s > 0 && s !in p.holder
  {
    hide LruOk, CacheOk, LayersOk, HolderOk, Exclusive, KvBytes, ExpertBytes, FirstIn, ColdCount;
    PagesOf(c, 0, 0);
    hide Sb;
    forall x: nat | x < c.pages && Sb(c, x) == s ensures x in p.queue {
      assert p.refs[x] <= 0;
    }
  }

  lemma VacatedVacant(c: Config, p: Pool, q: Pool, i: nat, s: nat, needed: set<nat>, killed: set<nat>,
                      moved: map<nat, nat>)
    requires Inv(c, p, {}) && i < |p.layers| && !Barred(c, p, s) && 0 < s < SuperBlocks(c)
    requires Vacated(c, p, q, s, killed, moved)
    ensures i < |q.layers| && Vacant(c, q, i, s) && KeptFor(p, q, i, needed)
  {
    VacateReady(c, p, s);
    assert s !in p.layers[i].expertAt by {
      if s in p.layers[i].expertAt { Held(p.layers, p.holder, i, s); }
    }
    hide Inv, Sb, Barred, Progress, SuperBlocks, SameLiveBytes;
  }

  lemma DistinctExperts(c: Config, p: Pool, i: nat)
    requires Inv(c, p, {}) && i < |p.layers|
    ensures Distinct(p.layers[i].lru)
  {
    LayerFacts(c, p, i, {});
  }

  lemma DroppedVacant(c: Config, p: Pool, i: nat, needed: set<nat>, e: nat)
    requires Inv(c, p, {}) && i < |p.layers| && Evictable(p.layers[i], needed, e)
    ensures
      var s := p.layers[i].sbAt[e];
      var q := DropMapping(p, i, s);
      i < |q.layers| && Vacant(c, q, i, s) && KeptFor(p, q, i, needed) && Inv(c, q, {})
  {
    hide Inv, Sb, Remove, RemoveHolder, SuperBlocks, SameLiveBytes, Distinct, Sorted, Keys;
    var l := p.layers[i];
    var s := l.sbAt[e];
    Mapping(c, p, i, e, {});
    DropMappingKeeps(c, p, i, s, {});
    DistinctExperts(c, p, i);
    RemoveKeeps(l.lru, e);
    assert DropMapping(p, i, s).layers == p.layers[i := DropExpert(l, s)];
  }

  lemma NextMultiple(x: nat, f: nat)
    requires f > 0 && x % f == 0
    ensures (x + f) % f == 0
  {
    var d := x / f;
    assert x == d * f;
    assert x + f == (d + 1) * f;
    Multiple(d + 1, f);
  }

  lemma Multiple(d: nat, f: nat)
    requires f > 0
    ensures (d * f) % f == 0
  {
    Divide(d * f, f, d);
  }

  lemma LookUps(c: Config, p: Pool)
    requires Inv(c, p, {})
    ensures forall e :: e in p.lru ==> StepOf(p.lru, e.key) == e.step
    ensures forall x: nat :: StepOf(p.lru, x) >= 0 ==>
              exists e :: e in p.lru && e.key == x && e.step == StepOf(p.lru, x)
  {
    DistinctLru(c, p);
    hide Inv;
    forall e | e in p.lru ensures StepOf(p.lru, e.key) == e.step {
      var k :| 0 <= k < |p.lru| && p.lru[k] == e;
      FindUnique(p.lru, k);
    }
    forall x: nat | StepOf(p.lru, x) >= 0 ensures exists e :: e in p.lru && e.key == x && e.step == StepOf(p.lru, x) {
      assert p.lru[Find(p.lru, x)] in p.lru;
    }
  }

  lemma WalkReady(c: Config, p: Pool)
    requires Inv(c, p, {})
    ensures c.F > 0 && |p.refs| == c.pages && 0 % c.F == 0
    ensures Tallied(c, p.lru, 0, map[], map[]) && AllBarred(c, p, 0) && InSightOrder(c, p.lru, 0, [])
  {
  }

  lemma CandidatesInRange(c: Config, p: Pool, n: nat, count: map<nat, nat>, oldest: map<nat, nat>)
    requires Inv(c, p, {}) && n <= |p.lru| && Tallied(c, p.lru, n, count, oldest)
    ensures forall s :: s in count ==> s * c.F < c.pages
  {
    hide Inv, Keys;
    Positive(c, p, {});
    forall s | s in count ensures s * c.F < c.pages {
      var k := FirstIn(c, p.lru, n, s);
      InKeys(p.lru, p.lru[k]);
      LruPages(c, p, p.lru[k].key, {});
      PagesOf(c, s, p.lru[k].key);
    }
  }

  lemma TallyScore(c: Config, p: Pool, n: nat, count: map<nat, nat>, oldest: map<nat, nat>, s: nat)
    requires Inv(c, p, {}) && n <= |p.lru| && Tallied(c, p.lru, n, count, oldest) && s in count
    ensures s in oldest && ScoreOk(c, p.lru, s, oldest[s], false)
  {
    DistinctLru(c, p);
    hide Inv, Sorted, Sb, ScoreOk;
    FirstIsColdest(c, p.lru, n, s);
  }

  lemma NothingFound(c: Config, p: Pool, n: nat, count: map<nat, nat>, oldest: map<nat, nat>)
    requires c.F > 0 && |p.refs| == c.pages && n <= |p.lru| && Tallied(c, p.lru, n, count, oldest)
    requires forall s :: s in count ==> Barred(c, p, s)
    ensures AllBarred(c, p, n)
  {
    hide Barred, Sb;
    forall k | 0 <= k < n ensures Barred(c, p, Sb(c, p.lru[k].key)) {
      var s := Sb(c, p.lru[k].key);
      assert FirstIn(c, p.lru, n, s) <= k;
    }
  }

  /** The candidate at position a of the order ranks before the one at b. */
  ghost predicate Ahead(count: map<nat, nat>, oldest: map<nat, nat>, order: seq<nat>, a: nat, b: nat) {
    && a < |order| && b < |order| && order[a] in count && order[b] in count && order[a] in oldest && order[b] in oldest
    && (|| count[order[a]] > count[order[b]]
        || (count[order[a]] == count[order[b]] &&
            (oldest[order[a]] < oldest[order[b]] || (oldest[order[a]] == oldest[order[b]] && a <= b))))
  }

  lemma FirstIsCheapest(c: Config, p: Pool, n: nat, order: seq<nat>, count: map<nat, nat>, oldest: map<nat, nat>,
                        at: nat)
    requires c.F > 0 && |p.refs| == c.pages && n <= |p.lru| && at < |order|
    requires Tallied(c, p.lru, n, count, oldest) && InSightOrder(c, p.lru, n, order) && !Barred(c, p, order[at])
    requires forall j {:trigger order[j]} :: 0 <= j < |order| && order[j] in count && !Barred(c, p, order[j]) ==>
               Ahead(count, oldest, order, at, j)
    ensures Cheapest(c, p, n, order[at])
  {
    hide FirstIn, ColdCount, Barred;
    var s := order[at];
    assert s in order;
    forall t | FirstIn(c, p.lru, n, t) < n && !Barred(c, p, t) ensures RanksBefore(c, p.lru, n, s, t) {
      assert t in order;
      var j :| 0 <= j < |order| && order[j] == t;
      assert Ahead(count, oldest, order, at, j);
    }
  }

  lemma FoundTop(c: Config, p: Pool, m: nat, n: nat, s: nat)
    requires Inv(c, p, {}) && m <= n <= |p.lru| && n <= m + c.F && (n == m + c.F || n == |p.lru|) && m % c.F == 0
    requires AllBarred(c, p, m) && Cheapest(c, p, n, s)
    ensures Top(c, p, s) && !AllBarred(c, p, |p.lru|) && (Ragged(c, p) <==> !Whole(c, s)) && s * c.F < c.pages
  {
    hide Inv, AllBarred, Cheapest, Whole, Ragged;
    Sized(c, p);
    assert SearchedTo(c, p, n);
    CheapestNotBarred(c, p, n, s);
    if AllBarred(c, p, |p.lru|) {
      FewerBarred(c, p, n, |p.lru|);
    }
    TopOnly(c, p, s);
    TopIs(c, p, s);
    var e :| e in p.lru && Sb(c, e.key) == s;
    InKeys(p.lru, e);
    LruPages(c, p, e.key, {});
    PagesOf(c, s, e.key);
  }

  lemma NotRagged(c: Config, p: Pool)
    requires c.F > 0 && |p.refs| == c.pages && forall s: nat :: !Top(c, p, s)
    ensures !Ragged(c, p)
  {
    hide Top;
  }
}
