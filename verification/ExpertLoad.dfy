/** Loading the experts a forward pass needs: what is ready at the end, what is undone on
    failure, and when there is room at all. */
module ExpertLoad {
  import opened Recency
  import opened PoolState
  import opened PoolSteps
  import opened PoolQueries
  import opened PoolFacts
  import opened ExpertRoom

  datatype LoadResult = AllLoaded | LoadExhausted | LoadIndexError

  /** The kernel may read expert e through the device table of layer i: the table names a
      pinned super-block, and the buffer holds the expert's weights there.  The expert
      counts as used in the current step. */
  ghost predicate Ready(c: Config, p: Pool, i: nat, e: nat) {
    && ConfigOk(c, |p.mem|) && i < |p.layers| && i < |c.weights| && e < |c.weights[i]|
    && e in p.layers[i].sbAt && e < |p.layers[i].table|
    && p.layers[i].table[e] == p.layers[i].sbAt[e]
    && p.layers[i].sbAt[e] in p.layers[i].pinned && Entry(e, p.step) in p.layers[i].lru
    && Loaded(c, p.mem[i], p.layers[i].sbAt[e], c.weights[i][e])
  }

  /** What loading into layer i never touches: reference counts, the free queue, the bytes
      of pages outside it, and the other layers. */
  ghost predicate Staying(p: Pool, q: Pool, i: nat) {
    && q.refs == p.refs && q.queue == p.queue && q.step == p.step && |q.layers| == |p.layers|
    && SameLiveBytes(p, q.mem)
    && (forall k :: 0 <= k < |p.layers| && k != i ==> q.layers[k] == p.layers[k])
  }

  /** The super-blocks an expert could be put in at all. */
  ghost function LiveFree(c: Config, refs: seq<int>): set<nat>
    requires c.F > 0 && |refs| == c.pages
  {
    set s: nat | s < SuperBlocks(c) && 0 < s && !HasLive(c, refs, s)
  }

  /** An expert that a load may not give up: needed now, or pinned before. */
  ghost predicate KeptBy(l: Layer, needed: set<nat>, e: nat) {
    e in needed || (e in l.sbAt && l.sbAt[e] in l.pinned)
  }

  /** All of them. */
  ghost function KeepSet(l: Layer, needed: set<nat>): set<nat> {
    needed + set e | e in l.sbAt && l.sbAt[e] in l.pinned
  }

  /** How layer l0 has become l: the experts in done are resident, pinned and stamped; every
      expert that must be kept is where it was; all others are where they were or gone. */
  ghost predicate LayerLoading(l0: Layer, l: Layer, step: nat, needed: set<nat>, done: set<nat>) {
    && (forall e :: e in done ==> e in l.sbAt && l.sbAt[e] in l.pinned && Entry(e, step) in l.lru)
    && (forall e :: e in needed && e !in done ==> (e in l.sbAt <==> e in l0.sbAt))
    && (forall e :: e in l.sbAt ==> e in done || (e in l0.sbAt && l.sbAt[e] == l0.sbAt[e]))
    && (forall e :: e in l0.sbAt && KeptBy(l0, needed, e) ==> e in l.sbAt && l.sbAt[e] == l0.sbAt[e])
    && l0.pinned <= l.pinned
    && (forall e :: e in l.sbAt && l.sbAt[e] in l.pinned ==> e in done || (e in l0.sbAt && l0.sbAt[e] in l0.pinned))
  }

  ghost predicate Loading(c: Config, p0: Pool, p: Pool, i: nat, needed: set<nat>, done: set<nat>) {
    && Inv(c, p, {}) && i < |p.layers| && i < |p0.layers| && Staying(p0, p, i)
    && LayerLoading(p0.layers[i], p.layers[i], p.step, needed, done)
  }

  /** What a failed load leaves: no pins, no new expert, and every expert that must be kept. */
  ghost predicate LoadFailed(l0: Layer, l: Layer, needed: set<nat>) {
    && l.pinned == {}
    && (forall e :: e in l.sbAt ==> e in l0.sbAt && l.sbAt[e] == l0.sbAt[e])
    && (forall e :: e in l0.sbAt && KeptBy(l0, needed, e) ==> e in l.sbAt)
  }

  /** What a successful load leaves: all needed experts, every expert that had to be kept
      where it was, and nothing that was not there before. */
  ghost predicate LoadDone(l0: Layer, l: Layer, needed: set<nat>) {
    && (forall e :: e in needed ==> e in l.sbAt && l.sbAt[e] in l.pinned)
    && (forall e :: e in l.sbAt ==> e in needed || (e in l0.sbAt && l.sbAt[e] == l0.sbAt[e]))
    && (forall e :: e in l0.sbAt && KeptBy(l0, needed, e) ==> e in l.sbAt && l.sbAt[e] == l0.sbAt[e])
    && (forall e :: e in l.sbAt ==> (l.sbAt[e] in l.pinned <==> KeptBy(l0, needed, e)))
  }

  lemma LoadingStart(c: Config, p: Pool, i: nat, needed: set<nat>)
    requires Inv(c, p, {}) && i < |p.layers|
    ensures Loading(c, p, p, i, needed, {})
  {
    hide Inv;
  }

  lemma HitStep(c: Config, p0: Pool, p: Pool, i: nat, needed: set<nat>, done: set<nat>, e: nat)
    requires Loading(c, p0, p, i, needed, done) && e in p.layers[i].sbAt
    ensures Loading(c, p0, Pin(Bump(p, i, e), i, p.layers[i].sbAt[e]), i, needed, done + {e})
  {
    hide Inv, SameLiveBytes, Touch, Sb, SuperBlocks, Keys, LayerLoading;
    BumpKeeps(c, p, i, e, {});
    ExpertListed(c, p, i, e);
    HitLayer(c, p, i, p0.layers[i], needed, done, e);
  }

  lemma HitLayer(c: Config, p: Pool, i: nat, l0: Layer, needed: set<nat>, done: set<nat>, e: nat)
    requires Inv(c, p, {}) && i < |p.layers| && e in p.layers[i].sbAt &&
             LayerLoading(l0, p.layers[i], p.step, needed, done)
    ensures
      var l := p.layers[i];
      LayerLoading(l0, l.(lru := Touch(l.lru, e, p.step), pinned := l.pinned + {l.sbAt[e]}), p.step, needed, done + {e})
  {
    hide Inv, Touch, Sb, SuperBlocks, Keys;
    var l := p.layers[i];
    ExpertListed(c, p, i, e);
    TouchEntries(l.lru, e, p.step);
    forall f | f in l.sbAt && l.sbAt[f] == l.sbAt[e] ensures f == e {
      Mapping(c, p, i, e, {});
      Mapping(c, p, i, f, {});
    }
  }

  lemma ExpertListed(c: Config, p: Pool, i: nat, e: nat)
    requires Inv(c, p, {}) && i < |p.layers| && e in p.layers[i].sbAt
    ensures e in Keys(p.layers[i].lru) && Distinct(p.layers[i].lru)
  {
    LayerFacts(c, p, i, {});
  }

  /** Touching adds one entry and keeps those of other experts. */
  lemma TouchEntries(l: seq<Entry>, e: nat, step: nat)
    requires Distinct(l)
    ensures Entry(e, step) in Touch(l, e, step)
    ensures forall f :: f in l && f.key != e ==> f in Touch(l, e, step)
  {
    hide Remove, Distinct;
    RemoveKeeps(l, e);
  }

  lemma SelectStep(c: Config, p0: Pool, p: Pool, q: Pool, i: nat, needed: set<nat>, done: set<nat>)
    requires Loading(c, p0, p, i, needed, done) && done <= needed && Inv(c, q, {}) && KeptFor(p, q, i, needed)
    ensures Loading(c, p0, q, i, needed, done)
  {
    hide Inv, SameLiveBytes, Sb, SuperBlocks;
    LiveBytesCompose(p0, p, q);
  }

  lemma LiveBytesCompose(p0: Pool, p: Pool, q: Pool)
    requires SameLiveBytes(p0, p.mem) && p.queue == p0.queue && SameLiveBytes(p, q.mem)
    ensures SameLiveBytes(p0, q.mem)
  {
  }

  lemma DmaLive(c: Config, p0: Pool, mem: seq<seq<Bytes>>, i: nat, s: nat, w: seq<Bytes>)
    requires c.F > 0 && |w| == c.F && i < |mem| && SameLiveBytes(p0, mem)
    requires forall x: nat :: x < |mem[i]| && Sb(c, x) == s ==> x in p0.queue
    ensures SameLiveBytes(p0, mem[i := Dma(c, mem[i], s, w)])
  {
    hide Sb;
  }

  lemma MissStep(c: Config, p0: Pool, p: Pool, i: nat, needed: set<nat>, done: set<nat>, s: nat, e: nat)
    requires Loading(c, p0, p, i, needed, done) && Vacant(c, p, i, s)
    requires i < |c.weights| && e < |c.weights[i]| && e !in p.layers[i].sbAt
    requires i < |p0.layers| && e !in p0.layers[i].sbAt && e < |p.layers[i].table|
    ensures |c.weights[i][e]| == c.F && i < |p.mem|
    ensures Loading(c, p0, LoadExpert(c, p, i, s, e), i, needed, done + {e})
  {
    hide Inv, SameLiveBytes, Touch, Dma, Sb, SuperBlocks, LayerLoading;
    LoadExpertKeeps(c, p, i, s, e, {});
    BufferSizes(c, p);
    DmaLive(c, p0, p.mem, i, s, c.weights[i][e]);
    MissLayer(c, p, i, p0.layers[i], needed, done, s, e);
  }

  lemma MissLayer(c: Config, p: Pool, i: nat, l0: Layer, needed: set<nat>, done: set<nat>, s: nat, e: nat)
    requires Inv(c, p, {}) && i < |p.layers| && LayerLoading(l0, p.layers[i], p.step, needed, done)
    requires s !in p.layers[i].expertAt && e !in p.layers[i].sbAt && e < |p.layers[i].table|
    requires !(e in l0.sbAt && KeptBy(l0, needed, e))
    ensures
      var l := AssignExpert(p.layers[i], s, e, p.step);
      LayerLoading(l0, l.(pinned := l.pinned + {s}), p.step, needed, done + {e})
  {
    hide Inv, Touch, Sb, SuperBlocks;
    DistinctExperts(c, p, i);
    TouchEntries(p.layers[i].lru, e, p.step);
    forall f | f in p.layers[i].sbAt ensures p.layers[i].sbAt[f] != s {
      Mapping(c, p, i, f, {});
    }
  }

  lemma BufferSizes(c: Config, p: Pool)
    requires Inv(c, p, {})
    ensures c.F > 0 && forall b :: 0 <= b < |p.mem| ==> |p.mem[b]| == c.pages
  {
    hide LruOk, LayersOk, HolderOk, ExpertBytes, Sb, CacheOk, Exclusive, QueueOk;
  }

  lemma LoadingReady(c: Config, p0: Pool, p: Pool, i: nat, needed: set<nat>, done: set<nat>, e: nat)
    requires Loading(c, p0, p, i, needed, done) && e in done
    ensures Ready(c, p, i, e)
  {
    Mapping(c, p, i, e, {});
    LayerFacts(c, p, i, {});
    hide LruOk, LayersOk, HolderOk, KvBytes, Sb, CacheOk, Exclusive, QueueOk, SameLiveBytes, Loaded, LayerOk;
  }

  // ----- When there is room -----

  /** The super-blocks of the resident needed experts. */
  lemma {:induction false} EnoughRoom(c: Config, p: Pool, i: nat, done: set<nat>)
    requires Inv(c, p, {}) && i < |p.layers| && forall e :: e in done ==> e in p.layers[i].sbAt
    ensures c.F > 0 && |p.refs| == c.pages && |done| <= |LiveFree(c, p.refs)|
  {
    hide Inv, LiveFree, Sb, SuperBlocks;
    Sized(c, p);
    var home := p.layers[i].sbAt;
    forall e | e in done ensures home[e] in LiveFree(c, p.refs) {
      HomeIsFree(c, p, i, e);
    }
    forall d, e | d in done && e in done && home[d] == home[e] ensures d == e {
      Mapping(c, p, i, d, {});
      Mapping(c, p, i, e, {});
    }
    Pigeons(done, LiveFree(c, p.refs), home);
  }

  lemma HomeIsFree(c: Config, p: Pool, i: nat, e: nat)
    requires Inv(c, p, {}) && i < |p.layers| && e in p.layers[i].sbAt
    ensures c.F > 0 && |p.refs| == c.pages && p.layers[i].sbAt[e] in LiveFree(c, p.refs)
  {
    hide Inv, Sb, SuperBlocks;
    Sized(c, p);
    var s := p.layers[i].sbAt[e];
    Mapping(c, p, i, e, {});
    forall x: nat | x < c.pages && Sb(c, x) == s ensures p.refs[x] <= 0 {
      QueuePages(c, p, x, {});
    }
  }

  /** A one-to-one map makes the source no larger than the target. */
  lemma {:induction false} Pigeons(a: set<nat>, b: set<nat>, f: map<nat, nat>)
    requires forall x :: x in a ==> x in f && f[x] in b
    requires forall x, y :: x in a && y in a && f[x] == f[y] ==> x == y
    ensures |a| <= |b|
  {
    if a != {} {
      var x :| x in a;
      Pigeons(a - {x}, b - {f[x]}, f);
    }
  }

  /** Exhaustion means that the live-free super-blocks are fewer than the experts that must
      be in the layer: those needed and those pinned before. */
  lemma TooLittleRoom(c: Config, p0: Pool, p: Pool, i: nat, needed: set<nat>, done: set<nat>, e: nat)
    requires Loading(c, p0, p, i, needed, done) && done <= needed
    requires c.F > 0 && |p.refs| == c.pages && Crowded(c, p, i, needed)
    requires e in needed && e !in p.layers[i].sbAt
    ensures |LiveFree(c, p.refs)| < |KeepSet(p0.layers[i], needed)|
  {
    hide Inv, Sb, SuperBlocks, HasLive, SameLiveBytes;
    var free, at, keep := LiveFree(c, p.refs), p.layers[i].expertAt, KeepSet(p0.layers[i], needed);
    forall s | s in free ensures s in at && at[s] in keep - {e} {
      InLayer(c, p, i, s);
    }
    forall s, t | s in free && t in free && at[s] == at[t] ensures s == t {
      InLayer(c, p, i, s);
      InLayer(c, p, i, t);
    }
    Pigeons(free, keep - {e}, at);
  }

  /** On exhaustion no expert is left in the layer but those that must be kept. */
  lemma OnlyKeptLeft(c: Config, p0: Pool, p: Pool, i: nat, needed: set<nat>, done: set<nat>, e: nat)
    requires Loading(c, p0, p, i, needed, done) && done <= needed
    requires c.F > 0 && |p.refs| == c.pages && Crowded(c, p, i, needed) && e in p.layers[i].sbAt
    ensures KeptBy(p0.layers[i], needed, e)
  {
    hide Inv, Sb, SuperBlocks, HasLive, SameLiveBytes;
    HomeIsFree(c, p, i, e);
    Mapping(c, p, i, e, {});
  }

  // ----- Undoing a failed load -----

  /** The pool is sound but for the pins of layer i. */
  ghost predicate Undoing(c: Config, p0: Pool, p: Pool, i: nat) {
    i < |p.layers| && Inv(c, Unpin(p, i), {}) && Staying(p0, p, i)
  }

  lemma UndoStart(c: Config, p0: Pool, p: Pool, i: nat, needed: set<nat>, done: set<nat>)
    requires Loading(c, p0, p, i, needed, done)
    ensures Undoing(c, p0, p, i)
  {
    hide Inv, SameLiveBytes, LayerLoading;
    UnpinKeeps(c, p, i);
  }

  lemma UndoStep(c: Config, p0: Pool, p: Pool, i: nat, e: nat)
    requires Undoing(c, p0, p, i) && e in p.layers[i].sbAt
    ensures p.layers[i].sbAt[e] in p.layers[i].expertAt && p.layers[i].expertAt[p.layers[i].sbAt[e]] == e
    ensures e < |p.layers[i].table|
    ensures Undoing(c, p0, DropMapping(p, i, p.layers[i].sbAt[e]), i)
    ensures
      var q := DropMapping(p, i, p.layers[i].sbAt[e]);
      q.layers[i].sbAt == p.layers[i].sbAt - {e}
  {
    hide Inv, SameLiveBytes, RemoveHolder, Remove, Sb, SuperBlocks;
    var s := p.layers[i].sbAt[e];
    var u := Unpin(p, i);
    Mapping(c, u, i, e, {});
    DropMappingKeeps(c, u, i, s, {});
    assert DropMapping(u, i, s).layers == Unpin(DropMapping(p, i, s), i).layers;
  }

  lemma UndoEnd(c: Config, p0: Pool, p: Pool, i: nat)
    requires Undoing(c, p0, p, i)
    ensures Inv(c, Unpin(p, i), {}) && Staying(p0, Unpin(p, i), i)
  {
    hide Inv;
  }

  /** Dropping the misses that were loaded leaves what a failed load should leave. */
  lemma UndoneIsFailed(c: Config, p0: Pool, p: Pool, i: nat, needed: set<nat>, done: set<nat>, extra: set<nat>,
                       l: Layer)
    requires Loading(c, p0, p, i, needed, done)
    requires forall e :: e in extra <==> e in done && e !in p0.layers[i].sbAt
    requires done <= needed && l.sbAt == p.layers[i].sbAt - extra && l.pinned == {}
    ensures LoadFailed(p0.layers[i], l, needed)
  {
    hide Inv, Staying;
  }

  lemma BumpedPin(l: Layer, e: nat, step: nat, s: nat)
    ensures BumpExpert(l.(pinned := l.pinned + {s}), e, step)
         == BumpExpert(l, e, step).(pinned := BumpExpert(l, e, step).pinned + {s})
  {
  }

  lemma NextMembers(s: seq<nat>, n: nat)
    requires n < |s|
    ensures Members(s[..n + 1]) == Members(s[..n]) + {s[n]}
  {
    assert s[..n + 1] == s[..n] + [s[n]];
  }

  lemma NoMembersYet(s: seq<nat>)
    ensures Members(s[..0]) == {}
  {
  }

  lemma NotAmong(s: seq<nat>, n: nat)
    requires n < |s| && NoRepeats(s)
    ensures s[n] !in Members(s[..n])
  {
    assert s[n] !in s[..n];
  }

  /** The super-blocks claimed for the first misses. */
  ghost predicate Claims(p: Pool, i: nat, misses: seq<nat>, claimed: seq<nat>) {
    && i < |p.layers| && |claimed| <= |misses|
    && forall k :: 0 <= k < |claimed| ==> misses[k] in p.layers[i].sbAt && p.layers[i].sbAt[misses[k]] == claimed[k]
  }

  lemma ClaimsKept(c: Config, p: Pool, q: Pool, i: nat, needed: set<nat>, misses: seq<nat>, claimed: seq<nat>)
    requires Claims(p, i, misses, claimed) && KeptFor(p, q, i, needed) && forall e :: e in misses ==> e in needed
    ensures Claims(q, i, misses, claimed)
  {
    hide SameLiveBytes;
  }

  /** The misses still to come are not resident, the others were not at the start. */
  lemma NotYet(c: Config, p0: Pool, p: Pool, i: nat, needed: set<nat>, done: set<nat>, hits: seq<nat>,
               misses: seq<nat>, n: nat)
    requires Loading(c, p0, p, i, needed, done) && n < |misses| && DoneSoFar(done, hits, misses, n)
    requires i < |p0.layers| && Split(p0.layers[i].sbAt, needed, hits, misses)
    ensures misses[n] !in p0.layers[i].sbAt && (forall e :: e in misses ==> e in needed)
    ensures misses[n] !in p.layers[i].sbAt && misses[n] in needed && misses[n] !in done && done <= needed
  {
    hide Inv, Staying;
    assert misses[n] !in misses[..n] && misses[n] in misses;
  }

  lemma UndoSet(p0: Pool, i: nat, needed: set<nat>, hits: seq<nat>, misses: seq<nat>, n: nat, done: set<nat>)
    requires i < |p0.layers| && DoneSoFar(done, hits, misses, n)
    requires Split(p0.layers[i].sbAt, needed, hits, misses)
    ensures forall e :: e in Members(misses[..n]) <==> e in done && e !in p0.layers[i].sbAt
    ensures forall k :: 0 <= k < n ==> misses[k] !in p0.layers[i].sbAt
    ensures forall j, k :: 0 <= j < k < |misses| ==> misses[j] != misses[k]
  {
    forall e | e in misses[..n] ensures e in misses { }
  }

  /** The hits and the first n misses. */
  ghost predicate DoneSoFar(done: set<nat>, hits: seq<nat>, misses: seq<nat>, n: nat) {
    n <= |misses| && done == Members(hits) + Members(misses[..n])
  }

  lemma DoneNext(done: set<nat>, hits: seq<nat>, misses: seq<nat>, n: nat)
    requires DoneSoFar(done, hits, misses, n) && n < |misses|
    ensures DoneSoFar(done + {misses[n]}, hits, misses, n + 1)
  {
    NextMembers(misses, n);
  }

  /** The needed experts as hits and misses. */
  ghost predicate Split(sbAt: map<nat, nat>, needed: set<nat>, hits: seq<nat>, misses: seq<nat>) {
    && (forall j, k :: 0 <= j < k < |misses| ==> misses[j] != misses[k])
    && (forall e :: e in misses <==> e in needed && e !in sbAt)
    && (forall e :: e in hits <==> e in needed && e in sbAt)
  }

  lemma RoomWasThere(c: Config, p0: Pool, p: Pool, i: nat, needed: set<nat>, done: set<nat>, hits: seq<nat>,
                     misses: seq<nat>)
    requires Loading(c, p0, p, i, needed, done) && DoneSoFar(done, hits, misses, |misses|)
    requires i < |p0.layers| && Split(p0.layers[i].sbAt, needed, hits, misses)
    ensures (forall e :: e in needed ==> Ready(c, p, i, e)) && LoadDone(p0.layers[i], p.layers[i], needed)
    ensures c.F > 0 && |p.refs| == c.pages && |KeepSet(p0.layers[i], needed)| <= |LiveFree(c, p.refs)|
  {
    hide Inv, LiveFree, Ready, Staying, LayerLoading, Split, DoneSoFar, KeepSet, LoadDone;
    AllDone(p0.layers[i].sbAt, needed, done, hits, misses);
    forall e | e in needed ensures Ready(c, p, i, e) {
      LoadingReady(c, p0, p, i, needed, done, e);
    }
    LayerDone(p0.layers[i], p.layers[i], p.step, needed);
    EnoughRoom(c, p, i, KeepSet(p0.layers[i], needed));
  }

  lemma AllDone(sbAt: map<nat, nat>, needed: set<nat>, done: set<nat>, hits: seq<nat>, misses: seq<nat>)
    requires Split(sbAt, needed, hits, misses) && DoneSoFar(done, hits, misses, |misses|)
    ensures done == needed
  {
    assert misses[..|misses|] == misses;
  }

  lemma LayerDone(l0: Layer, l: Layer, step: nat, needed: set<nat>)
    requires LayerLoading(l0, l, step, needed, needed)
    ensures LoadDone(l0, l, needed) && forall e :: e in KeepSet(l0, needed) ==> e in l.sbAt
  {
  }

  lemma LoadingFacts(c: Config, p0: Pool, p: Pool, i: nat, needed: set<nat>, done: set<nat>, misses: seq<nat>)
    requires Loading(c, p0, p, i, needed, done)
    ensures Inv(c, p, {}) && Staying(p0, p, i) && c.F > 0 && |p.refs| == c.pages
    ensures Claims(p, i, misses, [])
  {
    hide Inv, Staying;
    Sized(c, p);
  }

  lemma ClaimsNext(c: Config, p: Pool, i: nat, misses: seq<nat>, claimed: seq<nat>, s: nat)
    requires Inv(c, p, {}) && Claims(p, i, misses, claimed) && |claimed| < |misses| && Vacant(c, p, i, s)
    requires i < |c.weights| && misses[|claimed|] < |c.weights[i]| && misses[|claimed|] !in p.layers[i].sbAt
    requires |c.weights[i][misses[|claimed|]]| == c.F && i < |p.mem|
    ensures Claims(LoadExpert(c, p, i, s, misses[|claimed|]), i, misses, claimed + [s])
    ensures |p.layers[i].table| == |c.weights[i]| && s !in p.layers[i].expertAt
  {
    hide Inv, LayerOk, Dma, Touch, Sb, SuperBlocks;
    LayerFacts(c, p, i, {});
  }

  lemma StillMissing(c: Config, p0: Pool, p: Pool, i: nat, needed: set<nat>, done: set<nat>, e: nat)
    requires Loading(c, p0, p, i, needed, done) && e in needed && e !in done && e !in p0.layers[i].sbAt
    ensures e !in p.layers[i].sbAt && Inv(c, p, {})
  {
    hide Inv, Staying;
  }

  lemma DoneStart(hits: seq<nat>, misses: seq<nat>)
    ensures DoneSoFar(Members(hits), hits, misses, 0)
  {
  }

  lemma NeededIds(needed: seq<nat>, experts: nat)
    requires forall k :: 0 <= k < |needed| ==> needed[k] < experts
    ensures forall e :: e in Members(needed) ==> e < experts
    ensures forall e :: e in Members(needed) <==> e in needed
  {
  }
}
