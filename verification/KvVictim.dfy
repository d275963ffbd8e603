/** Taking pages for KV: the order of preference, what a pick leaves alone, and when the
    pool runs out. */
module KvVictim {
  import opened Recency
  import opened PoolState
  import opened PoolSteps
  import opened PoolQueries
  import opened PoolFacts

  datatype NewBlocks = Blocks(ids: seq<nat>) | TooFewFree | KvExhausted

  // ----- Preference -----

  /** A free page that carries no hash and lies in no expert's and no pinned super-block. */
  ghost predicate TrulyFree(c: Config, p: Pool, x: nat)
    requires c.F > 0
  {
    x in p.queue && x !in p.hashOf && Sb(c, x) !in p.holder && !Pinned(p.layers, Sb(c, x))
  }

  /** A resident expert whose super-block no layer pins. */
  ghost predicate Reclaimable(p: Pool, i: nat, e: Entry) {
    && i < |p.layers| && e in p.layers[i].lru && e.key in p.layers[i].sbAt
    && !Pinned(p.layers, p.layers[i].sbAt[e.key])
  }

  ghost predicate Spare(c: Config, p: Pool, f: Entry)
    requires c.F > 0
  {
    f in p.lru && !Pinned(p.layers, Sb(c, f.key))
  }

  /** No reclaimable expert is colder than step. */
  ghost predicate ColdestExpert(p: Pool, step: int) {
    forall i: nat, e :: Reclaimable(p, i, e) ==> step <= e.step
  }

  ghost predicate ColdestSpare(c: Config, p: Pool, step: int)
    requires c.F > 0
  {
    forall f :: Spare(c, p, f) ==> step <= f.step
  }

  /** The truly free page nearest the head of the queue. */
  ghost predicate FirstFree(c: Config, p: Pool, x: nat)
    requires c.F > 0
  {
    && TrulyFree(c, p, x)
    && exists k :: 0 <= k < |p.queue| && p.queue[k] == x && forall j :: 0 <= j < k ==> !TrulyFree(c, p, p.queue[j])
  }

  /** The first truly free page if there is one; else the first of the super-block with the coldest
      reclaimable expert, or the coldest spare prefix if that is strictly colder. */
  ghost predicate Preferred(c: Config, p: Pool, x: nat)
    requires c.F > 0
  {
    || FirstFree(c, p, x)
    || (&& (forall y :: !TrulyFree(c, p, y))
        && (|| (x == Sb(c, x) * c.F &&
                exists i: nat, e :: Reclaimable(p, i, e) && p.layers[i].sbAt[e.key] == Sb(c, x) &&
                               ColdestExpert(p, e.step) && ColdestSpare(c, p, e.step))
            || (exists f :: Spare(c, p, f) && f.key == x && ColdestSpare(c, p, f.step) &&
                 ColdestExpert(p, f.step + 1))))
  }

  /** A page is taken: the experts of its super-block go, and it leaves the free queue and the
      recency list. */
  function TakePage(c: Config, p: Pool, x: nat): Pool
    requires c.F > 0
  {
    Take(DropAll(p, Sb(c, x)), x)
  }

  /** Pages are taken one after the other. */
  function TakeAll(c: Config, p: Pool, ids: seq<nat>): (q: Pool)
    requires c.F > 0
    ensures q.refs == p.refs
  {
    if ids == [] then p else TakePage(c, TakeAll(c, p, ids[..|ids| - 1]), ids[|ids| - 1])
  }

  /** Each page is the one preferred when its turn comes. */
  ghost predicate PreferredEach(c: Config, p: Pool, ids: seq<nat>)
    requires c.F > 0
  {
    forall k :: 0 <= k < |ids| ==> Preferred(c, TakeAll(c, p, ids[..k]), ids[k])
  }

  /** The pages become live one after the other. */
  function AllocateAll(p: Pool, ids: seq<nat>): (q: Pool)
    requires forall k :: 0 <= k < |ids| ==> ids[k] < |p.refs|
    ensures |q.refs| == |p.refs|
  {
    if ids == [] then p else Allocate(AllocateAll(p, ids[..|ids| - 1]), ids[|ids| - 1])
  }

  lemma TakeNext(c: Config, p: Pool, ids: seq<nat>, x: nat)
    requires c.F > 0 && PreferredEach(c, p, ids) && Preferred(c, TakeAll(c, p, ids), x)
    ensures PreferredEach(c, p, ids + [x]) && TakeAll(c, p, ids + [x]) == TakePage(c, TakeAll(c, p, ids), x)
  {
    hide Preferred, TakePage;
    var more := ids + [x];
    assert more[..|ids|] == ids;
    forall k | 0 <= k < |more| ensures Preferred(c, TakeAll(c, p, more[..k]), more[k]) {
      if k < |ids| {
        assert more[..k] == ids[..k];
      }
    }
  }

  lemma NoPreference(c: Config, p: Pool)
    requires c.F > 0
    ensures PreferredEach(c, p, []) && TakeAll(c, p, []) == p
  {
  }

  lemma AllocateNone(p: Pool, ids: seq<nat>)
    ensures ids[..0] == [] && AllocateAll(p, []) == p
  {
  }

  lemma AllocateNext(p: Pool, ids: seq<nat>, k: nat)
    requires k < |ids| && forall j :: 0 <= j < |ids| ==> ids[j] < |p.refs|
    ensures AllocateAll(p, ids[..k + 1]) == Allocate(AllocateAll(p, ids[..k]), ids[k])
  {
    hide Allocate;
    assert ids[..k + 1][..k] == ids[..k];
  }

  /** What one allocation hands out, and the state it leaves: page by page the one preferred. */
  ghost predicate HandedOut(c: Config, p: Pool, q: Pool, ids: seq<nat>) {
    && c.F > 0 && PreferredEach(c, p, ids) && (forall k :: 0 <= k < |ids| ==> ids[k] < |p.refs|)
    && q == AllocateAll(TakeAll(c, p, ids), ids)
  }

  // ----- What a selection in progress leaves alone -----

  /** Free pages outside every pinned super-block. */
  ghost function Usable(c: Config, p: Pool): set<nat>
    requires c.F > 0
  {
    set x | x in p.queue && !Pinned(p.layers, Sb(c, x))
  }

  /** Pins stay, and so does every expert in a super-block that its layer pins. */
  ghost predicate PinsKept(ls: seq<Layer>, ms: seq<Layer>) {
    && |ms| == |ls|
    && forall i :: 0 <= i < |ls| ==>
         && ms[i].pinned == ls[i].pinned
         && forall s :: s in ls[i].pinned && s in ls[i].expertAt ==>
                          s in ms[i].expertAt && ms[i].expertAt[s] == ls[i].expertAt[s]
  }

  /** The selection that started at p0 has taken some usable pages, and nothing else of
      the KV side has changed. */
  ghost predicate Picking(c: Config, p0: Pool, p: Pool, taken: set<nat>) {
    && Inv(c, p, taken)
    && p.refs == p0.refs && p.hashOf == p0.hashOf && p.cache == p0.cache && p.mem == p0.mem && p.step == p0.step
    && PinsKept(p0.layers, p.layers)
    && taken <= Usable(c, p0) && Usable(c, p) == Usable(c, p0) - taken
  }

  lemma SamePins(ls: seq<Layer>, ms: seq<Layer>)
    requires PinsKept(ls, ms)
    ensures forall s :: Pinned(ls, s) <==> Pinned(ms, s)
  {
    forall s ensures Pinned(ls, s) <==> Pinned(ms, s) {
      if Pinned(ls, s) {
        var i :| 0 <= i < |ls| && s in ls[i].pinned;
        assert s in ms[i].pinned;
      }
      if Pinned(ms, s) {
        var i :| 0 <= i < |ms| && s in ms[i].pinned;
        assert s in ls[i].pinned;
      }
    }
  }

  lemma PickingStart(c: Config, p: Pool)
    requires Inv(c, p, {})
    ensures Picking(c, p, p, {})
  {
    hide Inv, Sb;
    Sized(c, p);
  }

  lemma PickingTake(c: Config, p0: Pool, p: Pool, taken: set<nat>, x: nat)
    requires Picking(c, p0, p, taken) && x in p.queue && !Pinned(p.layers, Sb(c, x)) && Sb(c, x) !in p.holder
    ensures Picking(c, p0, Take(p, x), taken + {x}) && x !in taken
  {
    hide Inv, Sb, PinsKept, Remove, QueueRemove, Pinned;
    TakeKeeps(c, p, x, taken);
    UsableTake(c, p, x, taken);
    assert x in Usable(c, p);
  }

  lemma UsableTake(c: Config, p: Pool, x: nat, taken: set<nat>)
    requires Inv(c, p, taken) && x in p.queue
    ensures c.F > 0 && Usable(c, Take(p, x)) == Usable(c, p) - {x}
  {
    TakeQueue(c, p.refs, p.queue, taken, x);
    hide Inv, Sb, Pinned, QueueRemove;
  }

  lemma PickingDrop(c: Config, p0: Pool, p: Pool, taken: set<nat>, s: nat)
    requires Picking(c, p0, p, taken) && !Pinned(p.layers, s)
    ensures Picking(c, p0, DropAll(p, s), taken) && s !in DropAll(p, s).holder
    ensures !Pinned(DropAll(p, s).layers, s)
  {
    hide Inv, Sb, Pinned;
    DropAllKeeps(c, p, s, taken);
    DropAllPins(c, p, s);
    SamePins(p.layers, DropAll(p, s).layers);
    PinsCompose(p0.layers, p.layers, DropAll(p, s).layers);
    hide DropAll, PinsKept;
  }

  lemma PinsCompose(ls: seq<Layer>, ms: seq<Layer>, ns: seq<Layer>)
    requires PinsKept(ls, ms) && PinsKept(ms, ns)
    ensures PinsKept(ls, ns)
  {
  }

  lemma DropAllPins(c: Config, p: Pool, s: nat)
    requires !Pinned(p.layers, s)
    ensures PinsKept(p.layers, DropAll(p, s).layers) && DropAll(p, s).queue == p.queue
    ensures DropAll(p, s) == p.(layers := DropAll(p, s).layers, holder := DropAll(p, s).holder)
  {
    hide Remove;
  }

  lemma RemoveAbsent(l: seq<Entry>, key: nat)
    requires key !in Keys(l)
    ensures Remove(l, key) == l
  {
    FindPresent(l, key);
  }

  /** A page without a hash leaves the queue and the recency list stays as it is. */
  lemma TakeUnhashed(c: Config, p: Pool, taken: set<nat>, x: nat)
    requires Inv(c, p, taken) && x !in p.hashOf
    ensures Take(p, x) == p.(queue := QueueRemove(p.queue, x))
  {
    hide Inv, Sb, QueueRemove, Remove, Keys;
    if x in Keys(p.lru) {
      LruPages(c, p, x, taken);
    }
    RemoveAbsent(p.lru, x);
  }

  /** The recency of the expert a layer has at a super-block. */
  lemma ExpertStep(c: Config, p: Pool, taken: set<nat>, i: nat, s: nat)
    requires Inv(c, p, taken) && i < |p.layers| && s in p.layers[i].expertAt
    ensures
      var l := p.layers[i];
      var e := l.expertAt[s];
      && e in l.sbAt && l.sbAt[e] == s && StepOf(l.lru, e) >= 0 && Entry(e, StepOf(l.lru, e)) in l.lru
      && forall f :: f in l.lru && f.key == e ==> f.step == StepOf(l.lru, e)
  {
    LayerFacts(c, p, i, taken);
    var l := p.layers[i];
    var e := l.expertAt[s];
    hide Inv, Mirrors, Sorted, NoNewerThan, SuperBlocks;
    FindPresent(l.lru, e);
    assert l.lru[Find(l.lru, e)] in l.lru;
    forall f | f in l.lru && f.key == e ensures f.step == StepOf(l.lru, e) {
      var k :| 0 <= k < |l.lru| && l.lru[k] == f;
      FindUnique(l.lru, k);
    }
  }

  /** Where a reclaimable expert sits. */
  lemma ReclaimableHome(c: Config, p: Pool, taken: set<nat>, i: nat, e: Entry)
    requires Inv(c, p, taken) && Reclaimable(p, i, e)
    ensures
      var s := p.layers[i].sbAt[e.key];
      s > 0 && s in p.holder && i in p.holder[s] && s in p.layers[i].expertAt && p.layers[i].expertAt[s] == e.key
  {
    hide Inv, Sb, SuperBlocks;
    Mapping(c, p, i, e.key, taken);
  }

  /** A holder's expert is reclaimable exactly when its super-block is not pinned. */
  lemma HolderReclaimable(c: Config, p: Pool, taken: set<nat>, i: nat, s: nat)
    requires Inv(c, p, taken) && s in p.holder && i in p.holder[s] && !Pinned(p.layers, s)
    ensures i < |p.layers| && s in p.layers[i].expertAt && StepOf(p.layers[i].lru, p.layers[i].expertAt[s]) >= 0
    ensures Reclaimable(p, i, Entry(p.layers[i].expertAt[s], StepOf(p.layers[i].lru, p.layers[i].expertAt[s])))
    ensures p.layers[i].sbAt[p.layers[i].expertAt[s]] == s
  {
    assert i < |p.layers| && s in p.layers[i].expertAt by {
      hide LruOk, LayersOk, KvBytes, ExpertBytes, Sb, CacheOk, Exclusive, QueueOk;
      assert i in Holders(p.layers, s);
    }
    hide Inv;
    ExpertStep(c, p, taken, i, s);
  }

  lemma PickingFacts(c: Config, p0: Pool, p: Pool, taken: set<nat>)
    requires Picking(c, p0, p, taken)
    ensures Inv(c, p, taken) && c.F > 0 && Sorted(p.lru)
  {
    hide Sb, PinsKept, LayersOk, KvBytes, ExpertBytes, Sb, CacheOk, Exclusive, QueueOk, HolderOk;
  }

  lemma PickFree(c: Config, p0: Pool, p: Pool, taken: set<nat>, x: nat)
    requires Picking(c, p0, p, taken) && c.F > 0 && FirstFree(c, p, x)
    ensures Preferred(c, p, x) && x !in taken && Picking(c, p0, p.(queue := QueueRemove(p.queue, x)), taken + {x})
    ensures p.(queue := QueueRemove(p.queue, x)) == TakePage(c, p, x)
  {
    hide Inv, Sb, PinsKept, Pinned, QueueRemove, Remove, Take, Usable, DropAll;
    NothingHeld(p, Sb(c, x));
    TakeUnhashed(c, p, taken, x);
    PickingTake(c, p0, p, taken, x);
  }

  lemma FirstPage(c: Config, p0: Pool, p: Pool, taken: set<nat>, s: nat)
    requires Picking(c, p0, p, taken) && s in p.holder
    ensures c.F > 0 && s * c.F in p.queue && s * c.F !in p.hashOf && Sb(c, s * c.F) == s && Inv(c, p, taken)
    ensures DropAll(p, s).queue == p.queue && DropAll(p, s).hashOf == p.hashOf
  {
    hide Inv, Sb, PinsKept, Usable;
    HeldSuperBlock(c, p, taken, s);
    PagesOf(c, s, s * c.F);
    WholeSuperBlock(c, s);
  }

  lemma FirstPageAfter(c: Config, p0: Pool, p: Pool, taken: set<nat>, x: nat)
    requires Picking(c, p0, p, taken) && c.F > 0 && x in p.queue && x !in p.hashOf
    requires Sb(c, x) !in p.holder && !Pinned(p.layers, Sb(c, x))
    ensures x !in taken && Picking(c, p0, p.(queue := QueueRemove(p.queue, x)), taken + {x})
    ensures p.(queue := QueueRemove(p.queue, x)) == Take(p, x)
  {
    hide Inv, Sb, PinsKept, Pinned, QueueRemove, Remove, Take, Usable;
    TakeUnhashed(c, p, taken, x);
    PickingTake(c, p0, p, taken, x);
  }

  lemma PreferExpert(c: Config, p: Pool, x: nat, s: nat, step: int, prefix: bool, f: Entry)
    requires c.F > 0 && Sb(c, x) == s && x == s * c.F && ColdestExpert(p, step) && forall y :: !TrulyFree(c, p, y)
    requires exists i: nat, e :: Reclaimable(p, i, e) && p.layers[i].sbAt[e.key] == s && e.step == step
    requires if prefix then ColdestSpare(c, p, f.step) && step <= f.step else forall g :: !Spare(c, p, g)
    ensures Preferred(c, p, x)
  {
    hide Sb, Reclaimable, TrulyFree, Spare;
  }

  lemma PickPrefix(c: Config, p0: Pool, p: Pool, taken: set<nat>, f: Entry, expert: bool, step: int)
    requires Picking(c, p0, p, taken) && c.F > 0 && Spare(c, p, f) && ColdestSpare(c, p, f.step)
    requires forall y :: !TrulyFree(c, p, y)
    requires if expert then ColdestExpert(p, step) && f.step < step else forall i: nat, e :: !Reclaimable(p, i, e)
    ensures Preferred(c, p, f.key) && f.key !in taken && Picking(c, p0, Take(p, f.key), taken + {f.key})
    ensures Take(p, f.key) == TakePage(c, p, f.key)
  {
    hide Inv, Sb, PinsKept, Pinned, Take, Usable, TrulyFree, Reclaimable, DropAll;
    NothingHeld(p, Sb(c, f.key)) by { InKeys(p.lru, f); LruPages(c, p, f.key, taken); }
    InKeys(p.lru, f);
    LruPages(c, p, f.key, taken);
    PickingTake(c, p0, p, taken, f.key);
    assert ColdestExpert(p, f.step + 1);
  }

  /** With nothing truly free, no reclaimable expert and no spare prefix, every free page is pinned. */
  lemma NothingUsable(c: Config, p: Pool, taken: set<nat>)
    requires Inv(c, p, taken) && c.F > 0
    requires forall y :: !TrulyFree(c, p, y)
    requires forall i: nat, e :: !Reclaimable(p, i, e)
    requires forall g :: !Spare(c, p, g)
    ensures Usable(c, p) == {}
  {
    hide Inv, Sb, Pinned, Keys;
    forall x | x in p.queue ensures Pinned(p.layers, Sb(c, x)) {
      if x in p.hashOf {
        HashedInLru(c, p, taken, x);
        var k := KeyAt(p.lru, x);
        assert !Spare(c, p, p.lru[k]);
      } else if Sb(c, x) in p.holder {
        var s := Sb(c, x);
        if !Pinned(p.layers, s) {
          var i := SomeHolder(c, p, taken, s);
          HolderReclaimable(c, p, taken, i, s);
        }
      } else {
        assert !TrulyFree(c, p, x);
      }
    }
  }

  lemma HashedInLru(c: Config, p: Pool, taken: set<nat>, x: nat)
    requires Inv(c, p, taken) && x in p.queue && x in p.hashOf
    ensures x in Keys(p.lru)
  {
    hide LayersOk, HolderOk, KvBytes, ExpertBytes, Sb, Keys, CacheOk, Exclusive, QueueOk;
  }

  lemma SomeHolder(c: Config, p: Pool, taken: set<nat>, s: nat) returns (i: nat)
    requires Inv(c, p, taken) && s in p.holder
    ensures i in p.holder[s]
  {
    i :| i in p.holder[s];
  }

  // ----- Granting the pages taken -----

  lemma AllTaken(c: Config, p0: Pool, p: Pool, taken: set<nat>)
    requires Picking(c, p0, p, taken) && c.F > 0 && Usable(c, p) == {}
    ensures taken == Usable(c, p0)
  {
    hide Inv, Usable, PinsKept;
    forall x | x in Usable(c, p0) ensures x in taken {
      assert x in Usable(c, p0) - taken <==> x !in taken;
    }
  }

  lemma AppendPick(ids: seq<nat>, x: nat)
    requires NoRepeats(ids) && x !in Members(ids)
    ensures NoRepeats(ids + [x]) && Members(ids + [x]) == Members(ids) + {x}
  {
    assert (ids + [x])[..|ids|] == ids;
  }

  lemma UsableAreQueued(c: Config, p: Pool)
    requires Inv(c, p, {})
    ensures c.F > 0 && |Usable(c, p)| <= |p.queue|
  {
    Sized(c, p);
    hide Inv, Sb, Pinned;
    SubsetSize(Usable(c, p), Members(p.queue));
  }

  /** The first k of the pages are live and unhashed, and the KV side is otherwise as at p0. */
  ghost predicate Granting(c: Config, p0: Pool, p: Pool, ids: seq<nat>, k: nat) {
    && k <= |ids| && NoRepeats(ids) && Inv(c, p, Members(ids[k..]))
    && (forall x :: x in ids ==> x in p0.queue && 0 < x < c.pages) && |p0.refs| == |p.refs| == c.pages
    && (forall x :: 0 <= x < c.pages ==> p.refs[x] == p0.refs[x] + if x in ids[..k] then 1 else 0)
    && (forall x :: x in ids ==> p0.refs[x] == 0)
    && (forall x :: x in p.hashOf <==> x in p0.hashOf && x !in ids[..k])
    && (forall x :: x in p.hashOf ==> p.hashOf[x] == p0.hashOf[x])
    && p.mem == p0.mem && p.step == p0.step && PinsKept(p0.layers, p.layers)
    && c.F > 0 && Members(ids) <= Usable(c, p0)
  }

  /** What an allocation does: the pages granted were usable, go from free to live and lose
      their hashes; other pages, all bytes, all pins and pinned experts stay. */
  ghost predicate Granted(c: Config, p: Pool, q: Pool, ids: seq<nat>) {
    && NoRepeats(ids) && c.F > 0 && Members(ids) <= Usable(c, p) && |q.refs| == |p.refs|
    && (forall x :: 0 <= x < |p.refs| ==> q.refs[x] == p.refs[x] + if x in ids then 1 else 0)
    && (forall x :: x in ids ==> x < |p.refs| && p.refs[x] == 0 && x !in q.hashOf)
    && (forall x :: x in q.hashOf <==> x in p.hashOf && x !in ids)
    && (forall x :: x in q.hashOf ==> q.hashOf[x] == p.hashOf[x])
    && q.mem == p.mem && q.step == p.step && PinsKept(p.layers, q.layers)
  }

  lemma GrantStart(c: Config, p0: Pool, p: Pool, ids: seq<nat>)
    requires Inv(c, p0, {}) && Picking(c, p0, p, Members(ids)) && NoRepeats(ids)
    ensures Granting(c, p0, p, ids, 0)
  {
    hide Inv, Sb, Pinned, PinsKept, Members, NoRepeats;
    Sized(c, p0);
    assert ids[0..] == ids && ids[..0] == [];
    forall x | x in ids ensures x in p0.queue && 0 < x < c.pages && p0.refs[x] == 0 {
      assert x in Members(ids);
      assert x in Usable(c, p0);
      QueuePages(c, p0, x, {});
    }
    hide Usable;
  }

  lemma GrantStep(c: Config, p0: Pool, p: Pool, ids: seq<nat>, k: nat)
    requires Granting(c, p0, p, ids, k) && k < |ids|
    ensures Inv(c, p, Members(ids[k..])) && ids[k] < |p.refs| && Granting(c, p0, Allocate(p, ids[k]), ids, k + 1)
    ensures Allocate(p, ids[k]) == EvictHash(p, ids[k]).(refs := p.refs[ids[k] := p.refs[ids[k]] + 1])
  {
    hide Inv, Usable, PinsKept, Remove, CacheRemove, Members;
    var x := ids[k];
    assert x in ids && ids[..k + 1] == ids[..k] + [x];
    assert x !in ids[..k];
    RestAfter(ids, k);
    AllocateKeeps(c, p, x, Members(ids[k..]));
  }

  lemma GrantSizes(c: Config, p0: Pool, p: Pool, ids: seq<nat>, k: nat)
    requires Granting(c, p0, p, ids, k)
    ensures forall j :: 0 <= j < |ids| ==> ids[j] < |p.refs|
  {
    hide Inv, Usable, PinsKept, Members, NoRepeats;
    forall j | 0 <= j < |ids| ensures ids[j] < |p.refs| {
      assert ids[j] in ids;
    }
  }

  lemma RestAfter(ids: seq<nat>, k: nat)
    requires NoRepeats(ids) && k < |ids|
    ensures ids[k] in Members(ids[k..]) && Members(ids[k..]) - {ids[k]} == Members(ids[k + 1..])
  {
    assert ids[k..] == [ids[k]] + ids[k + 1..];
  }

  lemma GrantEnd(c: Config, p0: Pool, p: Pool, ids: seq<nat>)
    requires Granting(c, p0, p, ids, |ids|)
    ensures Inv(c, p, {}) && Granted(c, p0, p, ids)
    ensures forall x :: x in ids ==> 0 < x < c.pages && x < |p.refs| && p.refs[x] > 0
    ensures |ids| <= |Usable(c, p0)|
  {
    hide Inv, Usable, PinsKept, Members, NoRepeats;
    MembersSize(ids);
    SubsetSize(Members(ids), Usable(c, p0));
    assert ids[..|ids|] == ids && ids[|ids|..] == [];
    NoMembers();
  }

  /** A super-block with a live page holds no expert and is pinned by no layer. */
  lemma LiveNotHeld(c: Config, p: Pool, x: nat)
    requires Inv(c, p, {}) && 0 < x < c.pages && p.refs[x] > 0
    ensures Sb(c, x) !in p.holder && !Pinned(p.layers, Sb(c, x))
  {
    assert Sb(c, x) !in p.holder by {
      hide LruOk, CacheOk, LayersOk, HolderOk, KvBytes, ExpertBytes, Sb;
    }
    hide Sb;
    forall i | 0 <= i < |p.layers| ensures Sb(c, x) !in p.layers[i].pinned {
      hide Inv;
      InLayer(c, p, i, Sb(c, x));
    }
  }

  // ----- When pages are lost -----

  /** Between forward passes no layer pins anything, and every free page can be used. */
  lemma NoPinsAllUsable(c: Config, p: Pool)
    requires Inv(c, p, {}) && forall i :: 0 <= i < |p.layers| ==> p.layers[i].pinned == {}
    ensures c.F > 0 && |Usable(c, p)| == |p.queue|
  {
    QueueDistinct(c, p);
    hide Inv, Sb;
    Sized(c, p);
    assert Usable(c, p) == Members(p.queue);
  }

  lemma QueueDistinct(c: Config, p: Pool)
    requires Inv(c, p, {})
    ensures NoRepeats(p.queue) && |Members(p.queue)| == |p.queue|
  {
    hide LruOk, CacheOk, LayersOk, HolderOk, KvBytes, ExpertBytes, Exclusive, Sb;
    MembersSize(p.queue);
  }

  /** A selection that ran out leaves the pool sound exactly when it had taken nothing. */
  lemma LeakIffTaken(c: Config, p0: Pool, p: Pool, taken: set<nat>)
    requires Inv(c, p0, {}) && Picking(c, p0, p, taken)
    ensures Inv(c, p, {}) <==> taken == {}
  {
    hide Sb, LruOk, CacheOk, LayersOk, HolderOk, KvBytes, ExpertBytes, Exclusive, PinsKept, Pinned;
    if taken != {} {
      var x :| x in taken;
      assert x in p0.queue;
      assert !QueueOk(c, p.refs, p.queue, {});
    }
  }

  lemma NoMembers()
    ensures Members([]) == {}
  {
  }
}
