/** The operations that the engine performs on the pool, and what every run of them keeps. */
module PoolOps {
  import opened Recency
  import opened PoolState
  import opened PoolSteps
  import opened PoolQueries
  import opened PoolFacts
  import opened ExpertRoom
  import opened ExpertLoad
  import opened LoadTrace
  import opened PoolFrames
  import opened KvVictim
  import opened BlockOps
  import opened Freeing

  /** A forward pass of one layer; allocate, free, share, cache, overwrite, evict KV blocks. */
  datatype Op =
    | Forward(layer: nat, needed: seq<nat>)
    | NewKv(n: nat)
    | FreeKv(ids: seq<nat>)
    | HitKv(ids: seq<nat>)
    | CacheKv(x: nat, h: nat)
    | WriteKv(x: nat, data: seq<Bytes>)
    | EvictKv(ids: seq<nat>)

  datatype Outcome = Fine | Skipped | NoRoomForExperts | NotEnoughBlocks | IndexFault

  /** What the callers of each operation see to: experts that exist, blocks that are
      referenced, blocks the prefix cache handed out, bytes that match the hash. */
  predicate Allowed(c: Config, refs: seq<int>, hashOf: map<nat, nat>, mem: seq<seq<Bytes>>, op: Op)
    requires |refs| == c.pages && forall b :: 0 <= b < |mem| ==> |mem[b]| == c.pages
  {
    match op
    case Forward(i, needed) =>
      && i < |c.weights| && (forall k :: 0 <= k < |needed| ==> needed[k] < |c.weights[i]|)
      && (forall j, k :: 0 <= j < k < |needed| ==> needed[j] != needed[k])
    case NewKv(_) => true
    case FreeKv(ids) =>
      forall k :: 0 <= k < |ids| ==>
        && ids[k] < c.pages
        && (ids[k] != 0 ==>
              multiset(ids)[ids[k]] < refs[ids[k]] || (multiset(ids)[ids[k]] == 1 && refs[ids[k]] == 1))
    case HitKv(ids) =>
      forall k :: 0 <= k < |ids| ==> ids[k] < c.pages && (ids[k] in hashOf || ids[k] == 0 || refs[ids[k]] > 0)
    case CacheKv(x, h) =>
      && 0 < x < c.pages && refs[x] > 0 && x !in hashOf && |c.kv(h)| == |mem|
      && forall b :: 0 <= b < |mem| ==> mem[b][x] == c.kv(h)[b]
    case WriteKv(x, data) => x < c.pages && refs[x] > 0 && x !in hashOf && |data| == |mem| && x != 0
    case EvictKv(ids) => forall k :: 0 <= k < |ids| ==> ids[k] < c.pages
  }

  ghost predicate NoPins(layers: seq<Layer>) {
    forall i :: 0 <= i < |layers| ==> layers[i].pinned == {}
  }

  /** The operation neither frees nor overwrites page x. */
  ghost predicate Spares(op: Op, x: nat) {
    !(op.FreeKv? && x in op.ids) && !(op.WriteKv? && op.x == x)
  }

  ghost predicate SamePage(m: seq<seq<Bytes>>, n: seq<seq<Bytes>>, x: nat) {
    |n| == |m| && forall b :: 0 <= b < |m| ==> |n[b]| == |m[b]| && (x < |m[b]| ==> n[b][x] == m[b][x])
  }

  /** A referenced page stays referenced and keeps its bytes in every buffer. */
  ghost predicate Unharmed(p: Pool, q: Pool, x: nat) {
    x < |p.refs| && x > 0 && p.refs[x] > 0 ==> x < |q.refs| && q.refs[x] > 0 && SamePage(p.mem, q.mem, x)
  }

  ghost predicate Sound(c: Config, p: Pool) {
    Inv(c, p, {}) && NoPins(p.layers)
  }

  /** One operation: the pool is sound again and no page it spares is harmed. */
  ghost predicate Safe(c: Config, p: Pool, q: Pool, op: Op) {
    Sound(c, q) && forall x :: Spares(op, x) ==> Unharmed(p, q, x)
  }

  ghost predicate Shape(c: Config, p: Pool) {
    && c.F > 0 && |p.refs| == c.pages && |p.layers| == |c.weights|
    && forall b :: 0 <= b < |p.mem| ==> |p.mem[b]| == c.pages
  }

  function OutcomeOf(r: LoadResult): Outcome {
    if r.AllLoaded? then Fine else if r.LoadExhausted? then NoRoomForExperts else IndexFault
  }

  /** A forward pass of layer i through the state m that the kernel sees: on success every
      needed expert is ready there; on failure the loads are undone, and on exhaustion only
      needed experts are left in the layer. */
  ghost predicate PassedThrough(c: Config, p: Pool, m: Pool, q: Pool, i: nat, needed: seq<nat>, o: Outcome)
    requires Shape(c, p) && i < |p.layers|
  {
    && i < |m.layers| && Staying(p, m, i)
    && q == Unpin(m, i).(step := m.step + if o == Fine then 1 else 0)
    && (o == Fine ==> forall e :: e in needed ==> Ready(c, m, i, e))
    && (if o == Fine then LoadDone(p.layers[i], m.layers[i], Members(needed))
        else LoadFailed(p.layers[i], m.layers[i], Members(needed)))
    && (o == NoRoomForExperts ==> forall e :: e in m.layers[i].sbAt ==> e in needed)
  }

  /** An allocation: the pages handed out are granted, the others stay queued as they stood, and
      only the experts in the super-blocks of those pages are given up. */
  ghost predicate GrantedOnly(c: Config, p: Pool, q: Pool, ids: seq<nat>) {
    && Granted(c, p, q, ids) && HandedOut(c, p, q, ids) && c.F > 0
    && q.queue == Except(p.queue, Members(ids)) && OthersKept(p.layers, q.layers, Homes(c, ids))
  }

  /** A hit: a reference per mention, and the other free pages stay queued as they stood. */
  ghost predicate HitOnly(p: Pool, q: Pool, ids: seq<nat>) {
    && q.queue == Except(p.queue, Members(ids)) && |q.refs| == |p.refs|
    && forall y :: 0 <= y < |p.refs| ==> q.refs[y] == p.refs[y] + multiset(ids)[y]
  }

  /** What one operation does and which outcome it reports: nothing if it is not allowed now,
      and otherwise exactly the step of the source. */
  ghost predicate Step(c: Config, p: Pool, q: Pool, op: Op, o: Outcome, knobs: Knobs)
    requires Shape(c, p)
  {
    if !Allowed(c, p.refs, p.hashOf, p.mem, op) then o == Skipped && q == p
    else
      match op
      case Forward(i, needed) =>
        && o in {Fine, NoRoomForExperts, IndexFault}
        && (o == Fine ==> |needed| <= |LiveFree(c, p.refs)|)
        && (o == NoRoomForExperts ==> |LiveFree(c, p.refs)| < |needed|)
        && (o == IndexFault ==> c.pages % c.F != 0)
        && exists m, r, ps, ss ::
             && OutcomeOf(r) == o && PassedThrough(c, p, m, q, i, needed, o)
             && LoadedBy(c, p, m, i, needed, r, ps, ss, knobs)
      case NewKv(n) =>
        if n > |p.queue| then o == NotEnoughBlocks && q == p
        else o == Fine && exists ids :: |ids| == n && GrantedOnly(c, p, q, ids)
      case FreeKv(ids) => o == Fine && InRange(p.refs, ids) && q == FreePasses(p, ids) && FreedAtEnd(p, q, ids)
      case HitKv(ids) => o == Fine && InRange(p.refs, ids) && q == TouchAll(p, ids) && HitOnly(p, q, ids)
      case CacheKv(x, h) => o == Fine && q == CachePage(p, x, h)
      case WriteKv(x, data) => o == Fine && q == p.(mem := WritePage(p.mem, x, data))
      case EvictKv(ids) => o == Fine && q == EvictAll(p, ids)
  }

  /** Every state of a run is sound and comes from the one before by its operation. */
  ghost predicate Trace(c: Config, states: seq<Pool>, ops: seq<Op>, outcomes: seq<Outcome>, knobs: Knobs) {
    && |outcomes| <= |ops| && |states| == |outcomes| + 1
    && (forall k :: 0 <= k < |states| ==> Shape(c, states[k]) && Sound(c, states[k]))
    && forall k :: 0 <= k < |outcomes| ==> StepAt(c, states, ops, outcomes, k, knobs)
  }

  ghost predicate StepAt(c: Config, states: seq<Pool>, ops: seq<Op>, outcomes: seq<Outcome>, k: nat, knobs: Knobs)
    requires k < |outcomes| && k < |ops| && k + 1 < |states| && Shape(c, states[k])
  {
    Step(c, states[k], states[k + 1], ops[k], outcomes[k], knobs)
  }

  lemma TraceStart(c: Config, p: Pool, ops: seq<Op>, knobs: Knobs)
    requires Sound(c, p)
    ensures Trace(c, [p], ops, [], knobs)
  {
    hide Inv;
    ShapeOf(c, p);
  }

  lemma ShapeOf(c: Config, p: Pool)
    requires Inv(c, p, {})
    ensures Shape(c, p)
  {
    hide Inv;
    Sized(c, p);
    BufferSizes(c, p);
  }

  lemma TraceNext(c: Config, states: seq<Pool>, ops: seq<Op>, outcomes: seq<Outcome>, q: Pool, o: Outcome,
                  knobs: Knobs)
    requires Trace(c, states, ops, outcomes, knobs) && |outcomes| < |ops| && Sound(c, q)
    requires Step(c, states[|outcomes|], q, ops[|outcomes|], o, knobs)
    ensures Trace(c, states + [q], ops, outcomes + [o], knobs)
  {
    hide Step, Shape, Inv, NoPins;
    ShapeOf(c, q);
    var (ss, os) := (states + [q], outcomes + [o]);
    forall k | 0 <= k < |ss| ensures Shape(c, ss[k]) && Sound(c, ss[k]) { }
    forall k | 0 <= k < |os| ensures StepAt(c, ss, ops, os, k, knobs) {
      if k < |outcomes| {
        assert StepAt(c, states, ops, outcomes, k, knobs);
      }
    }
  }

  /** With no pins before, what must be kept is what is needed. */
  lemma OnlyNeeded(l: Layer, needed: set<nat>)
    requires l.pinned == {}
    ensures KeepSet(l, needed) == needed && forall e :: KeptBy(l, needed, e) <==> e in needed
  {
  }

  lemma UnharmedStep(p: Pool, q: Pool, r: Pool, x: nat)
    requires Unharmed(p, q, x) && Unharmed(q, r, x)
    ensures Unharmed(p, r, x)
  {
  }

  /** A forward pass: load, then release the pins, then let time pass if it completed. */
  lemma ForwardSafe(c: Config, p: Pool, q: Pool, i: nat, needed: seq<nat>, tick: nat)
    requires Sound(c, p) && i < |p.layers| && Inv(c, q, {}) && Staying(p, q, i) && tick <= 1
    ensures
      var r := Unpin(q, i);
      Safe(c, p, r.(step := r.step + tick), Forward(i, needed))
  {
    hide Inv, Staying;
    StayingPins(p, q, i);
    UnpinKeeps(c, q, i);
    var r := Unpin(q, i);
    EndStepKeeps(c, r);
    var last := r.(step := r.step + tick);
    assert last == r || last == r.(step := r.step + 1);
    forall x ensures Unharmed(p, last, x) {
      StayingSpares(c, p, q, i, x);
    }
  }

  lemma StayingPins(p: Pool, q: Pool, i: nat)
    requires NoPins(p.layers) && Staying(p, q, i) && i < |p.layers|
    ensures i < |q.layers| && NoPins(Unpin(q, i).layers)
  {
    hide SameLiveBytes;
  }

  lemma StayingSpares(c: Config, p: Pool, q: Pool, i: nat, x: nat)
    requires Inv(c, p, {}) && Staying(p, q, i)
    ensures Unharmed(p, q, x)
  {
    if x < |p.refs| && x > 0 && p.refs[x] > 0 {
      assert x !in p.queue by {
        hide LruOk, CacheOk, LayersOk, HolderOk, KvBytes, ExpertBytes, Exclusive, Sb, Staying;
      }
      hide Inv;
    }
  }

  lemma GrantedSafe(c: Config, p: Pool, q: Pool, ids: seq<nat>)
    requires Sound(c, p) && Inv(c, q, {}) && Granted(c, p, q, ids)
    ensures Safe(c, p, q, NewKv(|ids|))
  {
    hide Inv, Usable, NoRepeats;
  }

  lemma SkippedSafe(c: Config, p: Pool, op: Op)
    requires Sound(c, p)
    ensures Safe(c, p, p, op)
  {
    hide Inv;
  }

  lemma FreeSafe(c: Config, p: Pool, ids: seq<nat>)
    requires Sound(c, p) && InRange(p.refs, ids) && Freeable(p.refs, ids)
    ensures Safe(c, p, FreePasses(p, ids), FreeKv(ids))
  {
    hide Inv, FreeAll, FreePasses, Decrement;
    Sized(c, p);
    FreePassesSoundIff(c, p, ids);
    PassesOnly(p, ids);
    forall y | 0 < y < c.pages && y !in ids ensures FreePasses(p, ids).refs[y] == p.refs[y] {
      NotMentioned(p.refs, ids, y);
    }
  }

  lemma MayFree(c: Config, refs: seq<int>, ids: seq<nat>)
    requires |refs| == c.pages
    requires forall k :: 0 <= k < |ids| ==>
               && ids[k] < c.pages
               && (ids[k] != 0 ==>
                     multiset(ids)[ids[k]] < refs[ids[k]] || (multiset(ids)[ids[k]] == 1 && refs[ids[k]] == 1))
    ensures InRange(refs, ids) && Freeable(refs, ids)
  {
    forall x | 0 < x < |refs| && x in ids ensures multiset(ids)[x] < refs[x] || (multiset(ids)[x] == refs[x] == 1) {
      var k :| 0 <= k < |ids| && ids[k] == x;
    }
  }

  lemma PassesOnly(p: Pool, ids: seq<nat>)
    requires InRange(p.refs, ids)
    ensures
      var q := FreePasses(p, ids);
      q.refs == Decrement(p.refs, ids) && |q.refs| == |p.refs| && q.layers == p.layers && q.mem == p.mem
  {
    hide Decrement, NewlyFreed, StampAll;
  }

  lemma HitSafe(c: Config, p: Pool, ids: seq<nat>)
    requires Sound(c, p) && Touchable(c, p, ids)
    ensures Safe(c, p, TouchAll(p, ids), HitKv(ids))
  {
    hide Inv, TouchAll;
    Sized(c, p);
    TouchAllKeeps(c, p, ids);
  }

  lemma CacheSafe(c: Config, p: Pool, x: nat, h: nat)
    requires Sound(c, p) && 0 < x < c.pages && p.refs[x] > 0 && x !in p.hashOf
    requires Holding(c, p.mem, x, h)
    ensures Safe(c, p, CachePage(p, x, h), CacheKv(x, h))
  {
    hide Inv;
    CachePageKeeps(c, p, x, h);
  }

  lemma WriteSafe(c: Config, p: Pool, x: nat, data: seq<Bytes>)
    requires Sound(c, p) && x < c.pages && p.refs[x] > 0 && x !in p.hashOf && |data| == |p.mem|
    ensures forall b :: 0 <= b < |p.mem| ==> |p.mem[b]| == c.pages
    ensures Safe(c, p, p.(mem := WritePage(p.mem, x, data)), WriteKv(x, data))
  {
    hide Inv;
    WritePageKeeps(c, p, x, data);
  }

  lemma EvictSafe(c: Config, p: Pool, ids: seq<nat>)
    requires Sound(c, p)
    ensures Safe(c, p, EvictAll(p, ids), EvictKv(ids))
  {
    hide Inv, EvictAll;
    EvictAllKeeps(c, p, ids);
  }

  lemma SameStep(p: Pool, q: Pool, i: nat)
    requires Staying(p, q, i)
    ensures q.step == p.step
  {
  }

  lemma TableSizes(c: Config, p: Pool)
    requires Inv(c, p, {})
    ensures |p.layers| == |c.weights| && forall i :: 0 <= i < |p.layers| ==> |p.layers[i].table| == |c.weights[i]|
  {
    hide LruOk, CacheOk, HolderOk, KvBytes, ExpertBytes, Exclusive, Sb, QueueOk, Bijection, ExpertLruOk;
  }

  lemma RunStart(c: Config, p: Pool)
    requires Sound(c, p)
    ensures c.F > 0 && forall x :: Unharmed(p, p, x)
  {
    hide Inv;
    Sized(c, p);
  }

  lemma RunStep(c: Config, p: Pool, q: Pool, op: Op)
    requires Safe(c, p, q, op)
    ensures Sound(c, q) && forall x :: Spares(op, x) ==> Unharmed(p, q, x)
  {
    hide Sound, Unharmed;
  }

  function EmptyLayer(experts: nat): Layer {
    Layer(map[], map[], seq(experts, _ => UNLOADED), [], {})
  }

  lemma EmptyPool(c: Config, p: Pool)
    requires ConfigOk(c, |p.mem|) && (forall b :: 0 <= b < |p.mem| ==> |p.mem[b]| == c.pages)
    requires p.refs == seq(c.pages, _ => 0) && p.hashOf == map[] && p.cache == map[] && p.holder == map[] && p.lru == []
    requires p.queue == seq(c.pages - 1, k requires 0 <= k < c.pages - 1 => k + 1)
    requires |p.layers| == |c.weights| && forall i :: 0 <= i < |p.layers| ==> p.layers[i] == EmptyLayer(|c.weights[i]|)
    ensures Sound(c, p)
  {
    hide Sb;
    forall x ensures x in p.queue <==> 0 < x < c.pages {
      assert 0 < x < c.pages ==> p.queue[x - 1] == x;
    }
    forall s: nat ensures Holders(p.layers, s) == {} { }
    assert HolderOk(p.layers, p.holder);
    assert KvBytes(c, p.hashOf, p.mem) && CacheOk(c, p.hashOf, p.cache);
    assert QueueOk(c, p.refs, p.queue, {});
    assert LruOk(p.hashOf, p.queue, p.lru, p.step) && Exclusive(c, p.queue, p.hashOf, p.holder);
    assert ExpertBytes(c, p.layers, p.mem);
    assert LayersOk(c, p.layers, p.step);
  }
}
