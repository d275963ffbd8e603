/**
  Freeing a list of blocks (block_pool.py): the source drops every reference, then queues
  what nobody references, then stamps the cached ones.  That is freeing one block after the
  other, and keeps the pool sound, only for lists that name no block too often.
 */
module Freeing {
  import opened Recency
  import opened PoolState
  import opened PoolSteps
  import opened PoolQueries
  import opened PoolFacts

  ghost predicate InRange(refs: seq<int>, ids: seq<nat>) { forall k :: 0 <= k < |ids| ==> ids[k] < |refs| }

  // ----- The three passes -----

  function Less(refs: seq<int>, x: nat): (r: seq<int>)
    requires x < |refs|
    ensures |r| == |refs|
  {
    refs[x := refs[x] - 1]
  }

  /** Every block of the list loses a reference per mention. */
  function Decrement(refs: seq<int>, ids: seq<nat>): (r: seq<int>)
    requires InRange(refs, ids)
    ensures |r| == |refs|
  {
    if ids == [] then refs
    else
      var n := |ids| - 1;
      Less(Decrement(refs, ids[..n]), ids[n])
  }

  /** The blocks of the list that nobody references any more. */
  function NewlyFreed(refs: seq<int>, ids: seq<nat>): seq<nat>
    requires InRange(refs, ids)
  {
    if ids == [] then []
    else
      var n := |ids| - 1;
      NewlyFreed(refs, ids[..n]) + if refs[ids[n]] == 0 && ids[n] != 0 then [ids[n]] else []
  }

  /** Every freed block that carries a hash becomes the most recent prefix. */
  function StampAll(lru: seq<Entry>, hashOf: map<nat, nat>, freed: seq<nat>, step: nat): seq<Entry> {
    if freed == [] then lru
    else
      var n := |freed| - 1;
      var r := StampAll(lru, hashOf, freed[..n], step);
      if freed[n] in hashOf then Touch(r, freed[n], step) else r
  }

  /** References lowered and the blocks in freed queued and stamped. */
  function Settle(p: Pool, refs: seq<int>, freed: seq<nat>): Pool {
    p.(refs := refs, queue := p.queue + freed, lru := StampAll(p.lru, p.hashOf, freed, p.step))
  }

  function FreePasses(p: Pool, ids: seq<nat>): Pool
    requires InRange(p.refs, ids)
  {
    var refs := Decrement(p.refs, ids);
    Settle(p, refs, NewlyFreed(refs, ids))
  }

  lemma {:induction false} DecrementIs(refs: seq<int>, ids: seq<nat>, x: nat)
    requires InRange(refs, ids) && x < |refs|
    ensures Decrement(refs, ids)[x] == refs[x] - multiset(ids)[x]
  {
    if ids != [] {
      var n := |ids| - 1;
      DecrementIs(refs, ids[..n], x);
      assert ids == ids[..n] + [ids[n]];
    }
  }

  // ----- One block after the other -----

  function FreeAll(p: Pool, ids: seq<nat>): (q: Pool)
    requires InRange(p.refs, ids)
    ensures |q.refs| == |p.refs|
  {
    if ids == [] then p else FreePage(FreeAll(p, ids[..|ids| - 1]), ids[|ids| - 1])
  }

  /** The blocks queued on the way: at the mention that takes the last reference. */
  ghost function FreedOnTheWay(refs: seq<int>, ids: seq<nat>): seq<nat>
    requires InRange(refs, ids)
  {
    if ids == [] then []
    else
      var n := |ids| - 1;
      FreedOnTheWay(refs, ids[..n]) + if refs[ids[n]] == multiset(ids)[ids[n]] && ids[n] != 0 then [ids[n]] else []
  }

  lemma OneMore(p: Pool, freed: seq<nat>, refs: seq<int>, x: nat)
    requires x < |refs|
    ensures
      var more := freed + if Less(refs, x)[x] == 0 && x != 0 then [x] else [];
      FreePage(Settle(p, refs, freed), x) == Settle(p, Less(refs, x), more)
  {
    hide Touch;
    if Less(refs, x)[x] == 0 && x != 0 {
      assert (freed + [x])[..|freed|] == freed;
      assert p.queue + freed + [x] == p.queue + (freed + [x]);
    } else {
      assert freed + [] == freed;
    }
  }

  lemma NothingSettled(p: Pool)
    ensures Settle(p, p.refs, []) == p
  {
    assert p.queue + [] == p.queue;
  }

  lemma {:induction false} FreeAllIs(p: Pool, ids: seq<nat>)
    requires InRange(p.refs, ids)
    ensures FreeAll(p, ids) == Settle(p, Decrement(p.refs, ids), FreedOnTheWay(p.refs, ids))
  {
    hide Settle, FreePage;
    if ids == [] {
      NothingSettled(p);
    } else {
      var n := |ids| - 1;
      var (init, x) := (ids[..n], ids[n]);
      FreeAllIs(p, init);
      OneMore(p, FreedOnTheWay(p.refs, init), Decrement(p.refs, init), x);
      DecrementIs(p.refs, ids, x);
    }
  }

  // ----- When the two agree -----

  /** No block that is mentioned twice or more has its last reference among the mentions. */
  ghost predicate Plain(refs: seq<int>, ids: seq<nat>) {
    forall x :: 0 < x < |refs| && multiset(ids)[x] >= 2 ==> !(1 <= refs[x] <= multiset(ids)[x])
  }

  lemma CountSplit(s: seq<nat>, t: seq<nat>, x: nat)
    ensures multiset(s + t)[x] == multiset(s)[x] + multiset(t)[x]
  {
  }

  lemma CountLast(ids: seq<nat>, x: nat)
    requires ids != []
    ensures multiset(ids)[x] == multiset(ids[..|ids| - 1])[x] + if ids[|ids| - 1] == x then 1 else 0
  {
    assert ids == ids[..|ids| - 1] + [ids[|ids| - 1]];
  }

  lemma {:induction false} CountFreed(refs: seq<int>, ids: seq<nat>, x: nat)
    requires InRange(refs, ids) && 0 < x < |refs|
    ensures multiset(NewlyFreed(refs, ids))[x] == if refs[x] == 0 then multiset(ids)[x] else 0
  {
    if ids != [] {
      var n := |ids| - 1;
      CountFreed(refs, ids[..n], x);
      CountLast(ids, x);
      CountSplit(NewlyFreed(refs, ids[..n]), if refs[ids[n]] == 0 && ids[n] != 0 then [ids[n]] else [], x);
    }
  }

  lemma {:induction false} CountOnTheWay(refs: seq<int>, ids: seq<nat>, x: nat)
    requires InRange(refs, ids) && 0 < x < |refs|
    ensures multiset(FreedOnTheWay(refs, ids))[x] == if 1 <= refs[x] <= multiset(ids)[x] then 1 else 0
  {
    if ids != [] {
      var n := |ids| - 1;
      CountOnTheWay(refs, ids[..n], x);
      CountLast(ids, x);
      CountSplit(FreedOnTheWay(refs, ids[..n]),
                 if refs[ids[n]] == multiset(ids)[ids[n]] && ids[n] != 0 then [ids[n]] else [], x);
    }
  }

  /** The prefixes of the two lists of freed blocks agree. */
  lemma {:induction false} SameFreed(refs: seq<int>, ids: seq<nat>, m: nat)
    requires InRange(refs, ids) && m <= |ids| && Plain(refs, ids)
    ensures NewlyFreed(Decrement(refs, ids), ids[..m]) == FreedOnTheWay(refs, ids[..m])
  {
    hide Plain, Decrement;
    if m > 0 {
      var x := ids[m - 1];
      SameFreed(refs, ids, m - 1);
      assert ids[..m][..m - 1] == ids[..m - 1];
      SameHere(refs, ids, m);
    }
  }

  lemma SameHere(refs: seq<int>, ids: seq<nat>, m: nat)
    requires InRange(refs, ids) && 0 < m <= |ids| && Plain(refs, ids)
    ensures
      var x := ids[m - 1];
      x != 0 ==> (Decrement(refs, ids)[x] == 0 <==> refs[x] == multiset(ids[..m])[x])
  {
    hide Decrement;
    var x := ids[m - 1];
    DecrementIs(refs, ids, x);
    assert ids == ids[..m] + ids[m..] && ids[..m] == ids[..m - 1] + [x];
    var (a, b) := (multiset(ids[..m])[x], multiset(ids)[x]);
    assert 1 <= a <= b;
  }

  /** The three passes do what freeing one block after the other does, exactly when no
      block that is mentioned k >= 2 times has between 1 and k references. */
  lemma PassesAreSequentialIff(p: Pool, ids: seq<nat>)
    requires InRange(p.refs, ids)
    ensures FreePasses(p, ids) == FreeAll(p, ids) <==> Plain(p.refs, ids)
  {
    hide StampAll, FreeAll, Decrement, NewlyFreed, FreedOnTheWay;
    var refs := Decrement(p.refs, ids);
    var (a, b) := (NewlyFreed(refs, ids), FreedOnTheWay(p.refs, ids));
    FreeAllIs(p, ids);
    if Plain(p.refs, ids) {
      SameFreed(p.refs, ids, |ids|);
      assert ids[..|ids|] == ids;
    } else {
      var x :| 0 < x < |p.refs| && multiset(ids)[x] >= 2 && 1 <= p.refs[x] <= multiset(ids)[x];
      CountFreed(refs, ids, x);
      CountOnTheWay(p.refs, ids, x);
      DecrementIs(p.refs, ids, x);
      assert multiset(a)[x] != multiset(b)[x];
      assert a == (p.queue + a)[|p.queue|..] && b == (p.queue + b)[|p.queue|..];
    }
  }

  // ----- When the pool stays sound -----

  /** Every block is given up at most as often as it is referenced. */
  ghost predicate Owed(refs: seq<int>, ids: seq<nat>) {
    forall x :: 0 < x < |refs| && x in ids ==> multiset(ids)[x] <= refs[x]
  }

  /** And its last reference is not given up together with another one. */
  ghost predicate Freeable(refs: seq<int>, ids: seq<nat>) {
    forall x :: 0 < x < |refs| && x in ids ==> multiset(ids)[x] < refs[x] || (multiset(ids)[x] == refs[x] == 1)
  }

  /** One after the other is sound for every list of references that exist. */
  lemma {:induction false} FreeAllKeeps(c: Config, p: Pool, ids: seq<nat>)
    requires Inv(c, p, {}) && InRange(p.refs, ids) && Owed(p.refs, ids)
    ensures Inv(c, FreeAll(p, ids), {}) && FreeAll(p, ids).layers == p.layers && FreeAll(p, ids).mem == p.mem
    ensures FreeAll(p, ids).refs == Decrement(p.refs, ids)
  {
    hide Inv, Touch, Decrement, Owed;
    Sized(c, p);
    if ids == [] {
      NothingLess(p.refs);
    } else {
      var n := |ids| - 1;
      assert ids == ids[..n] + [ids[n]];
      OwedBefore(p.refs, ids);
      FreeAllKeeps(c, p, ids[..n]);
      DecrementLast(p.refs, ids);
      FreePageKeeps(c, FreeAll(p, ids[..n]), ids[n]);
    }
  }

  lemma NothingLess(refs: seq<int>)
    ensures Decrement(refs, []) == refs
  {
  }

  lemma DecrementLast(refs: seq<int>, ids: seq<nat>)
    requires InRange(refs, ids) && ids != []
    ensures
      var n := |ids| - 1;
      && Decrement(refs, ids) == Less(Decrement(refs, ids[..n]), ids[n])
      && Decrement(refs, ids[..n])[ids[n]] == refs[ids[n]] - (multiset(ids)[ids[n]] - 1)
  {
    var n := |ids| - 1;
    DecrementIs(refs, ids[..n], ids[n]);
    assert ids == ids[..n] + [ids[n]];
  }

  lemma OwedBefore(refs: seq<int>, ids: seq<nat>)
    requires InRange(refs, ids) && ids != [] && Owed(refs, ids)
    ensures Owed(refs, ids[..|ids| - 1])
    ensures ids[|ids| - 1] != 0 ==> multiset(ids)[ids[|ids| - 1]] <= refs[ids[|ids| - 1]]
  {
    var n := |ids| - 1;
    assert ids == ids[..n] + [ids[n]];
    assert ids[n] in ids;
  }

  lemma {:induction false} NotMentioned(refs: seq<int>, ids: seq<nat>, y: nat)
    requires InRange(refs, ids) && y < |refs| && y !in ids
    ensures Decrement(refs, ids)[y] == refs[y]
  {
    DecrementIs(refs, ids, y);
    assert y !in multiset(ids);
  }

  /** The three passes keep the pool sound exactly when every block of the list has more
      references than mentions, or one of each. */
  lemma FreePassesSoundIff(c: Config, p: Pool, ids: seq<nat>)
    requires Inv(c, p, {}) && InRange(p.refs, ids)
    ensures Inv(c, FreePasses(p, ids), {}) <==> Freeable(p.refs, ids)
  {
    hide Inv, FreePasses, FreeAll;
    if Freeable(p.refs, ids) {
      FreeableIsPlain(p.refs, ids);
      PassesAreSequentialIff(p, ids);
      FreeAllKeeps(c, p, ids);
    } else {
      Sized(c, p);
      var x :| 0 < x < |p.refs| && x in ids && !(multiset(ids)[x] < p.refs[x] || (multiset(ids)[x] == p.refs[x] == 1));
      TooOften(c, p, ids, x);
    }
  }

  lemma FreeableIsPlain(refs: seq<int>, ids: seq<nat>)
    requires Freeable(refs, ids)
    ensures Plain(refs, ids) && Owed(refs, ids)
  {
    forall x | 0 < x < |refs| && multiset(ids)[x] >= 2 ensures !(1 <= refs[x] <= multiset(ids)[x]) {
      assert x in multiset(ids) && x in ids;
    }
  }

  lemma TooOften(c: Config, p: Pool, ids: seq<nat>, x: nat)
    requires Inv(c, p, {}) && InRange(p.refs, ids) && 0 < x < |p.refs| && x in ids
    requires !(multiset(ids)[x] < p.refs[x] || (multiset(ids)[x] == p.refs[x] == 1))
    ensures !Inv(c, FreePasses(p, ids), {})
  {
    var q := FreePasses(p, ids);
    var freed := NewlyFreed(q.refs, ids);
    hide LruOk, CacheOk, LayersOk, HolderOk, KvBytes, ExpertBytes, Exclusive, Sb, Decrement, NewlyFreed, StampAll;
    DecrementIs(p.refs, ids, x);
    CountFreed(q.refs, ids, x);
    assert x in multiset(ids);
    if q.refs[x] == 0 {
      QueuedTwice(p.queue, freed, x);
      if QueueOk(c, q.refs, q.queue, {}) {
        OnceOnly(q.queue, x);
      }
    } else {
      assert q.refs[x] < 0;
    }
  }

  lemma QueuedTwice(queue: seq<nat>, freed: seq<nat>, x: nat)
    ensures multiset(queue + freed)[x] >= multiset(freed)[x]
  {
  }

  /** A block with two references, named twice in one list, is queued twice; with three
      references it is not queued at all. */
  lemma FreedTwice(ids: seq<nat>, refs: seq<int>)
    requires |ids| == 2 && ids[0] == ids[1] == 1 && |refs| == 2 && 2 <= refs[1] <= 3
    ensures InRange(refs, ids) && (Freeable(refs, ids) <==> refs[1] == 3) && (Plain(refs, ids) <==> refs[1] == 3)
    ensures NewlyFreed(Decrement(refs, ids), ids) == if refs[1] == 2 then ids else []
  {
    hide Decrement, NewlyFreed;
    assert ids == [1, 1];
    assert multiset(ids) == multiset{1, 1};
    DecrementIs(refs, ids, 1);
    FreedPair(Decrement(refs, ids), ids);
  }

  lemma FreedPair(f: seq<int>, ids: seq<nat>)
    requires |ids| == 2 && ids[0] == ids[1] == 1 && |f| == 2
    ensures NewlyFreed(f, ids) == if f[1] == 0 then ids else []
  {
    hide NewlyFreed;
    assert ids[..0] == [] && ids[..2] == ids;
    PassStart(f, map[], [], 0);
    FreedNext(f, ids, 0);
    FreedNext(f, ids, 1);
  }

  // ----- One more block -----

  lemma PassStart(refs: seq<int>, hashOf: map<nat, nat>, lru: seq<Entry>, step: nat)
    ensures Decrement(refs, []) == refs && NewlyFreed(refs, []) == [] && StampAll(lru, hashOf, [], step) == lru
    ensures forall r: seq<int> :: NewlyFreed(r, []) == []
  {
  }

  lemma DecrementNext(refs: seq<int>, ids: seq<nat>, k: nat)
    requires k < |ids| && InRange(refs, ids)
    ensures Decrement(refs, ids[..k + 1]) == Less(Decrement(refs, ids[..k]), ids[k])
  {
    hide Less;
    var s := ids[..k + 1];
    assert |s| == k + 1 && s[k] == ids[k] && s[..k] == ids[..k];
  }

  lemma FreedNext(refs: seq<int>, ids: seq<nat>, k: nat)
    requires k < |ids| && InRange(refs, ids)
    ensures NewlyFreed(refs, ids[..k + 1])
         == NewlyFreed(refs, ids[..k]) + if refs[ids[k]] == 0 && ids[k] != 0 then [ids[k]] else []
  {
    assert ids[..k + 1][..k] == ids[..k];
  }

  lemma StampNext(lru: seq<Entry>, hashOf: map<nat, nat>, freed: seq<nat>, step: nat, k: nat)
    requires k < |freed|
    ensures
      var r := StampAll(lru, hashOf, freed[..k], step);
      StampAll(lru, hashOf, freed[..k + 1], step) == if freed[k] in hashOf then Touch(r, freed[k], step) else r
  {
    assert freed[..k + 1][..k] == freed[..k];
  }
}
