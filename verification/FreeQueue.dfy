/**
  FreeKVCacheBlockQueue of kv_cache_utils.py: the free blocks in a doubly linked list between
  two sentinels, with a count kept beside it.
 */
module FreeQueue {
  import Recency
  import PoolState
  import PoolFrames

  class Block {
    const id: nat
    var prev: Block?
    var next: Block?

    constructor (id: nat)
      ensures this.id == id && prev == null && next == null
    {
      this.id, prev, next := id, null, null;
    }
  }

  datatype Popped = Popped(block: Block) | Empty | OutOfSync

  /** The queue as the pool manager sees it: block ids, the next one to be popped first. */
  ghost function Ids(blocks: seq<Block>): (r: seq<nat>)
    ensures |r| == |blocks| && forall k :: 0 <= k < |r| ==> r[k] == blocks[k].id
  {
    seq(|blocks|, k requires 0 <= k < |blocks| => blocks[k].id)
  }

  /** Taking the block at k - 1 out is what the manager's queue does with its id. */
  lemma IdsWithout(blocks: seq<Block>, k: nat)
    requires 0 < k <= |blocks| && Recency.NoRepeats(Ids(blocks))
    ensures Ids(blocks[..k - 1] + blocks[k..]) == PoolState.QueueRemove(Ids(blocks), blocks[k - 1].id)
  {
    PoolFrames.RemovedInPlace(Ids(blocks), k - 1);
    assert Ids(blocks[..k - 1] + blocks[k..]) == Ids(blocks)[..k - 1] + Ids(blocks)[k..];
  }

  lemma IdsJoin(a: seq<Block>, b: seq<Block>)
    ensures Ids(a + b) == Ids(a) + Ids(b)
  {
  }

  // ----- Lists with repetitions -----

  ghost predicate Distinct<T>(s: seq<T>) {
    forall j, k :: 0 <= j < k < |s| ==> s[j] != s[k]
  }

  /** Nothing after k is the same. */
  ghost predicate IsLast<T>(s: seq<T>, k: nat)
    requires k < |s|
  {
    forall j :: k < j < |s| ==> s[j] != s[k]
  }

  /** The last place of what is at k. */
  ghost function LastOf<T>(s: seq<T>, k: nat): (r: nat)
    requires k < |s|
    ensures k <= r < |s| && s[r] == s[k] && IsLast(s, r)
    decreases |s| - k
  {
    if j :| k < j < |s| && s[j] == s[k] then LastOf(s, j) else k
  }

  /** What following the links from k on meets: each link leaves from the last mention, so
      everything between two mentions of a block is jumped over. */
  ghost function Jump<T>(s: seq<T>, k: nat): (r: seq<T>)
    requires k <= |s|
    ensures |r| <= |s| - k && (k < |s| ==> r != [])
    decreases |s| - k
  {
    if k == |s| then [] else [s[k]] + Jump(s, LastOf(s, k) + 1)
  }

  lemma {:induction false} JumpMembers<T>(s: seq<T>, k: nat)
    requires k <= |s|
    ensures Distinct(Jump(s, k)) && (k < |s| ==> Jump(s, k)[0] == s[k])
    ensures forall b :: b in Jump(s, k) ==> b in s[k..]
    decreases |s| - k
  {
    if k < |s| {
      var n := LastOf(s, k) + 1;
      JumpMembers(s, n);
      forall b | b in Jump(s, n) ensures b in s[k..] && b != s[k] {
        var j :| 0 <= j < |s| - n && s[n..][j] == b;
        assert s[k..][n - k + j] == b;
      }
      assert s[k..][0] == s[k];
      Prepended(s[k], Jump(s, n));
    }
  }

  lemma Prepended<T>(x: T, s: seq<T>)
    requires Distinct(s) && x !in s
    ensures Distinct([x] + s)
  {
    forall i, j | 0 <= i < j < |s| + 1 ensures ([x] + s)[i] != ([x] + s)[j] {
      assert s[j - 1] in s;
    }
  }

  /** Nothing is jumped over exactly when nothing is repeated. */
  lemma {:induction false} JumpAll<T>(s: seq<T>, k: nat)
    requires k <= |s|
    ensures Distinct(s[k..]) ==> Jump(s, k) == s[k..]
    ensures !Distinct(s[k..]) ==> |Jump(s, k)| < |s| - k
    decreases |s| - k
  {
    if k < |s| {
      var n := LastOf(s, k) + 1;
      JumpAll(s, n);
      assert s[k..] == [s[k]] + s[k + 1..];
      if Distinct(s[k..]) {
        assert s[k..][0] == s[k] && s[k..][n - 1 - k] == s[k];
        assert n == k + 1;
        Tail(s[k..]);
      } else if n == k + 1 {
        if Distinct(s[n..]) {
          Longer(s, k);
        }
      }
    }
  }

  lemma Tail<T>(s: seq<T>)
    requires s != [] && Distinct(s)
    ensures Distinct(s[1..])
  {
  }

  lemma Longer<T>(s: seq<T>, k: nat)
    requires k < |s| && IsLast(s, k) && Distinct(s[k + 1..])
    ensures Distinct(s[k..])
  {
    forall i, j | 0 <= i < j < |s| - k ensures s[k..][i] != s[k..][j] {
      if i > 0 {
        assert s[k + 1..][i - 1] == s[k..][i] && s[k + 1..][j - 1] == s[k..][j];
      } else {
        assert s[k..][j] == s[k + j];
      }
    }
  }

  /** All but the two ends. */
  ghost function Inner<T>(s: seq<T>): seq<T> {
    if |s| < 2 then [] else s[1..|s| - 1]
  }

  lemma InnerWithout<T>(s: seq<T>, k: nat)
    requires 0 < k < |s| - 1
    ensures Inner(s[..k] + s[k + 1..]) == Inner(s)[..k - 1] + Inner(s)[k..] && |Inner(s)| == |s| - 2
  {
  }

  class Queue {
    const head: Block
    const tail: Block
    var count: int
    /** The blocks met from the head on, sentinels included. */
    ghost var chain: seq<Block>

    /** The free blocks, the next one to be popped first. */
    ghost function Free(): seq<Block>
      reads this`chain
    {
      Inner(chain)
    }

    /** Following the links from the head leads through the chain to the tail. */
    ghost predicate Forward()
      reads this`chain, chain`next
    {
      && |chain| >= 2 && chain[0] == head && chain[|chain| - 1] == tail && Distinct(chain) && tail.next == null
      && forall i {:trigger chain[i].next} :: 0 <= i < |chain| - 1 ==> chain[i].next == chain[i + 1]
    }

    ghost predicate Backward()
      reads this`chain, chain`prev
    {
      && |chain| >= 2 && head == chain[0] && head.prev == null
      && forall i {:trigger chain[i].prev} :: 0 < i < |chain| ==> chain[i].prev == chain[i - 1]
    }

    /** Both directions agree, and so does the count. */
    ghost predicate Valid()
      reads this, chain
    {
      Forward() && Backward() && count == |Free()|
    }

    constructor ()
      ensures Valid() && Free() == [] && fresh(head) && fresh(tail)
    {
      var h := new Block(0);
      var t := new Block(0);
      h.next, t.prev := t, h;
      head, tail, count, chain := h, t, 0, [h, t];
    }

    /** popleft.  On a chain that can be followed it pops the first block; at the end it
        notices if the count does not say zero. */
    method PopLeft() returns (r: Popped)
      requires Forward()
      modifies this`count, this`chain, chain`prev, chain`next
      ensures Forward() && (old(Valid()) ==> Valid())
      ensures old(Free()) != [] ==> r == Popped(old(Free())[0]) && Free() == old(Free())[1..] && count == old(count) - 1
      ensures old(Free()) == [] ==>
                Free() == [] && count == old(count) && r == if count == 0 then Empty else OutOfSync
    {
      hide Forward, Backward, Inner;
      FirstLink();
      if head.next == tail {
        return if count == 0 then Empty else OutOfSync;
      }
      var first := head.next;
      Advance();
      count := count - 1;
      return Popped(first);
    }

    lemma FirstLink()
      requires Forward()
      ensures head.next == chain[1] && |Free()| == |chain| - 2
      ensures head.next == tail <==> |chain| == 2
      ensures |chain| > 2 ==> Free()[0] == chain[1] && Inner([head] + chain[2..]) == Free()[1..]
    {
      assert chain[0].next == chain[1];
      if |chain| > 2 {
        assert chain[1] != chain[|chain| - 1];
        assert ([head] + chain[2..])[1..|chain| - 2] == chain[2..|chain| - 1];
      }
    }

    /** The head is linked to the second block, and the first one is cut off. */
    method Advance()
      requires Forward() && |chain| > 2
      modifies this`chain, chain`prev, chain`next
      ensures Forward() && (old(Backward()) ==> Backward()) && chain == [head] + old(chain)[2..]
    {
      var first := head.next;
      assert chain[0].next == chain[1] && chain[1].next == chain[2];
      head.next := first.next;
      first.next.prev := head;
      first.prev, first.next := null, null;
      ghost var before := chain;
      chain := [head] + chain[2..];
      assert forall i {:trigger chain[i]} :: 0 < i < |chain| ==> chain[i] == before[i + 1];
      forall i | 0 <= i < |chain| - 1 ensures chain[i].next == chain[i + 1] {
        if i > 0 {
          assert before[i + 1].next == before[i + 2];
        }
      }
    }

    /** The links around a block are closed. */
    method Unlink(block: Block, ghost k: nat)
      requires Forward() && Backward() && 0 < k < |chain| - 1 && chain[k] == block
      modifies this`chain, chain`prev, chain`next
      ensures Forward() && Backward() && chain == old(chain[..k] + chain[k + 1..])
      ensures block.prev == null && block.next == null
    {
      assert chain[k].prev == chain[k - 1] && chain[k].next == chain[k + 1];
      block.prev.next := block.next;
      block.next.prev := block.prev;
      block.prev, block.next := null, null;
      ghost var before := chain;
      chain := chain[..k] + chain[k + 1..];
      assert forall i {:trigger chain[i]} :: 0 <= i < |chain| ==> chain[i] == before[if i < k then i else i + 1];
    }

    lemma Inside(block: Block, k: nat)
      requires Forward() && Backward() && 0 < k < |chain| - 1 && chain[k] == block
      ensures block.prev != null && block.next != null && k <= |Free()| && Free()[k - 1] == block
    {
      assert chain[k].prev == chain[k - 1] && chain[k].next == chain[k + 1];
      assert Free()[k - 1] == block;
    }

    /** remove: refuses a block whose links are cleared, as those of every block outside are. */
    method Remove(block: Block, ghost k: nat) returns (ok: bool)
      requires Valid() && (block in Free() ==> 0 < k < |chain| - 1 && chain[k] == block)
      requires block !in Free() ==> block.prev == null || block.next == null
      modifies this`count, this`chain, chain`prev, chain`next
      ensures Valid() && (ok <==> block in old(Free()))
      ensures Free() == if ok then old(Free())[..k - 1] + old(Free())[k..] else old(Free())
      ensures Recency.NoRepeats(Ids(old(Free()))) && ok ==>
                Ids(Free()) == PoolState.QueueRemove(Ids(old(Free())), block.id)
    {
      hide Forward, Backward, Inner, PoolState.QueueRemove, Recency.NoRepeats, Ids;
      if block in Free() {
        Inside(block, k);
      }
      if block.prev == null || block.next == null {
        return false;
      }
      InnerWithout(chain, k);
      if Recency.NoRepeats(Ids(Free())) {
        IdsWithout(Free(), k);
      }
      Unlink(block, k);
      count := count - 1;
      return true;
    }

    /** append_n: links each block behind the one before it in the list.  The links that a
        repeated block had are overwritten at its next mention. */
    method AppendN(blocks: seq<Block>)
      requires Valid() && forall b :: b in blocks ==> b !in chain
      modifies this`count, this`chain, chain`prev, chain`next, blocks`prev, blocks`next
      ensures Forward() && Free() == old(Free()) + Jump(blocks, 0) && count == old(count) + |blocks|
      ensures Valid() <==> Distinct(blocks)
      ensures Distinct(blocks) ==> Ids(Free()) == Ids(old(Free())) + Ids(blocks)
    {
      IdsJoin(Free(), blocks);
      hide Ids, Onwards, Backwards, Jump, Distinct, Inner;
      JumpAll(blocks, 0);
      assert blocks[0..] == blocks;
      if blocks == [] {
        return;
      }
      ghost var base := chain[..|chain| - 1];
      var last := tail.prev;
      Ends(base);
      Untouched(base, last, blocks);
      RelinkBehind(blocks, last, base[..|base| - 1], base[1..], head);
      count := count + |blocks|;
      JumpMembers(blocks, 0);
      JumpLinked(blocks, 0, tail);
      Spliced(base, Jump(blocks, 0), blocks);
      chain := base + Jump(blocks, 0) + [tail];
      Onward(base, Jump(blocks, 0));
      if Distinct(blocks) {
        Back(base, blocks);
      }
    }

    /** Relinking leaves the blocks before alone. */
    method RelinkBehind(blocks: seq<Block>, first: Block, ghost front: seq<Block>, ghost rest: seq<Block>,
                        ghost h: Block)
      requires blocks != [] && first !in blocks && tail !in blocks && first != tail
      requires Onwards(front, first) && Backwards(rest, h)
      requires forall b :: b in front ==> b != first && b !in blocks
      requires forall b :: b in rest ==> b !in blocks && b != tail
      modifies first`next, tail`prev, blocks`prev, blocks`next
      ensures first.next == blocks[0] && tail.prev == blocks[|blocks| - 1]
      ensures Onwards(front, first) && Backwards(rest, h)
      ensures forall k {:trigger blocks[k].next} :: 0 <= k < |blocks| && IsLast(blocks, k) ==>
                blocks[k].next == if k + 1 < |blocks| then blocks[k + 1] else tail
      ensures Distinct(blocks) ==> Backwards(blocks, first)
    {
      hide IsLast, Distinct;
      Relink(blocks, first);
      forall i | 0 <= i < |front| ensures front[i].next == old(front[i].next) {
        assert front[i] in front;
      }
      forall i | 0 <= i < |rest| ensures rest[i].prev == old(rest[i].prev) {
        assert rest[i] in rest;
      }
    }

    lemma Untouched(base: seq<Block>, last: Block, blocks: seq<Block>)
      requires base != [] && Distinct(base) && last == base[|base| - 1] && tail !in base
      requires forall b :: b in blocks ==> b !in base && b != tail
      ensures forall b :: b in base[..|base| - 1] ==> b != last && b !in blocks && b != tail
      ensures forall b :: b in base[1..] ==> b !in blocks && b != tail
      ensures last !in blocks && last != tail && tail !in blocks && head == base[0] ==> head !in blocks
    {
      assert base[|base| - 1] in base;
    }

    lemma Ends(base: seq<Block>)
      requires Forward() && Backward() && base == chain[..|chain| - 1]
      ensures base != [] && base[0] == head && tail.prev == base[|base| - 1] && tail !in base && Distinct(base)
      ensures chain == base + [tail] && Free() == base[1..]
      ensures Onwards(base[..|base| - 1], base[|base| - 1]) && Backwards(base[1..], head)
    {
      hide Onwards, Backwards;
      assert chain[|chain| - 1].prev == chain[|chain| - 2];
      EndsNext(base);
      EndsPrev(base);
    }

    lemma EndsNext(base: seq<Block>)
      requires Forward() && base == chain[..|chain| - 1]
      ensures Onwards(base[..|base| - 1], base[|base| - 1])
    {
      hide Distinct;
      var front := base[..|base| - 1];
      forall i | 0 <= i < |front| ensures front[i].next == base[i + 1] {
        assert chain[i].next == chain[i + 1];
      }
    }

    lemma EndsPrev(base: seq<Block>)
      requires Backward() && base == chain[..|chain| - 1]
      ensures Backwards(base[1..], head)
    {
      var rest := base[1..];
      forall i | 0 <= i < |rest| ensures rest[i].prev == base[i] {
        assert chain[i + 1].prev == chain[i];
      }
    }

    lemma Onward(base: seq<Block>, path: seq<Block>)
      requires base != [] && base[0] == head && path != [] && chain == base + path + [tail] && tail.next == null
      requires Distinct(base + path) && tail !in base + path && base[|base| - 1].next == path[0]
      requires Onwards(base[..|base| - 1], base[|base| - 1]) && Onwards(path, tail)
      ensures Forward() && Free() == base[1..] + path
    {
      forall i | 0 <= i < |chain| - 1 ensures chain[i].next == chain[i + 1] {
        if i < |base| - 1 {
          assert chain[i] == base[..|base| - 1][i];
        } else if i >= |base| {
          assert chain[i] == path[i - |base|];
        }
      }
      forall i, j | 0 <= i < j < |chain| ensures chain[i] != chain[j] {
        assert (base + path)[i] in base + path;
      }
    }

    lemma Back(base: seq<Block>, blocks: seq<Block>)
      requires base != [] && base[0] == head && head.prev == null && blocks != [] && chain == base + blocks + [tail]
      requires tail.prev == blocks[|blocks| - 1]
      requires Backwards(base[1..], head) && Backwards(blocks, base[|base| - 1])
      ensures Backward()
    {
      forall i | 0 < i < |chain| ensures chain[i].prev == chain[i - 1] {
        if i < |base| {
          assert chain[i] == base[1..][i - 1];
        } else if i < |chain| - 1 {
          assert chain[i] == blocks[i - |base|];
        }
      }
    }

    /** get_all_free_blocks: whatever the links back say. */
    method AllFree() returns (r: seq<Block>)
      requires Forward()
      ensures r == Free()
    {
      r := [];
      assert chain[0].next == chain[1];
      var current := head.next;
      while current.next != null
        invariant |r| + 1 < |chain| && current == chain[|r| + 1] && r == chain[1..|r| + 1]
        decreases |chain| - |r|
      {
        assert chain[|r| + 1].next == if |r| + 1 == |chain| - 1 then null else chain[|r| + 2];
        r := r + [current];
        current := current.next;
      }
      assert |r| + 1 == |chain| - 1;
    }

    /** The loop of append_n. */
    method Relink(blocks: seq<Block>, first: Block)
      requires blocks != [] && first !in blocks && tail !in blocks && first != tail
      modifies first`next, tail`prev, blocks`prev, blocks`next
      ensures first.next == blocks[0] && tail.prev == blocks[|blocks| - 1]
      ensures forall k {:trigger blocks[k].next} :: 0 <= k < |blocks| && IsLast(blocks, k) ==>
                blocks[k].next == if k + 1 < |blocks| then blocks[k + 1] else tail
      ensures Distinct(blocks) ==> Backwards(blocks, first)
    {
      hide IsLast, LastUpTo, Distinct;
      var last := first;
      for n := 0 to |blocks|
        invariant last == (if n == 0 then first else blocks[n - 1]) && (n > 0 ==> first.next == blocks[0])
        invariant forall k {:trigger blocks[k].next} :: 0 <= k < n - 1 && LastUpTo(blocks, n, k) ==>
                    blocks[k].next == blocks[k + 1]
        invariant forall k {:trigger blocks[k].prev} :: 0 <= k < n && LastUpTo(blocks, n, k) ==>
                    blocks[k].prev == if k == 0 then first else blocks[k - 1]
      {
        var block := blocks[n];
        forall k | 0 <= k < n && LastUpTo(blocks, n + 1, k)
          ensures LastUpTo(blocks, n, k) && blocks[k] != block && (k < n - 1 ==> blocks[k] != blocks[n - 1])
        {
          LastStep(blocks, n, k);
        }
        block.prev := last;
        last.next := block;
        last := block;
      }
      forall k | 0 <= k < |blocks| ensures IsLast(blocks, k) <==> LastUpTo(blocks, |blocks|, k) {
        LastAtEnd(blocks, k);
      }
      forall k | 0 <= k < |blocks| - 1 && IsLast(blocks, k) ensures blocks[k] != last {
        LastAtEnd(blocks, k);
      }
      last.next := tail;
      tail.prev := last;
      if Distinct(blocks) {
        AllLast(blocks);
      }
    }
  }

  lemma LastStep<T>(s: seq<T>, n: nat, k: nat)
    requires k < n < |s| && LastUpTo(s, n + 1, k)
    ensures LastUpTo(s, n, k) && s[k] != s[n] && (k < n - 1 ==> s[k] != s[n - 1])
  {
  }

  lemma LastAtEnd<T>(s: seq<T>, k: nat)
    requires k < |s|
    ensures IsLast(s, k) <==> LastUpTo(s, |s|, k)
    ensures IsLast(s, k) && k < |s| - 1 ==> s[k] != s[|s| - 1]
  {
  }

  lemma AllLast<T>(s: seq<T>)
    requires Distinct(s)
    ensures forall k :: 0 <= k < |s| ==> IsLast(s, k)
  {
  }

  ghost predicate LastUpTo<T>(s: seq<T>, n: nat, k: nat)
    requires k < n <= |s|
  {
    forall j :: k < j < n ==> s[j] != s[k]
  }

  /** Each block's next is the one after it in r, and tail for the last. */
  ghost predicate Onwards(r: seq<Block>, tail: Block)
    reads r`next
  {
    forall i {:trigger r[i].next} :: 0 <= i < |r| ==> r[i].next == if i == |r| - 1 then tail else r[i + 1]
  }

  /** Each block's prev is the one before it in r, and first for the first. */
  ghost predicate Backwards(r: seq<Block>, first: Block)
    reads r`prev
  {
    forall i {:trigger r[i].prev} :: 0 <= i < |r| ==> r[i].prev == if i == 0 then first else r[i - 1]
  }

  lemma OnwardsMore(b: Block, r: seq<Block>, tail: Block)
    requires Onwards(r, tail) && b.next == if r == [] then tail else r[0]
    ensures Onwards([b] + r, tail)
  {
    var s := [b] + r;
    forall i | 0 <= i < |s| ensures s[i].next == if i == |s| - 1 then tail else s[i + 1] {
      if i > 0 {
        assert s[i] == r[i - 1];
      }
    }
  }

  lemma {:induction false} JumpLinked(blocks: seq<Block>, k: nat, tail: Block)
    requires k <= |blocks|
    requires forall j {:trigger blocks[j].next} :: 0 <= j < |blocks| && IsLast(blocks, j) ==>
               blocks[j].next == if j + 1 < |blocks| then blocks[j + 1] else tail
    ensures Onwards(Jump(blocks, k), tail)
    decreases |blocks| - k
  {
    hide Onwards;
    if k < |blocks| {
      var n := LastOf(blocks, k);
      JumpLinked(blocks, n + 1, tail);
      assert blocks[n].next == if n + 1 < |blocks| then blocks[n + 1] else tail;
      OnwardsMore(blocks[k], Jump(blocks, n + 1), tail);
    } else {
      OnwardsNone(tail);
    }
  }

  lemma OnwardsNone(tail: Block)
    ensures Onwards([], tail)
  {
  }

  lemma Spliced(base: seq<Block>, path: seq<Block>, blocks: seq<Block>)
    requires Distinct(base) && Distinct(path)
    requires (forall b :: b in path ==> b in blocks[0..]) && forall b :: b in blocks ==> b !in base
    ensures Distinct(base + path)
  {
    assert blocks[0..] == blocks;
    forall i, j | 0 <= i < j < |base + path| ensures (base + path)[i] != (base + path)[j] {
      if i < |base| <= j {
        assert path[j - |base|] in path && base[i] in base;
      } else if |base| <= i {
        assert path[i - |base|] != path[j - |base|];
      }
    }
  }

  /** A block appended twice: it is popped once, and then the count says that one is left. */
  method LinkedTwice() returns (first: Popped, second: Popped)
    ensures first.Popped? && first.block.id == 1 && second == OutOfSync
  {
    var q := new Queue();
    var b := new Block(1);
    JumpOver([b, b]);
    q.AppendN([b, b]);
    first := q.PopLeft();
    second := q.PopLeft();
  }

  /** A block between two mentions of another is not in the queue at all. */
  method SkippedOver() returns (count: int, free: seq<Block>)
    ensures count == 3 && |free| == 1 && free[0].id == 1
  {
    var q := new Queue();
    var b := new Block(1);
    var c := new Block(2);
    JumpOver([b, c, b]);
    q.AppendN([b, c, b]);
    free := q.AllFree();
    count := q.count;
  }

  /** A list that ends as it begins leads straight to its end. */
  lemma JumpOver<T>(s: seq<T>)
    requires s != [] && s[|s| - 1] == s[0]
    ensures Jump(s, 0) == [s[0]]
  {
    assert LastOf(s, 0) == |s| - 1;
    assert Jump(s, |s|) == [];
  }
}
