/**
  PrefixLRU of fused_moe/unified_pool.py: an intrusive doubly linked list from the
  coldest page to the warmest, with a dictionary from page to node.
 */
module PrefixLru {
  import opened Recency

  class Node {
    var page: nat
    var step: nat
    var prev: Node?
    var next: Node?

    constructor (page: nat, step: nat)
      ensures this.page == page && this.step == step && prev == null && next == null
    {
      this.page, this.step, prev, next := page, step, null, null;
    }
  }

  ghost function Listing(order: seq<Node>): (l: seq<Entry>)
    reads order
    ensures |l| == |order|
  {
    seq(|order|, i requires 0 <= i < |order| reads order => Entry(order[i].page, order[i].step))
  }

  lemma OneMoreSorted(l: seq<Entry>, k: nat)
    requires k < |l| && Sorted(l[..k]) && (k > 0 ==> l[k - 1].step <= l[k].step)
    ensures Sorted(l[..k + 1])
  {
    forall i, j | 0 <= i < j < k + 1 ensures l[i].step <= l[j].step {
      assert i < k - 1 ==> l[..k][i].step <= l[..k][k - 1].step;
      assert j < k ==> l[..k][i].step <= l[..k][j].step;
    }
  }

  class PrefixLRU {
    var nodes: map<nat, Node>
    var head: Node?
    var tail: Node?
    ghost var order: seq<Node>

    /** The links run through order in both directions. */
    ghost predicate Linked()
      reads this`head, this`tail, this`order, order`prev, order`next
    {
      && (forall j, k :: 0 <= j < k < |order| ==> order[j] != order[k])
      && (forall i {:trigger order[i].prev} :: 0 <= i < |order| ==>
                                                 order[i].prev == if i == 0 then null else order[i - 1])
      && (forall i {:trigger order[i].next} :: 0 <= i < |order| ==>
                                                 order[i].next == if i == |order| - 1 then null else order[i + 1])
      && head == (if order == [] then null else order[0])
      && tail == (if order == [] then null else order[|order| - 1])
    }

    /** The dictionary finds every listed node by its page, and nothing else. */
    ghost predicate Mapped()
      reads this, order
    {
      && (forall n :: n in order ==> n.page in nodes && nodes[n.page] == n)
      && (forall p :: p in nodes ==> nodes[p] in order && nodes[p].page == p)
    }

    ghost predicate Valid()
      reads this, order
    {
      Linked() && Mapped()
    }

    ghost function Contents(): (l: seq<Entry>)
      reads this`order, order
      ensures |l| == |order|
    {
      Listing(order)
    }

    constructor ()
      ensures Valid() && order == [] && Contents() == []
    {
      nodes, head, tail, order := map[], null, null, [];
    }

    method Unlink(node: Node, ghost k: nat)
      requires Linked() && k < |order| && order[k] == node
      modifies this`head, this`tail, this`order, order`prev, order`next
      ensures Linked() && order == old(order[..k] + order[k + 1..])
      ensures node.prev == null && node.next == null
    {
      if node.prev != null {
        node.prev.next := node.next;
      } else {
        head := node.next;
      }
      if node.next != null {
        node.next.prev := node.prev;
      } else {
        tail := node.prev;
      }
      node.prev := null;
      node.next := null;
      ghost var before := order;
      order := order[..k] + order[k + 1..];
      assert forall i {:trigger order[i]} :: 0 <= i < |order| ==> order[i] == before[if i < k then i else i + 1];
    }

    method Append(node: Node)
      requires Linked() && node !in order
      modifies this`head, this`tail, this`order, node`prev, node`next, order`next
      ensures Linked() && order == old(order) + [node]
    {
      node.prev := tail;
      node.next := null;
      if tail != null {
        tail.next := node;
      } else {
        head := node;
      }
      tail := node;
      order := order + [node];
    }

    lemma Others(k: nat, rest: seq<Node>)
      requires Linked() && k < |order| && rest == order[..k] + order[k + 1..]
      ensures forall n :: n in rest <==> n in order && n != order[k]
    {
      forall n | n in order && n != order[k] ensures n in rest {
        var j :| 0 <= j < |order| && order[j] == n;
        assert rest[if j < k then j else j - 1] == n;
      }
    }

    lemma Located(page: nat) returns (k: nat)
      requires Valid() && page in nodes
      ensures k < |order| && order[k] == nodes[page] && Find(Contents(), page) == k
      ensures Contents()[k] == Entry(page, nodes[page].step)
    {
      k :| 0 <= k < |order| && order[k] == nodes[page];
      ContentsDistinct();
      FindUnique(Contents(), k);
    }

    lemma ContentsDistinct()
      requires Valid()
      ensures Distinct(Contents())
    {
      forall j, k | 0 <= j < k < |order| ensures order[j].page != order[k].page {
        assert nodes[order[j].page] != nodes[order[k].page];
      }
    }

    lemma Absent(page: nat)
      requires Valid() && page !in nodes
      ensures Find(Contents(), page) == |order|
    {
    }

    /** Unlink, seen as a change of the listing. */
    method Detach(node: Node, ghost k: nat)
      requires Linked() && k < |order| && order[k] == node
      modifies this`head, this`tail, this`order, order`prev, order`next
      ensures Linked() && Contents() == RemoveAt(old(Contents()), k)
      ensures forall n :: n in order <==> n in old(order) && n != node
    {
      hide Linked;
      Others(k, order[..k] + order[k + 1..]);
      Unlink(node, k);
    }

    /** Append, seen as a change of the listing. */
    method Attach(node: Node)
      requires Linked() && node !in order
      modifies this`head, this`tail, this`order, node`prev, node`next, order`next
      ensures Linked() && Contents() == old(Contents()) + [Entry(node.page, node.step)]
      ensures order == old(order) + [node]
    {
      hide Linked;
      Append(node);
    }

    /** Removes a page and gives its step, if it is there. */
    method Pop(page: nat) returns (found: bool, step: nat)
      requires Valid()
      modifies this, order`prev, order`next
      ensures Valid() && Contents() == Remove(old(Contents()), page)
      ensures found == (page in old(nodes)) && (found ==> Entry(page, step) in old(Contents()))
      ensures forall n :: n in order ==> n in old(order)
      ensures found ==> old(nodes[page]) !in order
      ensures page !in nodes
    {
      hide Linked, Contents, Listing;
      if page !in nodes {
        Absent(page);
        return false, 0;
      }
      var node := nodes[page];
      ghost var k := Located(page);
      nodes := nodes - {page};
      Detach(node, k);
      return true, node.step;
    }

    method Restamp(node: Node, step: nat, ghost k: nat)
      requires Valid() && k < |order| && order[k] == node
      modifies node`step
      ensures Valid() && node.step == step
      ensures Contents() == old(Contents())[k := Entry(node.page, step)]
    {
      node.step := step;
    }

    /** Inserts a page, or restamps it, as the newest entry. */
    method Touch(page: nat, step: nat)
      requires Valid()
      modifies this, order
      ensures Valid() && Contents() == Recency.Touch(old(Contents()), page, step)
      ensures forall n :: n in order ==> n in old(order) || fresh(n)
    {
      hide Linked, Contents, Listing;
      var node;
      if page !in nodes {
        Absent(page);
        node := new Node(page, step);
        nodes := nodes[page := node];
      } else {
        node := nodes[page];
        ghost var k := Located(page);
        Restamp(node, step, k);
        ghost var l := Contents();
        Detach(node, k);
        assert RemoveAt(l, k) == RemoveAt(old(Contents()), k);
      }
      assert forall i :: 0 <= i < |order| ==> order[i] in old(order);
      Attach(node);
    }

    /** Gives the bytes of a page a new address: dst takes over src's node where it stands. */
    method Rename(src: nat, dst: nat, fallbackStep: nat) returns (step: nat)
      requires Valid()
      modifies this, order
      ensures Valid() && Contents() == Recency.Rename(old(Contents()), src, dst, fallbackStep)
      ensures
        var r := Remove(old(Contents()), dst);
        step == if Find(r, src) < |r| then r[Find(r, src)].step else fallbackStep
      ensures forall n :: n in order ==> n in old(order) || fresh(n)
    {
      hide Linked, Contents, Listing, Mapped;
      var _, _ := Pop(dst);
      assert forall i :: 0 <= i < |order| ==> order[i] in old(order);
      if src !in nodes {
        Absent(src);
        Touch(dst, fallbackStep);
        return fallbackStep;
      }
      ghost var k := Located(src);
      step := Readdress(src, dst, k);
    }

    /** The node of src, in place, becomes the node of dst. */
    method Readdress(src: nat, dst: nat, ghost k: nat) returns (step: nat)
      requires Valid() && src in nodes && dst !in nodes && k < |order| && order[k] == nodes[src]
      modifies this`nodes, order`page
      ensures Valid() && order == old(order)
      ensures Contents() == old(Contents())[k := Entry(dst, step)] && step == old(Contents())[k].step
    {
      var node := nodes[src];
      nodes := nodes - {src};
      node.page := dst;
      nodes := nodes[dst := node];
      step := node.step;
    }

    /** Inserts a page where its step belongs. */
    method InsertOrdered(page: nat, step: nat)
      requires Valid()
      modifies this, order
      ensures Valid() && Contents() == Recency.InsertOrdered(old(Contents()), page, step)
    {
      hide Linked, Contents, Listing, Mapped, Rank, Remove;
      var _, _ := Pop(page);
      assert forall i :: 0 <= i < |order| ==> order[i] in old(order);
      var node := new Node(page, step);
      var cursor, k := FindSlot(step);
      Place(node, cursor, k);
    }

    /** Splice and the dictionary entry, seen as a change of the listing. */
    method Place(node: Node, cursor: Node?, ghost k: nat)
      requires Valid() && node !in order && node.prev == null && node.page !in nodes && k <= |order|
      requires cursor == if k == 0 then null else order[k - 1]
      modifies this, node`prev, node`next, order`prev, order`next
      ensures Valid()
      ensures Contents() == old(Contents())[..k] + [Entry(node.page, node.step)] + old(Contents())[k..]
    {
      hide Linked;
      nodes := nodes[node.page := node];
      ghost var before := order;
      Splice(node, cursor, k);
      assert before == before[..k] + before[k..];
      assert forall n :: n in order <==> n in before || n == node;
    }

    /** Walks back from the tail past every entry newer than step. */
    method FindSlot(step: nat) returns (cursor: Node?, ghost k: nat)
      requires Linked()
      ensures k == Rank(Contents(), step) && cursor == if k == 0 then null else order[k - 1]
    {
      cursor, k := tail, |order|;
      while cursor != null && cursor.step > step
        invariant k <= |order| && cursor == if k == 0 then null else order[k - 1]
        invariant forall j :: k <= j < |order| ==> Contents()[j].step > step
        decreases k
      {
        assert cursor == order[k - 1] && order[k - 1].prev == cursor.prev;
        cursor, k := cursor.prev, k - 1;
      }
      RankIs(Contents(), step, k);
    }

    /** Links a node in after the cursor, or at the head. */
    method Splice(node: Node, cursor: Node?, ghost k: nat)
      requires Linked() && node !in order && node.prev == null && k <= |order|
      requires cursor == if k == 0 then null else order[k - 1]
      modifies this`head, this`tail, this`order, node`prev, node`next, order`prev, order`next
      ensures Linked() && order == old(order)[..k] + [node] + old(order)[k..]
    {
      if cursor == null {
        node.next := head;
        if head != null {
          head.prev := node;
        } else {
          tail := node;
        }
        head := node;
      } else {
        node.prev := cursor;
        node.next := cursor.next;
        if cursor.next != null {
          cursor.next.prev := node;
        } else {
          tail := node;
        }
        cursor.next := node;
      }
      order := order[..k] + [node] + order[k..];
    }

    /** The coldest entry. */
    method Oldest() returns (found: bool, page: nat, step: nat)
      requires Valid()
      ensures found == (Contents() != []) && (found ==> Contents()[0] == Entry(page, step))
    {
      if head == null { return false, 0, 0; }
      return true, head.page, head.step;
    }

    /** The coldest entries, at most limit of them. */
    method ColdestFirst(limit: nat) returns (r: seq<Entry>)
      requires Valid()
      ensures r == Contents()[..if limit < |order| then limit else |order|]
    {
      var node := head;
      r := [];
      while node != null && |r| < limit
        invariant |r| <= |order| && |r| <= limit && r == Contents()[..|r|]
        invariant node == if |r| < |order| then order[|r|] else null
        decreases limit - |r|
      {
        r := r + [Entry(node.page, node.step)];
        node := node.next;
      }
    }

    /** The self-check: on an intact list it passes exactly when traversal order is recency order. */
    method Validate() returns (ok: bool)
      requires Valid()
      ensures ok <==> Sorted(Contents())
    {
      var prev: Node? := null;
      var node := head;
      ghost var k := 0;
      while node != null
        invariant k <= |order| && node == (if k < |order| then order[k] else null)
        invariant prev == if k == 0 then null else order[k - 1]
        invariant Sorted(Contents()[..k])
        decreases |order| - k
      {
        if node.page !in nodes || nodes[node.page] != node || node.prev != prev {
          assert false;
        }
        if prev != null && prev.step > node.step {
          assert Contents()[k - 1].step > Contents()[k].step;
          return false;
        }
        OneMoreSorted(Contents(), k);
        prev, node, k := node, node.next, k + 1;
      }
      assert Contents()[..k] == Contents();
      return true;
    }
  }
}
